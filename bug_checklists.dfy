/** Parsing a checklist answer typed by the user (bug/checklists.go). */
module ChecklistAnswers {
  import opened Wrappers
  import opened StrUtil
  import opened Checklists

  /** The lower-case name StateFromString matches a state against. */
  function LowerName(s: ChecklistState): string {
    if s == TBD then "tbd"
    else if s == Passed then "passed"
    else if s == Failed then "failed"
    else if s == NotApplicable then "na"
    else ""
  }

  /** StateFromString: after trimming and lower-casing, the first state (in the order TBD,
      Passed, Failed, NotApplicable) whose NAME starts with the input, so that any
      abbreviation, the empty one included, is accepted. */
  function StateFromString(str: string): (r: Result<ChecklistState>)
    ensures var cleaned := ToLower(TrimSpace(str));
      && (r.Ok? ==> IsValid(r.value) && HasPrefix(LowerName(r.value), cleaned)
                    && forall s :: TBD <= s < r.value ==> !HasPrefix(LowerName(s), cleaned))
      && (r.Err? ==> r.msg == "unknown state" && forall s :: IsValid(s) ==> !HasPrefix(LowerName(s), cleaned))
  {
    FromCleaned(ToLower(TrimSpace(str)))
  }

  function FromCleaned(cleaned: string): (r: Result<ChecklistState>)
    ensures r.Ok? ==>
      && IsValid(r.value) && HasPrefix(LowerName(r.value), cleaned)
      && forall s :: TBD <= s < r.value ==> !HasPrefix(LowerName(s), cleaned)
    ensures r.Err? ==> r.msg == "unknown state" && forall s :: IsValid(s) ==> !HasPrefix(LowerName(s), cleaned)
  {
    if HasPrefix("tbd", cleaned) then Ok(TBD)
    else if HasPrefix("passed", cleaned) then Ok(Passed)
    else if HasPrefix("failed", cleaned) then Ok(Failed)
    else if HasPrefix("na", cleaned) then Ok(NotApplicable)
    else Err("unknown state")
  }

  /** Trimming a string of white space leaves nothing. */
  lemma TrimAllSpace(s: string)
    requires forall i :: 0 <= i < |s| ==> IsSpace(s[i])
    ensures TrimSpace(s) == ""
  {
  }

  /** Empty or white-space-only input reads as TBD. */
  lemma BlankIsTbd(str: string)
    requires forall i :: 0 <= i < |str| ==> IsSpace(str[i])
    ensures StateFromString(str) == Ok(TBD)
  {
    TrimAllSpace(str);
    assert ToLower("") == "";
  }

  /** A string whose first character differs from the name's is not an abbreviation of it. */
  lemma NotAbbreviation(name: string, s: string, i: nat)
    requires i < |s| && i < |name| && name[i] != s[i]
    ensures !HasPrefix(name, s)
  {
  }

  /** A one-letter input that is not white space is cleaned to its lower-case form. */
  lemma CleanLetter(s: string)
    requires |s| == 1 && !IsSpace(s[0])
    ensures StateFromString(s) == FromCleaned([LowerChar(s[0])])
  {
    TrimSpaceNoop(s);
  }

  /** The single letters t, p, f and n select TBD, Passed, Failed and NotApplicable, in
      either case. */
  lemma SingleLetters(c: char)
    ensures LowerChar(c) == 't' ==> StateFromString([c]) == Ok(TBD)
    ensures LowerChar(c) == 'p' ==> StateFromString([c]) == Ok(Passed)
    ensures LowerChar(c) == 'f' ==> StateFromString([c]) == Ok(Failed)
    ensures LowerChar(c) == 'n' ==> StateFromString([c]) == Ok(NotApplicable)
  {
    if LowerChar(c) in "tpfn" {
      CleanLetter([c]);
      if LowerChar(c) == 'p' {
        NotAbbreviation("tbd", "p", 0);
      } else if LowerChar(c) == 'f' {
        NotAbbreviation("tbd", "f", 0);
        NotAbbreviation("passed", "f", 0);
      } else if LowerChar(c) == 'n' {
        NotAbbreviation("tbd", "n", 0);
        NotAbbreviation("passed", "n", 0);
        NotAbbreviation("failed", "n", 0);
      }
    }
  }

  /** Input longer than every name, such as "passedx", is refused. */
  lemma LongInputRejected(str: string)
    requires |ToLower(TrimSpace(str))| > 6
    ensures StateFromString(str).Err?
  {
  }

  /** Input starting with a letter no name starts with, such as "a", is refused. */
  lemma UnknownInitialRejected(str: string)
    requires var cleaned := ToLower(TrimSpace(str)); cleaned != [] && cleaned[0] !in "tpfn"
    ensures StateFromString(str).Err?
  {
    var cleaned := ToLower(TrimSpace(str));
    NotAbbreviation("tbd", cleaned, 0);
    NotAbbreviation("passed", cleaned, 0);
    NotAbbreviation("failed", cleaned, 0);
    NotAbbreviation("na", cleaned, 0);
  }

  /** Each name is read as its own state, not an earlier one. */
  lemma NameSelectsItself(s: ChecklistState)
    requires IsValid(s)
    ensures FromCleaned(LowerName(s)) == Ok(s)
  {
    if s == Passed {
      NotAbbreviation("tbd", "passed", 0);
    } else if s == Failed {
      NotAbbreviation("tbd", "failed", 0);
      NotAbbreviation("passed", "failed", 0);
    } else if s == NotApplicable {
      NotAbbreviation("tbd", "na", 0);
      NotAbbreviation("passed", "na", 0);
      NotAbbreviation("failed", "na", 0);
    }
  }

  /** The names ChecklistState.String prints read back as the same state. */
  lemma NamesRoundTrip(s: ChecklistState)
    requires IsValid(s)
    ensures StateFromString(StateString(s)) == Ok(s)
  {
    TrimSpaceNoop(StateString(s));
    assert ToLower(StateString(s)) == LowerName(s);
    NameSelectsItself(s);
  }

  /** So do the short names of ShortString, as abbreviations. */
  lemma ShortNamesRoundTrip(s: ChecklistState)
    requires IsValid(s)
    ensures StateFromString(ShortString(s)) == Ok(s)
  {
    var short := ShortString(s);
    TrimSpaceNoop(short);
    if s == Passed || s == Failed {
      SingleLetters(short[0]);
    } else {
      assert ToLower(short) == LowerName(s);
      NameSelectsItself(s);
    }
  }
}
