/** Picking a user on the command line (commands/user.go): matching a search string against
    a user name, ignoring case and diacritics, and resolving the first command-line argument
    to the one identity whose id or name it matches. */
module UserCommand {
  import opened Wrappers
  import opened Entity
  import opened StrUtil
  import opened Identities
  import opened CacheExcerpts

  // --------------------------------------------------------------- compareUsername

  /** A string brought to the form in which names are compared: `normalize` stands for the
      Unicode transform that decomposes characters, drops the combining marks and recomposes
      them (it may fail), and the result is upper-cased. */
  function Normalised(normalize: string -> Result<string>, s: string): (r: Result<string>)
    ensures r.Ok? <==> normalize(s).Ok?
    ensures r.Ok? ==> r.value == ToUpper(normalize(s).value)
    ensures r.Err? ==> r.msg == normalize(s).msg
  {
    match normalize(s)
    case Err(e) => Err(e)
    case Ok(v) => Ok(ToUpper(v))
  }

  /** A (normalised) search matches a (normalised) name when it starts the whole name or
      one of the name's words. */
  predicate NameMatches(name: string, search: string) {
    HasPrefix(name, search) || SomeWordStarts(Fields(name), search)
  }

  /** Some word of the list starts with the search. */
  predicate SomeWordStarts(words: seq<string>, search: string) {
    exists w :: w in words && HasPrefix(w, search)
  }

  /** What compareUsername answers: the name's normalisation error, then the search's,
      else whether the normalised search matches the normalised name. */
  function UsernameMatch(normalize: string -> Result<string>, username: string, search: string): Result<bool> {
    match Normalised(normalize, username)
    case Err(e) => Err(e)
    case Ok(u) =>
      match Normalised(normalize, search)
      case Err(e) => Err(e)
      case Ok(s) => Ok(NameMatches(u, s))
  }

  /** compareUsername: normalises both strings, then tries the whole name and each of its
      words in turn. */
  method CompareUsername(normalize: string -> Result<string>, username: string, search: string) returns (r: Result<bool>)
    ensures r == UsernameMatch(normalize, username, search)
  {
    var usernameOut := Normalised(normalize, username);
    if usernameOut.Err? {
      return Err(usernameOut.msg);
    }
    var searchOut := Normalised(normalize, search);
    if searchOut.Err? {
      return Err(searchOut.msg);
    }
    var u, s := usernameOut.value, searchOut.value;
    if HasPrefix(u, s) {
      return Ok(true);
    }
    var found := AnyWordStarts(Fields(u), s);
    return Ok(found);
  }

  /** The loop of compareUsername over the words of the name. */
  method AnyWordStarts(parts: seq<string>, s: string) returns (found: bool)
    ensures found <==> SomeWordStarts(parts, s)
  {
    for k := 0 to |parts|
      invariant forall j :: 0 <= j < k ==> !HasPrefix(parts[j], s)
    {
      if HasPrefix(parts[k], s) {
        assert parts[k] in parts;
        return true;
      }
    }
    return false;
  }

  /** An empty search matches every name that normalises. */
  lemma EmptySearchMatches(normalize: string -> Result<string>, username: string)
    requires normalize(username).Ok? && normalize("") == Ok("")
    ensures UsernameMatch(normalize, username, "") == Ok(true)
  {
    assert HasPrefix(ToUpper(normalize(username).value), "");
  }

  /** The normalisation of plain ASCII text, where there is nothing to decompose. */
  function Plain(s: string): Result<string> {
    Ok(s)
  }

  lemma UpperOfLower(s: string)
    ensures ToUpper(ToLower(s)) == ToUpper(s)
    ensures ToUpper(ToUpper(s)) == ToUpper(s)
  {
    forall i | 0 <= i < |s|
      ensures UpperChar(LowerChar(s[i])) == UpperChar(s[i])
      ensures UpperChar(UpperChar(s[i])) == UpperChar(s[i])
    {
    }
  }

  /** Case does not matter: upper- or lower-casing the search or the name changes no answer. */
  lemma CaseIgnored(username: string, search: string)
    ensures UsernameMatch(Plain, username, ToLower(search)) == UsernameMatch(Plain, username, search)
    ensures UsernameMatch(Plain, username, ToUpper(search)) == UsernameMatch(Plain, username, search)
    ensures UsernameMatch(Plain, ToLower(username), search) == UsernameMatch(Plain, username, search)
    ensures UsernameMatch(Plain, ToUpper(username), search) == UsernameMatch(Plain, username, search)
  {
    UpperOfLower(search);
    UpperOfLower(username);
  }

  /** Diacritics do not matter: two names (or two searches) with the same normal form get
      the same answers. */
  lemma SameNormalFormSameAnswer(normalize: string -> Result<string>, u1: string, u2: string, s1: string, s2: string)
    requires normalize(u1) == normalize(u2) && normalize(s1) == normalize(s2)
    ensures UsernameMatch(normalize, u1, s1) == UsernameMatch(normalize, u2, s2)
  {
  }

  /** The words of two space-separated words are those two words. */
  lemma FieldsOfTwoWords(a: string, b: string, t: string)
    requires a != [] && b != [] && t == a + (" " + b)
    requires forall i :: 0 <= i < |a| ==> !IsSpace(a[i])
    requires forall i :: 0 <= i < |b| ==> !IsSpace(b[i])
    ensures Fields(t) == [a, b]
  {
    WordRun(a, " " + b, "");
    assert "" + a == a;
    assert (" " + b)[1..] == b;
    assert FieldsFrom(" " + b, a) == [a] + FieldsFrom(b, "");
    WordRun(b, "", "");
    assert b + "" == b && "" + b == b;
  }

  /** Reading a run of non-space characters extends the current word by it. */
  lemma {:induction false} WordRun(a: string, rest: string, word: string)
    requires forall i :: 0 <= i < |a| ==> !IsSpace(a[i])
    ensures FieldsFrom(a + rest, word) == FieldsFrom(rest, word + a)
    decreases |a|
  {
    if a == [] {
      assert a + rest == rest && word + a == word;
    } else {
      assert (a + rest)[1..] == a[1..] + rest;
      assert (a + rest)[0] == a[0];
      WordRun(a[1..], rest, word + [a[0]]);
      assert word + [a[0]] + a[1..] == word + a;
    }
  }

  /** compareUsername on plain ASCII text is NameMatches on the upper-cased strings. */
  lemma PlainMatch(name: string, search: string, u: string, s: string)
    requires ToUpper(name) == u && ToUpper(search) == s
    ensures UsernameMatch(Plain, name, search) == Ok(NameMatches(u, s))
  {
  }

  /** The words of "MICKEY MOUSE". */
  lemma MickeyMouseWords(u: string)
    requires u == "MICKEY MOUSE"
    ensures Fields(u) == ["MICKEY", "MOUSE"]
  {
    assert u == "MICKEY" + (" " + "MOUSE");
    FieldsOfTwoWords("MICKEY", "MOUSE", u);
  }

  /** From the tests of compareUsername (after upper-casing, see PlainMatch and
      CaseIgnored): the whole name and the start of the first name match "Mickey Mouse". */
  lemma MickeyMatches(u: string)
    requires u == "MICKEY MOUSE"
    ensures NameMatches(u, u) && NameMatches(u, "MICK")
  {
    assert HasPrefix(u, u);
    assert u[..4] == "MICK";
  }

  /** From the tests of compareUsername: the surname matches "Mickey Mouse". */
  lemma MouseMatches(u: string)
    requires u == "MICKEY MOUSE"
    ensures NameMatches(u, "MOUSE")
  {
    MickeyMouseWords(u);
    assert "MOUSE" in Fields(u) && HasPrefix("MOUSE", "MOUSE");
  }

  /** From the tests of compareUsername: a word that only ends like the surname does not
      match "Mickey Mouse". */
  lemma HouseNoMatch(u: string, s: string)
    requires u == "MICKEY MOUSE" && s == "HOUSE"
    ensures !NameMatches(u, s)
  {
    MickeyMouseWords(u);
    assert u[0] != s[0];
    assert !HasPrefix("MICKEY", s) && !HasPrefix("MOUSE", s) by {
      assert "MICKEY"[0] != s[0] && "MOUSE"[0] != s[0];
    }
  }

  /** From the tests of compareUsername: a misspelt name ("Myckey Mouse" upper-cased) does
      not match "Mickey Mouse"; nor does any other search of the same length. */
  lemma MisspeltNoMatch(u: string, s: string)
    requires u == "MICKEY MOUSE" && |s| == |u| && s != u
    ensures !NameMatches(u, s)
  {
    SameLengthNotPrefix(u, s);
    MickeyMouseShortWords(u, s);
  }

  lemma SameLengthNotPrefix(u: string, s: string)
    requires |s| == |u| && s != u
    ensures !HasPrefix(u, s)
  {
    assert u[..|s|] == u;
  }

  lemma MickeyMouseShortWords(u: string, s: string)
    requires u == "MICKEY MOUSE" && |s| == |u|
    ensures !SomeWordStarts(Fields(u), s)
  {
    LongSearch(s);
    MickeyMouseWords(u);
  }

  lemma LongSearch(s: string)
    requires |s| == 12
    ensures !SomeWordStarts(["MICKEY", "MOUSE"], s)
  {
    var words := ["MICKEY", "MOUSE"];
    assert |words[0]| == 6 && |words[1]| == 5;
    ShortWordsNoMatch(words, s);
  }

  /** A search longer than every word starts none of them. */
  lemma ShortWordsNoMatch(words: seq<string>, s: string)
    requires forall i :: 0 <= i < |words| ==> |words[i]| < |s|
    ensures !SomeWordStarts(words, s)
  {
  }

  // -------------------------------------------------------------------- ResolveUser

  /** The user resolved and the arguments left over. */
  datatype Resolved = Resolved(user: Identity, rest: seq<string>)

  /** Whether an identity excerpt is picked by the argument: its id starts with it, or its
      name matches it (or the error comparing them). */
  function Picks(normalize: string -> Result<string>, e: IdentityExcerpt, arg: string): Result<bool> {
    match UsernameMatch(normalize, e.name, arg)
    case Err(m) => Err(m)
    case Ok(b) => Ok(HasPrefix(e.id, arg) || b)
  }

  function MultipleMessage(arg: string, first: Identity, second: IdentityExcerpt): string {
    "multiple users matching " + arg + ":\n" + first.name + "\n" + second.name
  }

  /** The scan over the identities, from the identity found so far: the first error met,
      else the one identity picked (none if none is). `excerpt` and `resolve` stand for the
      cache's ResolveIdentityExcerpt and ResolveIdentity. */
  function Scan(ids: seq<Id>, found: Option<Identity>, arg: string, normalize: string -> Result<string>,
                excerpt: Id -> Result<IdentityExcerpt>, resolve: Id -> Result<Identity>): Result<Option<Identity>>
  {
    if ids == [] then Ok(found)
    else
      match excerpt(ids[0])
      case Err(m) => Err(m)
      case Ok(e) =>
        match Picks(normalize, e, arg)
        case Err(m) => Err(m)
        case Ok(false) => Scan(ids[1..], found, arg, normalize, excerpt, resolve)
        case Ok(true) =>
          if found.Some? then Err(MultipleMessage(arg, found.value, e))
          else
            match resolve(e.id)
            case Err(m) => Err(m)
            case Ok(i) => Scan(ids[1..], Some(i), arg, normalize, excerpt, resolve)
  }

  /** What ResolveUser returns: with arguments, the one identity the first picks (an error
      for none or several) and the other arguments; without, the configured user. */
  function Resolution(ids: seq<Id>, args: seq<string>, normalize: string -> Result<string>,
                      excerpt: Id -> Result<IdentityExcerpt>, resolve: Id -> Result<Identity>,
                      configured: Result<Identity>): Result<Resolved>
  {
    if |args| > 0 then
      match Scan(ids, None, args[0], normalize, excerpt, resolve)
      case Err(m) => Err(m)
      case Ok(None) => Err("no users matching " + args[0])
      case Ok(Some(i)) => Ok(Resolved(i, args[1..]))
    else
      match configured
      case Err(m) => Err(m)
      case Ok(i) => Ok(Resolved(i, args))
  }

  /** ResolveUser. `ids` is what AllIdentityIds lists, in the order it lists them, and
      `configured` is what GetUserIdentity returns. */
  method ResolveUser(ids: seq<Id>, args: seq<string>, normalize: string -> Result<string>,
                     excerpt: Id -> Result<IdentityExcerpt>, resolve: Id -> Result<Identity>,
                     configured: Result<Identity>)
    returns (r: Result<Resolved>)
    ensures r == Resolution(ids, args, normalize, excerpt, resolve, configured)
  {
    if |args| == 0 {
      if configured.Err? {
        return Err(configured.msg);
      }
      return Ok(Resolved(configured.value, args));
    }
    var id: Option<Identity> := None;
    for k := 0 to |ids|
      invariant Scan(ids, None, args[0], normalize, excerpt, resolve) == Scan(ids[k..], id, args[0], normalize, excerpt, resolve)
    {
      assert ids[k..][1..] == ids[k + 1..];
      var i := excerpt(ids[k]);
      if i.Err? {
        return Err(i.msg);
      }
      var userMatch := CompareUsername(normalize, i.value.name, args[0]);
      if userMatch.Err? {
        return Err(userMatch.msg);
      }
      if HasPrefix(i.value.id, args[0]) || userMatch.value {
        if id.Some? {
          return Err(MultipleMessage(args[0], id.value, i.value));
        }
        var resolved := resolve(i.value.id);
        if resolved.Err? {
          return Err(resolved.msg);
        }
        id := Some(resolved.value);
      }
    }
    if id.None? {
      return Err("no users matching " + args[0]);
    }
    return Ok(Resolved(id.value, args[1..]));
  }

  // ------------------------------------------------- what the resolution amounts to

  /** Nothing goes wrong on the way: every id has an excerpt, every name compares, and every
      picked identity resolves. */
  predicate Smooth(ids: seq<Id>, arg: string, normalize: string -> Result<string>,
                   excerpt: Id -> Result<IdentityExcerpt>, resolve: Id -> Result<Identity>)
  {
    forall k :: 0 <= k < |ids| ==>
      && excerpt(ids[k]).Ok?
      && Picks(normalize, excerpt(ids[k]).value, arg).Ok?
      && (Picks(normalize, excerpt(ids[k]).value, arg).value ==> resolve(excerpt(ids[k]).value.id).Ok?)
  }

  /** How many of the identities the argument picks. */
  function PickCount(ids: seq<Id>, arg: string, normalize: string -> Result<string>,
                     excerpt: Id -> Result<IdentityExcerpt>): nat
  {
    if ids == [] then 0
    else
      var picked := excerpt(ids[0]).Ok? && Picks(normalize, excerpt(ids[0]).value, arg) == Ok(true);
      (if picked then 1 else 0) + PickCount(ids[1..], arg, normalize, excerpt)
  }

  /** The resolved identity of the first id the argument picks. */
  function FirstPicked(ids: seq<Id>, arg: string, normalize: string -> Result<string>,
                       excerpt: Id -> Result<IdentityExcerpt>, resolve: Id -> Result<Identity>): Option<Identity>
  {
    if ids == [] then None
    else if excerpt(ids[0]).Ok? && Picks(normalize, excerpt(ids[0]).value, arg) == Ok(true) then
      match resolve(excerpt(ids[0]).value.id)
      case Ok(i) => Some(i)
      case Err(_) => None
    else FirstPicked(ids[1..], arg, normalize, excerpt, resolve)
  }

  /** When nothing goes wrong, the scan succeeds exactly when at most one identity is picked
      in all (counting one already found), finds nothing new when none is, and finds the
      picked one when exactly one is. */
  lemma {:induction false} ScanCounts(ids: seq<Id>, found: Option<Identity>, arg: string, normalize: string -> Result<string>,
                                      excerpt: Id -> Result<IdentityExcerpt>, resolve: Id -> Result<Identity>)
    requires Smooth(ids, arg, normalize, excerpt, resolve)
    ensures Scan(ids, found, arg, normalize, excerpt, resolve).Ok? <==>
      PickCount(ids, arg, normalize, excerpt) + (if found.Some? then 1 else 0) <= 1
    ensures PickCount(ids, arg, normalize, excerpt) == 0 ==> Scan(ids, found, arg, normalize, excerpt, resolve) == Ok(found)
    ensures found.None? && PickCount(ids, arg, normalize, excerpt) == 1 ==>
      Scan(ids, found, arg, normalize, excerpt, resolve) == Ok(FirstPicked(ids, arg, normalize, excerpt, resolve))
    ensures PickCount(ids, arg, normalize, excerpt) >= 1 ==> FirstPicked(ids, arg, normalize, excerpt, resolve).Some?
  {
    if ids != [] {
      assert Smooth(ids[1..], arg, normalize, excerpt, resolve) by {
        forall k | 0 <= k < |ids[1..]|
          ensures ids[1..][k] == ids[k + 1]
        {
        }
      }
      assert excerpt(ids[0]).Ok?;
      var e := excerpt(ids[0]).value;
      assert Picks(normalize, e, arg).Ok?;
      if Picks(normalize, e, arg).value {
        assert resolve(e.id).Ok?;
        ScanCounts(ids[1..], Some(resolve(e.id).value), arg, normalize, excerpt, resolve);
      } else {
        ScanCounts(ids[1..], found, arg, normalize, excerpt, resolve);
      }
    }
  }

  /** ResolveUser with an argument that picks exactly one identity returns that identity and
      consumes the argument. */
  lemma ResolveOne(ids: seq<Id>, args: seq<string>, normalize: string -> Result<string>,
                   excerpt: Id -> Result<IdentityExcerpt>, resolve: Id -> Result<Identity>, configured: Result<Identity>)
    requires |args| > 0 && Smooth(ids, args[0], normalize, excerpt, resolve)
    requires PickCount(ids, args[0], normalize, excerpt) == 1
    ensures FirstPicked(ids, args[0], normalize, excerpt, resolve).Some?
    ensures Resolution(ids, args, normalize, excerpt, resolve, configured)
      == Ok(Resolved(FirstPicked(ids, args[0], normalize, excerpt, resolve).value, args[1..]))
  {
    ScanCounts(ids, None, args[0], normalize, excerpt, resolve);
  }

  /** ResolveUser with an argument that picks no identity fails with "no users matching". */
  lemma ResolveNone(ids: seq<Id>, args: seq<string>, normalize: string -> Result<string>,
                    excerpt: Id -> Result<IdentityExcerpt>, resolve: Id -> Result<Identity>, configured: Result<Identity>)
    requires |args| > 0 && Smooth(ids, args[0], normalize, excerpt, resolve)
    requires PickCount(ids, args[0], normalize, excerpt) == 0
    ensures Resolution(ids, args, normalize, excerpt, resolve, configured) == Err("no users matching " + args[0])
  {
    ScanCounts(ids, None, args[0], normalize, excerpt, resolve);
  }

  /** ResolveUser with an argument that picks several identities fails. */
  lemma ResolveSeveral(ids: seq<Id>, args: seq<string>, normalize: string -> Result<string>,
                       excerpt: Id -> Result<IdentityExcerpt>, resolve: Id -> Result<Identity>, configured: Result<Identity>)
    requires |args| > 0 && Smooth(ids, args[0], normalize, excerpt, resolve)
    requires PickCount(ids, args[0], normalize, excerpt) >= 2
    ensures Resolution(ids, args, normalize, excerpt, resolve, configured).Err?
  {
    ScanCounts(ids, None, args[0], normalize, excerpt, resolve);
  }

  /** Without arguments ResolveUser returns the configured user and no arguments are consumed. */
  lemma ResolveDefault(ids: seq<Id>, normalize: string -> Result<string>,
                       excerpt: Id -> Result<IdentityExcerpt>, resolve: Id -> Result<Identity>, configured: Result<Identity>)
    ensures configured.Ok? ==> Resolution(ids, [], normalize, excerpt, resolve, configured) == Ok(Resolved(configured.value, []))
    ensures configured.Err? ==> Resolution(ids, [], normalize, excerpt, resolve, configured) == Err(configured.msg)
  {
  }
}
