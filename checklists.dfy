/** Checklist templates and answers (config/checklists.go): a checklist has sections of
    questions, each answered TBD, Passed, Failed or NotApplicable. */
module Checklists {
  import opened Wrappers
  import opened StrUtil
  import opened ConfigStore
  import opened MockRepo

  /** config.ChecklistState is a Go `int`; only 0..3 are valid. */
  type ChecklistState = int

  const TBD: ChecklistState := 0
  const Passed: ChecklistState := 1
  const Failed: ChecklistState := 2
  const NotApplicable: ChecklistState := 3

  predicate IsValid(s: ChecklistState) {
    TBD <= s <= NotApplicable
  }

  datatype Question = Question(question: string, comment: string, state: ChecklistState)

  datatype Section = Section(title: string, questions: seq<Question>)

  /** A checklist template; `name` is its label. */
  datatype Checklist = Checklist(name: string, title: string, deprecated: string, sections: seq<Section>)

  type ChecklistConfig = map<string, Checklist>

  /** ChecklistState.String. */
  function StateString(s: ChecklistState): (r: string)
    ensures r == "UNKNOWN" <==> !IsValid(s)
  {
    match s
    case 0 => "TBD"
    case 1 => "PASSED"
    case 2 => "FAILED"
    case 3 => "NA"
    case _ => "UNKNOWN"
  }

  /** ChecklistState.ShortString. */
  function ShortString(s: ChecklistState): (r: string)
    ensures r == "UNKNOWN" <==> !IsValid(s)
    ensures IsValid(s) ==> |r| <= |StateString(s)| && HasPrefix(StateString(s), r)
  {
    match s
    case 0 => "TBD"
    case 1 => "P"
    case 2 => "F"
    case 3 => "NA"
    case _ => "UNKNOWN"
  }

  /** Both names tell the valid states apart. */
  lemma StateNamesInjective(a: ChecklistState, b: ChecklistState)
    requires IsValid(a) && IsValid(b) && a != b
    ensures StateString(a) != StateString(b) && ShortString(a) != ShortString(b)
  {
  }

  /** ChecklistState.Validate. */
  function Validate(s: ChecklistState): (r: Outcome)
    ensures r.Pass? <==> IsValid(s)
    ensures r.Fail? ==> r.msg == "invalid"
  {
    if s < TBD || s > NotApplicable then Fail("invalid") else Pass
  }

  /** Some question of the checklist is answered `st`. */
  predicate HasState(c: Checklist, st: ChecklistState) {
    exists i, j :: 0 <= i < |c.sections| && 0 <= j < |c.sections[i].questions| && c.sections[i].questions[j].state == st
  }

  /** The documented compound state: Failed if any question failed, else TBD if any is TBD,
      else Passed. */
  function CompoundOf(c: Checklist): ChecklistState {
    if HasState(c, Failed) then Failed else if HasState(c, TBD) then TBD else Passed
  }

  /** Number of questions answered `st`. */
  function CountQuestions(qs: seq<Question>, st: ChecklistState): nat {
    if qs == [] then 0 else CountQuestions(qs[..|qs| - 1], st) + (if qs[|qs| - 1].state == st then 1 else 0)
  }

  function CountSections(ss: seq<Section>, st: ChecklistState): nat {
    if ss == [] then 0 else CountSections(ss[..|ss| - 1], st) + CountQuestions(ss[|ss| - 1].questions, st)
  }

  lemma {:induction false} CountQuestionsPositive(qs: seq<Question>, st: ChecklistState)
    ensures CountQuestions(qs, st) > 0 <==> exists j :: 0 <= j < |qs| && qs[j].state == st
  {
    if qs != [] {
      var init := qs[..|qs| - 1];
      CountQuestionsPositive(init, st);
      if exists j :: 0 <= j < |init| && init[j].state == st {
        var j :| 0 <= j < |init| && init[j].state == st;
        assert qs[j] == init[j];
      }
      if exists j :: 0 <= j < |qs| && qs[j].state == st {
        var j :| 0 <= j < |qs| && qs[j].state == st;
        if j < |init| {
          assert init[j] == qs[j];
        }
      }
    }
  }

  lemma {:induction false} CountSectionsPositive(ss: seq<Section>, st: ChecklistState)
    ensures CountSections(ss, st) > 0 <==>
      exists i, j :: 0 <= i < |ss| && 0 <= j < |ss[i].questions| && ss[i].questions[j].state == st
  {
    if ss != [] {
      var init := ss[..|ss| - 1];
      var last := ss[|ss| - 1];
      CountSectionsPositive(init, st);
      CountQuestionsPositive(last.questions, st);
      if exists i, j :: 0 <= i < |init| && 0 <= j < |init[i].questions| && init[i].questions[j].state == st {
        var i, j :| 0 <= i < |init| && 0 <= j < |init[i].questions| && init[i].questions[j].state == st;
        assert ss[i] == init[i];
      }
      if exists j :: 0 <= j < |last.questions| && last.questions[j].state == st {
        var j :| 0 <= j < |last.questions| && last.questions[j].state == st;
        assert ss[|ss| - 1].questions[j].state == st;
      }
      if exists i, j :: 0 <= i < |ss| && 0 <= j < |ss[i].questions| && ss[i].questions[j].state == st {
        var i, j :| 0 <= i < |ss| && 0 <= j < |ss[i].questions| && ss[i].questions[j].state == st;
        if i < |init| {
          assert init[i] == ss[i];
        }
      }
    }
  }

  /** Checklist.CompoundState: counts the TBD and Failed answers over all sections. */
  method CompoundState(c: Checklist) returns (r: ChecklistState)
    ensures r == CompoundOf(c)
  {
    var tbdCount, failedCount := 0, 0;
    var i := 0;
    while i < |c.sections|
      invariant 0 <= i <= |c.sections|
      invariant tbdCount == CountSections(c.sections[..i], TBD)
      invariant failedCount == CountSections(c.sections[..i], Failed)
    {
      var qs := c.sections[i].questions;
      var j := 0;
      while j < |qs|
        invariant 0 <= j <= |qs|
        invariant tbdCount == CountSections(c.sections[..i], TBD) + CountQuestions(qs[..j], TBD)
        invariant failedCount == CountSections(c.sections[..i], Failed) + CountQuestions(qs[..j], Failed)
      {
        assert qs[..j + 1][..j] == qs[..j];
        if qs[j].state == TBD {
          tbdCount := tbdCount + 1;
        } else if qs[j].state == Failed {
          failedCount := failedCount + 1;
        }
        j := j + 1;
      }
      assert qs[..j] == qs;
      assert c.sections[..i + 1][..i] == c.sections[..i];
      i := i + 1;
    }
    assert c.sections[..i] == c.sections;
    CountSectionsPositive(c.sections, TBD);
    CountSectionsPositive(c.sections, Failed);
    if failedCount > 0 {
      return Failed;
    }
    if tbdCount > 0 {
      return TBD;
    }
    return Passed;
  }

  /** A checklist without questions, or answered only Passed and NotApplicable, is Passed. */
  lemma AllAnsweredIsPassed(c: Checklist)
    requires forall i, j :: 0 <= i < |c.sections| && 0 <= j < |c.sections[i].questions| ==>
      c.sections[i].questions[j].state in {Passed, NotApplicable}
    ensures CompoundOf(c) == Passed
  {
  }

  /** GetChecklist: the template for a label, or an error for an unknown label. */
  function GetChecklist(config: ChecklistConfig, name: string): (r: Result<Checklist>)
    ensures r.Ok? <==> name in config
    ensures r.Ok? ==> r.value == config[name]
    ensures r.Err? ==> r.msg == "invalid checklist " + name
  {
    if name !in config then Err("invalid checklist " + name) else Ok(config[name])
  }

  /** GetChecklistLabels: the label of every checklist that is not deprecated, one per
      configured entry, in map order. */
  method GetChecklistLabels(config: ChecklistConfig) returns (labels: seq<string>)
    ensures forall l :: l in labels <==> exists k :: k in config && config[k].deprecated == "" && config[k].name == l
    ensures |labels| == |set k | k in config && config[k].deprecated == ""|
  {
    labels := [];
    var rest := config.Keys;
    ghost var seen: set<string> := {};
    while rest != {}
      invariant rest <= config.Keys
      invariant seen == set k | k in config && k !in rest && config[k].deprecated == ""
      invariant |labels| == |seen|
      invariant forall l :: l in labels <==> exists k :: k in seen && config[k].name == l
      decreases rest
    {
      var k :| k in rest;
      if config[k].deprecated == "" {
        labels := labels + [config[k].name];
        seen := seen + {k};
      }
      rest := rest - {k};
    }
    assert seen == set k | k in config && config[k].deprecated == "";
  }

  /** LoadChecklistConfig: reads the "checklists" configuration; a missing configuration is
      an empty store. `decode` stands for the JSON decoder. */
  method LoadChecklistConfig(repo: Repo, decode: string -> Result<ChecklistConfig>) returns (r: Result<ChecklistConfig>)
    ensures var stored := StoredConfig(repo.refs, repo.commits, repo.trees, repo.blobs, "checklists");
      && (stored.NotFound? ==> r == Ok(map[]))
      && (stored.Failed? ==> r == Err("unable to read checklists config: " + Quote(stored.msg)))
      && (stored.Data? ==> r == match decode(stored.data)
            case Err(m) => Err("unable to load checklists: " + Quote(m))
            case Ok(c) => Ok(c))
  {
    var data := GetConfig(repo, "checklists");
    if data.NotFound? {
      return Ok(map[]);
    }
    if data.Failed? {
      return Err("unable to read checklists config: " + Quote(data.msg));
    }
    var decoded := decode(data.data);
    if decoded.Err? {
      return Err("unable to load checklists: " + Quote(decoded.msg));
    }
    return Ok(decoded.value);
  }
}
