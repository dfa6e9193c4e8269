/** The operation that adds and removes ticket labels (bug/op_label_change.go), and the
    command that checks a requested change against the ticket and the configuration before
    appending it. */
module OpLabelChange {
  import opened Wrappers
  import opened StrUtil
  import opened Entity
  import opened Identities
  import opened Status
  import opened Sorting
  import opened Snapshots
  import Workflows
  import BugLabel
  import Checklists
  import ConfigLabel
  import Ccb
  import OpSetStatus

  /** The labels of a list, as a set. */
  function Elems(s: seq<string>): set<string> {
    set x | x in s
  }

  /** labelExist: a linear scan for the label. */
  method LabelExist(labels: seq<Label>, name: Label) returns (b: bool)
    ensures b <==> name in labels
  {
    var i := 0;
    while i < |labels|
      invariant 0 <= i <= |labels|
      invariant name !in labels[..i]
    {
      if labels[i] == name {
        return true;
      }
      assert labels[..i + 1] == labels[..i] + [labels[i]];
      i := i + 1;
    }
    assert labels[..i] == labels;
    return false;
  }

  /** The list after the element at `i` is overwritten by the last one and the last slot is
      dropped. */
  function SwapRemoved(xs: seq<string>, i: nat): seq<string>
    requires i < |xs|
  {
    xs[i := xs[|xs| - 1]][..|xs| - 1]
  }

  /** On a list without repetitions, the swap-removal drops exactly the element at `i` and
      leaves the elements before it in place. */
  lemma SwapRemove(xs: seq<string>, i: nat)
    requires Distinct(xs) && i < |xs|
    ensures |SwapRemoved(xs, i)| == |xs| - 1
    ensures Distinct(SwapRemoved(xs, i))
    ensures Elems(SwapRemoved(xs, i)) == Elems(xs) - {xs[i]}
    ensures forall j :: 0 <= j < i ==> SwapRemoved(xs, i)[j] == xs[j]
  {
    var r := SwapRemoved(xs, i);
    var n := |xs| - 1;
    forall a, b | 0 <= a < b < |r|
      ensures r[a] != r[b]
    {
      var a' := if a == i then n else a;
      var b' := if b == i then n else b;
      assert r[a] == xs[a'] && r[b] == xs[b'];
    }
    forall x
      ensures x in Elems(r) <==> x in Elems(xs) && x != xs[i]
    {
      if x in Elems(r) {
        var j :| 0 <= j < |r| && r[j] == x;
        var j' := if j == i then n else j;
        assert xs[j'] == x;
      }
      if x in Elems(xs) && x != xs[i] {
        var j :| 0 <= j < |xs| && xs[j] == x;
        if j == n {
          assert r[i] == x;
        } else {
          assert r[j] == x;
        }
      }
    }
  }

  lemma HeadInElems(s: seq<string>)
    ensures s != [] ==> s[0] in Elems(s)
  {
  }

  lemma ElemsAppend(s: seq<string>, x: string)
    ensures Elems(s + [x]) == Elems(s) + {x}
  {
    assert forall y :: y in s + [x] <==> y in s || y == x;
  }

  /** A permutation has the same elements. */
  lemma PermutationElems(a: seq<string>, b: seq<string>)
    requires multiset(a) == multiset(b)
    ensures Elems(a) == Elems(b)
  {
    forall x
      ensures x in Elems(a) <==> x in Elems(b)
    {
      assert x in a <==> x in multiset(a);
      assert x in b <==> x in multiset(b);
    }
  }

  /** A sorted list without repetitions is determined by its set of elements: the labels
      after a change are fixed by which labels they hold. */
  lemma {:induction false} SortedSetUnique(a: seq<string>, b: seq<string>)
    requires SortedStrings(a) && Distinct(a) && SortedStrings(b) && Distinct(b)
    requires Elems(a) == Elems(b)
    ensures a == b
  {
    HeadInElems(a);
    HeadInElems(b);
    if a != [] {
      assert a[0] in Elems(b);
      assert b != [];
      assert b[0] in Elems(a);
      var i :| 0 <= i < |b| && b[i] == a[0];
      var j :| 0 <= j < |a| && a[j] == b[0];
      assert LexLessEq(b[0], a[0]);
      assert LexLessEq(a[0], b[0]);
      if a[0] != b[0] {
        LexLessAsym(a[0], b[0]);
      }
      var a', b' := a[1..], b[1..];
      forall x
        ensures x in Elems(a') <==> x in Elems(b')
      {
        if x in Elems(a') {
          var k :| 0 <= k < |a'| && a'[k] == x;
          assert a[k + 1] == x && x != a[0];
          assert x in Elems(b);
          var m :| 0 <= m < |b| && b[m] == x;
          assert m != 0 && b'[m - 1] == x;
        }
        if x in Elems(b') {
          var k :| 0 <= k < |b'| && b'[k] == x;
          assert b[k + 1] == x && x != b[0];
          assert x in Elems(a);
          var m :| 0 <= m < |a| && a[m] == x;
          assert m != 0 && a'[m - 1] == x;
        }
      }
      SortedSetUnique(a', b');
      assert a == [a[0]] + a' && b == [b[0]] + b';
    }
  }

  /** LabelChangeOperation.Apply on a ticket whose labels hold no repetition (which the
      operations keep so): afterwards the labels are the old ones plus the added minus the
      removed, each once, in ascending order; one timeline item lists the change. */
  method Apply(op: Operation, snap: Snapshot)
    requires op.LabelChangeOp? && Distinct(snap.labels)
    modifies snap`actors, snap`labels, snap`timeline
    ensures Distinct(snap.labels) && SortedStrings(snap.labels)
    ensures Elems(snap.labels) == (Elems(old(snap.labels)) + Elems(op.added)) - Elems(op.removed)
    ensures snap.actors == WithIdentity(old(snap.actors), op.base.author)
    ensures snap.timeline == old(snap.timeline)
      + [LabelChangeItem(op.base.id, op.base.author, op.base.unixTime, op.added, op.removed)]
  {
    snap.AddActor(op.base.author);
    ghost var start := snap.labels;
    var k := 0;
    while k < |op.added|
      invariant 0 <= k <= |op.added|
      invariant Distinct(snap.labels)
      invariant Elems(snap.labels) == Elems(start) + Elems(op.added[..k])
      modifies snap`labels
    {
      assert op.added[..k + 1] == op.added[..k] + [op.added[k]];
      ElemsAppend(op.added[..k], op.added[k]);
      var present := LabelExist(snap.labels, op.added[k]);
      if !present {
        ElemsAppend(snap.labels, op.added[k]);
        snap.labels := snap.labels + [op.added[k]];
      } else {
        assert op.added[k] in Elems(snap.labels);
      }
      k := k + 1;
    }
    assert op.added[..k] == op.added;
    ghost var grown := snap.labels;
    k := 0;
    while k < |op.removed|
      invariant 0 <= k <= |op.removed|
      invariant Distinct(snap.labels)
      invariant Elems(snap.labels) == Elems(grown) - Elems(op.removed[..k])
      modifies snap`labels
    {
      assert op.removed[..k + 1] == op.removed[..k] + [op.removed[k]];
      ElemsAppend(op.removed[..k], op.removed[k]);
      var removed := op.removed[k];
      ghost var before := snap.labels;
      var n := |snap.labels|;
      var i := 0;
      while i < n
        invariant 0 <= i <= n && |snap.labels| <= n
        invariant Distinct(snap.labels)
        invariant Elems(snap.labels) - {removed} == Elems(before) - {removed}
        invariant forall j :: 0 <= j < i && j < |snap.labels| ==> snap.labels[j] != removed
        invariant removed in snap.labels ==> |snap.labels| == n
        modifies snap`labels
      {
        if i < |snap.labels| && snap.labels[i] == removed {
          SwapRemove(snap.labels, i);
          snap.labels := SwapRemoved(snap.labels, i);
        }
        i := i + 1;
      }
      assert removed !in Elems(snap.labels);
      assert Elems(snap.labels) == Elems(before) - {removed};
      assert Elems(op.removed[..k + 1]) == Elems(op.removed[..k]) + {removed};
      k := k + 1;
    }
    assert op.removed[..k] == op.removed;
    ghost var shrunk := snap.labels;
    snap.labels := SortStrings(snap.labels);
    SortStringsSorted(shrunk);
    DistinctPermutation(shrunk, snap.labels);
    PermutationElems(shrunk, snap.labels);
    snap.timeline := snap.timeline + [LabelChangeItem(op.base.id, op.base.author, op.base.unixTime, op.added, op.removed)];
  }

  /** The outcome of validating a list of labels: the first invalid one, its error prefixed
      with `what`. */
  function LabelsOutcome(ls: seq<Label>, what: string, empty: string -> bool, safe: string -> bool): (r: Outcome)
    ensures r.Pass? <==> forall i :: 0 <= i < |ls| ==> BugLabel.Validate(ls[i], empty, safe).Pass?
  {
    if ls == [] then Pass
    else match BugLabel.Validate(ls[0], empty, safe)
      case Fail(m) => Fail(what + ": " + m)
      case Pass =>
        assert forall i :: 1 <= i < |ls| ==> ls[i] == ls[1..][i - 1];
        LabelsOutcome(ls[1..], what, empty, safe)
  }

  /** The outcome of LabelChangeOperation.Validate. */
  function ValidOutcome(op: Operation, baseValidate: Operation -> Outcome, empty: string -> bool, safe: string -> bool): (r: Outcome)
    requires op.LabelChangeOp?
    ensures r.Pass? <==> (baseValidate(op).Pass?
      && (forall i :: 0 <= i < |op.added| ==> BugLabel.Validate(op.added[i], empty, safe).Pass?)
      && (forall i :: 0 <= i < |op.removed| ==> BugLabel.Validate(op.removed[i], empty, safe).Pass?)
      && |op.added| + |op.removed| > 0)
    ensures baseValidate(op).Fail? ==> r == baseValidate(op)
  {
    if baseValidate(op).Fail? then baseValidate(op)
    else if LabelsOutcome(op.added, "added label", empty, safe).Fail? then LabelsOutcome(op.added, "added label", empty, safe)
    else if LabelsOutcome(op.removed, "removed label", empty, safe).Fail? then LabelsOutcome(op.removed, "removed label", empty, safe)
    else if |op.added| + |op.removed| <= 0 then Fail("no label change")
    else Pass
  }

  /** LabelChangeOperation.Validate: the common checks, every added then every removed
      label, and a change that is not empty. */
  method Validate(op: Operation, baseValidate: Operation -> Outcome, empty: string -> bool, safe: string -> bool)
    returns (r: Outcome)
    requires op.LabelChangeOp?
    ensures r == ValidOutcome(op, baseValidate, empty, safe)
  {
    r := baseValidate(op);
    if r.Fail? {
      return;
    }
    r := ValidateLabels(op.added, "added label", empty, safe);
    if r.Fail? {
      return;
    }
    r := ValidateLabels(op.removed, "removed label", empty, safe);
    if r.Fail? {
      return;
    }
    if |op.added| + |op.removed| <= 0 {
      return Fail("no label change");
    }
    return Pass;
  }

  /** The label loops of LabelChangeOperation.Validate: stops at the first invalid label. */
  method ValidateLabels(ls: seq<Label>, what: string, empty: string -> bool, safe: string -> bool) returns (r: Outcome)
    ensures r == LabelsOutcome(ls, what, empty, safe)
  {
    var i := 0;
    while i < |ls|
      invariant 0 <= i <= |ls|
      invariant LabelsOutcome(ls, what, empty, safe) == LabelsOutcome(ls[i..], what, empty, safe)
    {
      assert ls[i..][1..] == ls[i + 1..];
      var v := BugLabel.Validate(ls[i], empty, safe);
      if v.Fail? {
        return Fail(what + ": " + v.msg);
      }
      i := i + 1;
    }
    assert ls[i..] == [];
    return Pass;
  }

  datatype LabelChangeStatus =
    | Added | Removed | DuplicateInOp | AlreadySet | DoesntExist | InvalidWorkflow
    | InvalidChecklist | UnauthorizedChecklistChange | UnknownLabel | DeprecatedLabel

  /** The verdict on one requested label; `info` carries a deprecation message. */
  datatype LabelChangeResult = LabelChangeResult(name: Label, status: LabelChangeStatus, info: string)

  /** What ChangeLabels consults in the configuration cache: the checklist templates, the
      configured labels (the flattened map that LabelConfig.GetLabelConfig looks up) and the
      CCB member list. */
  datatype Config = Config(checklists: Checklists.ChecklistConfig,
                           labels: map<Label, ConfigLabel.SingleLabelConfig>,
                           ccbMembers: Ccb.CcbConfig)

  /** The state of the pass over the labels to add: those accepted, the verdicts so far, the
      labels to remove (which grows when a workflow is replaced) and the new workflow. */
  datatype AddState = AddState(added: seq<Label>, results: seq<LabelChangeResult>, remove: seq<string>,
                               newWorkflow: Option<Workflows.Workflow>)

  /** The state of the pass over the labels to remove. */
  datatype RemoveState = RemoveState(removed: seq<Label>, results: seq<LabelChangeResult>)

  /** The workflow labels of a list, in order. */
  function WorkflowLabels(ls: seq<Label>): (r: seq<Label>)
    ensures forall l :: l in r <==> l in ls && BugLabel.IsWorkflow(l)
  {
    if ls == [] then []
    else (if BugLabel.IsWorkflow(ls[0]) then [ls[0]] else []) + WorkflowLabels(ls[1..])
  }

  /** The loop that queues every current workflow label for removal. */
  method QueueWorkflowLabels(remove: seq<string>, labels: seq<Label>) returns (r: seq<string>)
    ensures r == remove + WorkflowLabels(labels)
  {
    r := remove;
    var i := 0;
    while i < |labels|
      invariant 0 <= i <= |labels|
      invariant r + WorkflowLabels(labels[i..]) == remove + WorkflowLabels(labels)
    {
      assert labels[i..][1..] == labels[i + 1..];
      if BugLabel.IsWorkflow(labels[i]) {
        r := r + [labels[i]];
      }
      i := i + 1;
    }
  }

  function Verdict(st: AddState, l: Label, s: LabelChangeStatus, info: string): AddState {
    st.(results := st.results + [LabelChangeResult(l, s, info)])
  }

  /** One label to add, checked in the order ChangeLabels checks it: repeated in the
      request, already on the ticket, an unknown workflow, an unknown or deprecated
      checklist, an unconfigured or deprecated plain label; otherwise it is accepted. */
  function AddStep(st: AddState, str: string, snapLabels: seq<Label>, c: Config, allowDeprecated: bool): AddState
  {
    if str in st.added then Verdict(st, str, DuplicateInOp, "")
    else if str in snapLabels then Verdict(st, str, AlreadySet, "")
    else if BugLabel.IsWorkflow(str) && Workflows.WorkflowOfLabels([str]).None? then
      Verdict(st.(newWorkflow := None), str, InvalidWorkflow, "")
    else
      var st1 := if BugLabel.IsWorkflow(str) then
          st.(newWorkflow := Workflows.WorkflowOfLabels([str]), remove := st.remove + WorkflowLabels(snapLabels))
        else st;
      if BugLabel.IsChecklist(str) && str !in c.checklists then Verdict(st1, str, InvalidChecklist, "")
      else if BugLabel.IsChecklist(str) && c.checklists[str].deprecated != "" && !allowDeprecated then
        Verdict(st1, str, DeprecatedLabel, c.checklists[str].deprecated)
      else if !BugLabel.IsChecklist(str) && !BugLabel.IsWorkflow(str) && str !in c.labels then
        Verdict(st1, str, UnknownLabel, "")
      else if !BugLabel.IsChecklist(str) && !BugLabel.IsWorkflow(str) && c.labels[str].message != "" && !allowDeprecated then
        Verdict(st1, str, DeprecatedLabel, c.labels[str].message)
      else st1.(added := st1.added + [str], results := st1.results + [LabelChangeResult(str, Added, "")])
  }

  /** The decision table of one label to add: exactly one verdict, appended, naming the
      label; a repeat and a label already set are recognised as such; an accepted label is
      new, configured and not deprecated (unless that is allowed), and an accepted workflow
      label replaces the ticket's workflow. */
  lemma AddStepFacts(st: AddState, str: string, snapLabels: seq<Label>, c: Config, allowDeprecated: bool)
    ensures var r := AddStep(st, str, snapLabels, c, allowDeprecated);
      |r.results| == |st.results| + 1 && r.results[..|st.results|] == st.results
    ensures var r := AddStep(st, str, snapLabels, c, allowDeprecated);
      r.results[|st.results|].name == str
    ensures var r := AddStep(st, str, snapLabels, c, allowDeprecated);
      r.results[|st.results|].status == DuplicateInOp <==> str in st.added
    ensures var r := AddStep(st, str, snapLabels, c, allowDeprecated);
      r.results[|st.results|].status == AlreadySet <==> str !in st.added && str in snapLabels
    ensures var r := AddStep(st, str, snapLabels, c, allowDeprecated);
      r.results[|st.results|].status == Added ==> r.added == st.added + [str] && str !in st.added && str !in snapLabels
    ensures var r := AddStep(st, str, snapLabels, c, allowDeprecated);
      r.results[|st.results|].status != Added ==> r.added == st.added
    ensures var r := AddStep(st, str, snapLabels, c, allowDeprecated);
      r.results[|st.results|].status == Added && BugLabel.IsWorkflow(str) ==>
      r.newWorkflow == Workflows.WorkflowNamed(str) && r.newWorkflow.Some?
      && r.remove == st.remove + WorkflowLabels(snapLabels)
    ensures var r := AddStep(st, str, snapLabels, c, allowDeprecated);
      !BugLabel.IsWorkflow(str) ==> r.remove == st.remove && r.newWorkflow == st.newWorkflow
    ensures var r := AddStep(st, str, snapLabels, c, allowDeprecated);
      r.results[|st.results|].status == Added && BugLabel.IsChecklist(str) ==>
      str in c.checklists && (allowDeprecated || c.checklists[str].deprecated == "")
    ensures var r := AddStep(st, str, snapLabels, c, allowDeprecated);
      r.results[|st.results|].status == Added && !BugLabel.IsChecklist(str) && !BugLabel.IsWorkflow(str) ==>
      str in c.labels && (allowDeprecated || c.labels[str].message == "")
  {
  }

  /** The pass over the labels to add, label by label. */
  function AddAll(st: AddState, xs: seq<string>, snapLabels: seq<Label>, c: Config, allowDeprecated: bool): AddState {
    if xs == [] then st
    else AddStep(AddAll(st, xs[..|xs| - 1], snapLabels, c, allowDeprecated), xs[|xs| - 1], snapLabels, c, allowDeprecated)
  }

  /** One label to remove: repeated in the request, not on the ticket, a workflow label
      while no new workflow is added, or a checklist that only a CCB member may remove once
      the ticket has left Proposed; otherwise it is accepted. */
  function RemoveStep(st: RemoveState, str: string, snapLabels: seq<Label>, newWorkflow: bool, isCcbMember: bool, status: Status)
    : RemoveState
  {
    var verdict := (s: LabelChangeStatus) => st.(results := st.results + [LabelChangeResult(str, s, "")]);
    if str in st.removed then verdict(DuplicateInOp)
    else if str !in snapLabels then verdict(DoesntExist)
    else if !newWorkflow && BugLabel.IsWorkflow(str) then verdict(InvalidWorkflow)
    else if BugLabel.IsChecklist(str) && !isCcbMember && status != Proposed then verdict(UnauthorizedChecklistChange)
    else RemoveState(st.removed + [str], st.results + [LabelChangeResult(str, Removed, "")])
  }

  /** The decision table of one label to remove: exactly one verdict, appended, naming the
      label; an accepted label is on the ticket and not yet removed, a workflow label only
      goes with a new workflow, and a checklist only by a CCB member or while Proposed. */
  lemma RemoveStepFacts(st: RemoveState, str: string, snapLabels: seq<Label>, newWorkflow: bool, isCcbMember: bool, status: Status)
    ensures var r := RemoveStep(st, str, snapLabels, newWorkflow, isCcbMember, status);
      |r.results| == |st.results| + 1 && r.results[..|st.results|] == st.results
    ensures var r := RemoveStep(st, str, snapLabels, newWorkflow, isCcbMember, status);
      r.results[|st.results|].name == str
    ensures var r := RemoveStep(st, str, snapLabels, newWorkflow, isCcbMember, status);
      r.results[|st.results|].status == DuplicateInOp <==> str in st.removed
    ensures var r := RemoveStep(st, str, snapLabels, newWorkflow, isCcbMember, status);
      r.results[|st.results|].status == DoesntExist <==> str !in st.removed && str !in snapLabels
    ensures var r := RemoveStep(st, str, snapLabels, newWorkflow, isCcbMember, status);
      r.results[|st.results|].status == Removed ==> r.removed == st.removed + [str] && str !in st.removed && str in snapLabels
    ensures var r := RemoveStep(st, str, snapLabels, newWorkflow, isCcbMember, status);
      r.results[|st.results|].status != Removed ==> r.removed == st.removed
    ensures var r := RemoveStep(st, str, snapLabels, newWorkflow, isCcbMember, status);
      r.results[|st.results|].status == Removed && BugLabel.IsWorkflow(str) ==> newWorkflow
    ensures var r := RemoveStep(st, str, snapLabels, newWorkflow, isCcbMember, status);
      r.results[|st.results|].status == Removed && BugLabel.IsChecklist(str) ==> isCcbMember || status == Proposed
  {
  }

  function RemoveAll(st: RemoveState, xs: seq<string>, snapLabels: seq<Label>, newWorkflow: bool, isCcbMember: bool, status: Status)
    : RemoveState
  {
    if xs == [] then st
    else RemoveStep(RemoveAll(st, xs[..|xs| - 1], snapLabels, newWorkflow, isCcbMember, status), xs[|xs| - 1],
                    snapLabels, newWorkflow, isCcbMember, status)
  }

  /** What ChangeLabels decides before building any operation. */
  datatype Plan = Plan(added: seq<Label>, removed: seq<Label>, results: seq<LabelChangeResult>,
                       newWorkflow: Option<Workflows.Workflow>, remove: seq<string>)

  function PlanOf(snapLabels: seq<Label>, status: Status, author: Id, c: Config, add: seq<string>, remove: seq<string>,
                  allowDeprecated: bool): Plan
  {
    var a := AddAll(AddState([], [], remove, None), add, snapLabels, c, allowDeprecated);
    var rm := RemoveAll(RemoveState([], a.results), a.remove, snapLabels, a.newWorkflow.Some?,
                        Ccb.IsCcbMember(c.ccbMembers, author), status);
    Plan(a.added, rm.removed, rm.results, a.newWorkflow, a.remove)
  }

  /** The pass over the labels to add accepts each label at most once and never one the
      ticket already has, and gives one verdict per request, in request order. */
  lemma {:induction false} AddAllFacts(st: AddState, xs: seq<string>, snapLabels: seq<Label>, c: Config, allowDeprecated: bool)
    requires Distinct(st.added) && forall l :: l in st.added ==> l !in snapLabels
    ensures var r := AddAll(st, xs, snapLabels, c, allowDeprecated);
      && Distinct(r.added) && (forall l :: l in r.added ==> l !in snapLabels)
      && (forall l :: l in r.added ==> l in st.added || l in xs)
      && |r.results| == |st.results| + |xs| && r.results[..|st.results|] == st.results
      && (forall k :: 0 <= k < |xs| ==> r.results[|st.results| + k].name == xs[k])
  {
    if xs != [] {
      var n := |xs| - 1;
      AddAllFacts(st, xs[..n], snapLabels, c, allowDeprecated);
      var p := AddAll(st, xs[..n], snapLabels, c, allowDeprecated);
      AddStepCore(p, xs[n], snapLabels, c, allowDeprecated);
      AddAllExtend(st, p, AddStep(p, xs[n], snapLabels, c, allowDeprecated), xs[..n], xs[n], snapLabels);
      assert xs[..n] + [xs[n]] == xs;
    }
  }

  /** What the pass over the labels to add needs of one step. */
  lemma AddStepCore(st: AddState, str: string, snapLabels: seq<Label>, c: Config, allowDeprecated: bool)
    ensures var r := AddStep(st, str, snapLabels, c, allowDeprecated);
      && |r.results| == |st.results| + 1 && r.results[..|st.results|] == st.results && r.results[|st.results|].name == str
      && (r.added == st.added || (r.added == st.added + [str] && str !in st.added && str !in snapLabels))
  {
    AddStepFacts(st, str, snapLabels, c, allowDeprecated);
  }

  /** The facts of AddAllFacts carry over one more step. */
  lemma AddAllExtend(st: AddState, p: AddState, r: AddState, ys: seq<string>, str: string, snapLabels: seq<Label>)
    requires Distinct(p.added) && (forall l :: l in p.added ==> l !in snapLabels)
    requires forall l :: l in p.added ==> l in st.added || l in ys
    requires |p.results| == |st.results| + |ys| && p.results[..|st.results|] == st.results
    requires forall k :: 0 <= k < |ys| ==> p.results[|st.results| + k].name == ys[k]
    requires |r.results| == |p.results| + 1 && r.results[..|p.results|] == p.results && r.results[|p.results|].name == str
    requires r.added == p.added || (r.added == p.added + [str] && str !in p.added && str !in snapLabels)
    ensures Distinct(r.added) && (forall l :: l in r.added ==> l !in snapLabels)
    ensures forall l :: l in r.added ==> l in st.added || l in ys + [str]
    ensures |r.results| == |st.results| + |ys + [str]| && r.results[..|st.results|] == st.results
    ensures forall k :: 0 <= k < |ys + [str]| ==> r.results[|st.results| + k].name == (ys + [str])[k]
  {
    forall k | 0 <= k < |ys + [str]|
      ensures r.results[|st.results| + k].name == (ys + [str])[k]
    {
      if k < |ys| {
        assert r.results[|st.results| + k] == r.results[..|p.results|][|st.results| + k];
      }
    }
    assert r.results[..|st.results|] == r.results[..|p.results|][..|st.results|];
  }

  /** The pass over the labels to remove accepts each label at most once and only labels
      the ticket has, and gives one verdict per request, after the earlier ones. */
  lemma {:induction false} RemoveAllFacts(st: RemoveState, xs: seq<string>, snapLabels: seq<Label>, newWorkflow: bool,
                                          isCcbMember: bool, status: Status)
    requires Distinct(st.removed) && forall l :: l in st.removed ==> l in snapLabels
    ensures var r := RemoveAll(st, xs, snapLabels, newWorkflow, isCcbMember, status);
      && Distinct(r.removed) && (forall l :: l in r.removed ==> l in snapLabels)
      && |r.results| == |st.results| + |xs| && r.results[..|st.results|] == st.results
  {
    if xs != [] {
      var n := |xs| - 1;
      RemoveAllFacts(st, xs[..n], snapLabels, newWorkflow, isCcbMember, status);
      var p := RemoveAll(st, xs[..n], snapLabels, newWorkflow, isCcbMember, status);
      RemoveStepFacts(p, xs[n], snapLabels, newWorkflow, isCcbMember, status);
      var r := RemoveStep(p, xs[n], snapLabels, newWorkflow, isCcbMember, status);
      assert r.results[..|st.results|] == r.results[..|p.results|][..|st.results|];
    }
  }

  /** What ChangeLabels appends never adds a label the ticket has nor removes one it lacks,
      names no label twice, and answers every requested label in request order. */
  lemma PlanFacts(snapLabels: seq<Label>, status: Status, author: Id, c: Config, add: seq<string>, remove: seq<string>,
                  allowDeprecated: bool)
    ensures var p := PlanOf(snapLabels, status, author, c, add, remove, allowDeprecated);
      && Distinct(p.added) && (forall l :: l in p.added ==> l !in snapLabels && l in add)
      && Distinct(p.removed) && (forall l :: l in p.removed ==> l in snapLabels)
      && |p.results| == |add| + |p.remove|
      && (forall k :: 0 <= k < |add| ==> p.results[k].name == add[k])
  {
    var a := AddAll(AddState([], [], remove, None), add, snapLabels, c, allowDeprecated);
    var isCcb := Ccb.IsCcbMember(c.ccbMembers, author);
    var rm := RemoveAll(RemoveState([], a.results), a.remove, snapLabels, a.newWorkflow.Some?, isCcb, status);
    assert PlanOf(snapLabels, status, author, c, add, remove, allowDeprecated) == Plan(a.added, rm.removed, rm.results, a.newWorkflow, a.remove);
    PassesFacts(a, rm, add, remove, snapLabels, c, allowDeprecated, isCcb, status);
  }

  /** The facts of PlanFacts about the results of the two passes. */
  lemma PassesFacts(a: AddState, rm: RemoveState, add: seq<string>, remove: seq<string>, snapLabels: seq<Label>, c: Config,
                    allowDeprecated: bool, isCcb: bool, status: Status)
    requires a == AddAll(AddState([], [], remove, None), add, snapLabels, c, allowDeprecated)
    requires rm == RemoveAll(RemoveState([], a.results), a.remove, snapLabels, a.newWorkflow.Some?, isCcb, status)
    ensures Distinct(a.added) && (forall l :: l in a.added ==> l !in snapLabels && l in add)
    ensures Distinct(rm.removed) && (forall l :: l in rm.removed ==> l in snapLabels)
    ensures |rm.results| == |add| + |a.remove|
    ensures forall k :: 0 <= k < |add| ==> rm.results[k].name == add[k]
  {
    AddAllFacts(AddState([], [], remove, None), add, snapLabels, c, allowDeprecated);
    RemoveAllFacts(RemoveState([], a.results), a.remove, snapLabels, a.newWorkflow.Some?, isCcb, status);
    forall k | 0 <= k < |add|
      ensures rm.results[k].name == add[k]
    {
      assert rm.results[k] == rm.results[..|a.results|][k];
    }
  }

  /** The body of the loop over the labels to add. */
  method AddOne(st: AddState, str: string, snapLabels: seq<Label>, c: Config, allowDeprecated: bool) returns (r: AddState)
    ensures r == AddStep(st, str, snapLabels, c, allowDeprecated)
  {
    var dup := LabelExist(st.added, str);
    if dup {
      return Verdict(st, str, DuplicateInOp, "");
    }
    var present := LabelExist(snapLabels, str);
    if present {
      return Verdict(st, str, AlreadySet, "");
    }
    r := st;
    if BugLabel.IsWorkflow(str) {
      var w := Workflows.WorkflowOfLabels([str]);
      r := r.(newWorkflow := w);
      if w.None? {
        return Verdict(r, str, InvalidWorkflow, "");
      }
      var queued := QueueWorkflowLabels(r.remove, snapLabels);
      r := r.(remove := queued);
    }
    if BugLabel.IsChecklist(str) {
      var cl := Checklists.GetChecklist(c.checklists, str);
      if cl.Err? {
        return Verdict(r, str, InvalidChecklist, "");
      } else if cl.value.deprecated != "" && !allowDeprecated {
        return Verdict(r, str, DeprecatedLabel, cl.value.deprecated);
      }
    }
    if !BugLabel.IsChecklist(str) && !BugLabel.IsWorkflow(str) {
      if str !in c.labels {
        return Verdict(r, str, UnknownLabel, "");
      } else if c.labels[str].message != "" && !allowDeprecated {
        return Verdict(r, str, DeprecatedLabel, c.labels[str].message);
      }
    }
    r := r.(added := r.added + [str], results := r.results + [LabelChangeResult(str, Added, "")]);
  }

  /** The body of the loop over the labels to remove. */
  method RemoveOne(st: RemoveState, str: string, snapLabels: seq<Label>, newWorkflow: bool, isCcbMember: bool, status: Status)
    returns (r: RemoveState)
    ensures r == RemoveStep(st, str, snapLabels, newWorkflow, isCcbMember, status)
  {
    var dup := LabelExist(st.removed, str);
    if dup {
      return st.(results := st.results + [LabelChangeResult(str, DuplicateInOp, "")]);
    }
    var present := LabelExist(snapLabels, str);
    if !present {
      return st.(results := st.results + [LabelChangeResult(str, DoesntExist, "")]);
    }
    if !newWorkflow && BugLabel.IsWorkflow(str) {
      return st.(results := st.results + [LabelChangeResult(str, InvalidWorkflow, "")]);
    }
    if BugLabel.IsChecklist(str) && !isCcbMember && status != Proposed {
      return st.(results := st.results + [LabelChangeResult(str, UnauthorizedChecklistChange, "")]);
    }
    r := RemoveState(st.removed + [str], st.results + [LabelChangeResult(str, Removed, "")]);
  }

  /** The two loops of ChangeLabels over the labels to add and to remove. */
  method MakePlan(labels: seq<Label>, status: Status, author: Id, c: Config, add: seq<string>, remove: seq<string>,
                  allowDeprecated: bool) returns (p: Plan)
    ensures p == PlanOf(labels, status, author, c, add, remove, allowDeprecated)
  {
    var st := AddEach(AddState([], [], remove, None), add, labels, c, allowDeprecated);
    var isCcbMember := Ccb.IsCcbMember(c.ccbMembers, author);
    var rs := RemoveEach(RemoveState([], st.results), st.remove, labels, st.newWorkflow.Some?, isCcbMember, status);
    p := Plan(st.added, rs.removed, rs.results, st.newWorkflow, st.remove);
  }

  /** The loop of ChangeLabels over the labels to add. */
  method AddEach(init: AddState, add: seq<string>, labels: seq<Label>, c: Config, allowDeprecated: bool) returns (st: AddState)
    ensures st == AddAll(init, add, labels, c, allowDeprecated)
  {
    st := init;
    var i := 0;
    while i < |add|
      invariant 0 <= i <= |add|
      invariant st == AddAll(init, add[..i], labels, c, allowDeprecated)
    {
      assert add[..i + 1][..i] == add[..i];
      st := AddOne(st, add[i], labels, c, allowDeprecated);
      i := i + 1;
    }
    assert add[..i] == add;
  }

  /** The loop of ChangeLabels over the labels to remove. */
  method RemoveEach(init: RemoveState, xs: seq<string>, labels: seq<Label>, newWorkflow: bool, isCcbMember: bool, status: Status)
    returns (rs: RemoveState)
    ensures rs == RemoveAll(init, xs, labels, newWorkflow, isCcbMember, status)
  {
    rs := init;
    var i := 0;
    while i < |xs|
      invariant 0 <= i <= |xs|
      invariant rs == RemoveAll(init, xs[..i], labels, newWorkflow, isCcbMember, status)
    {
      assert xs[..i + 1][..i] == xs[..i];
      rs := RemoveOne(rs, xs[i], labels, newWorkflow, isCcbMember, status);
      i := i + 1;
    }
    assert xs[..i] == xs;
  }

  /** ChangeLabels: checks every requested label against the ticket's compiled form `snap`
      and the configuration, then appends one label change of the accepted labels and, when
      a workflow label was added, a change to that workflow's initial status. The ids of the
      two operations are supplied. Nothing accepted is an error that still reports the
      verdicts; an invalid operation is an error without them. */
  method ChangeLabels(b: Bug, snap: Snapshot, author: Identity, c: Config, unixTime: int,
                      add: seq<string>, remove: seq<string>, allowDeprecated: bool,
                      id: Id, statusId: Id, baseValidate: Operation -> Outcome,
                      empty: string -> bool, safe: string -> bool)
    returns (results: seq<LabelChangeResult>, op: Option<Operation>, err: Outcome)
    modifies b
    ensures var p := PlanOf(snap.labels, snap.status, author.id, c, add, remove, allowDeprecated);
      var labelOp := LabelChangeOp(OpBase(id, author, unixTime), p.added, p.removed);
      var v := ValidOutcome(labelOp, baseValidate, empty, safe);
      if p.added == [] && p.removed == [] then
        results == p.results && op == None && err == Fail("no label added or removed") && b.ops == old(b.ops)
      else if v.Fail? then
        results == [] && op == None && err == v && b.ops == old(b.ops)
      else if p.newWorkflow.None? then
        results == p.results && op == Some(labelOp) && err == Pass && b.ops == old(b.ops) + [labelOp]
      else
        var statusOp := SetStatusOp(OpBase(statusId, author, unixTime), p.newWorkflow.value.initialState);
        var sv := OpSetStatus.Validate(statusOp, baseValidate);
        if sv.Fail? then
          results == [] && op == None && err == sv && b.ops == old(b.ops) + [labelOp]
        else
          results == p.results && op == Some(labelOp) && err == Pass && b.ops == old(b.ops) + [labelOp, statusOp]
  {
    var p := MakePlan(snap.labels, snap.status, author.id, c, add, remove, allowDeprecated);
    if |p.added| == 0 && |p.removed| == 0 {
      return p.results, None, Fail("no label added or removed");
    }
    var labelOp := LabelChangeOp(OpBase(id, author, unixTime), p.added, p.removed);
    err := Validate(labelOp, baseValidate, empty, safe);
    if err.Fail? {
      return [], None, err;
    }
    b.Append(labelOp);
    if p.newWorkflow.Some? {
      var statusOp := SetStatusOp(OpBase(statusId, author, unixTime), p.newWorkflow.value.initialState);
      err := OpSetStatus.Validate(statusOp, baseValidate);
      if err.Fail? {
        return [], None, err;
      }
      b.Append(statusOp);
    }
    return p.results, Some(labelOp), Pass;
  }

  /** ForceChangeLabels: appends the requested change as is, with no check against the
      ticket, when the operation is valid. */
  method ForceChangeLabels(b: Bug, author: Identity, unixTime: int, add: seq<string>, remove: seq<string>,
                           id: Id, baseValidate: Operation -> Outcome, empty: string -> bool, safe: string -> bool)
    returns (op: Option<Operation>, err: Outcome)
    modifies b
    ensures err == ValidOutcome(LabelChangeOp(OpBase(id, author, unixTime), add, remove), baseValidate, empty, safe)
    ensures err.Pass? ==> op == Some(LabelChangeOp(OpBase(id, author, unixTime), add, remove)) && b.ops == old(b.ops) + [op.value]
    ensures err.Fail? ==> op == None && b.ops == old(b.ops)
  {
    var labelOp := LabelChangeOp(OpBase(id, author, unixTime), add, remove);
    err := Validate(labelOp, baseValidate, empty, safe);
    if err.Fail? {
      return None, err;
    }
    b.Append(labelOp);
    op := Some(labelOp);
  }
}
