/** Ticket workflows (bug/workflow.go): each workflow label names an initial status and a
    table of allowed status transitions. The store is the constant table built at start-up. */
module Workflows {
  import opened Wrappers
  import opened StrUtil
  import opened Status

  /** A transition may carry a hook command, run when the transition is taken. */
  datatype Transition = Transition(start: Status, end: Status, hook: string)

  datatype Workflow = Workflow(name: string, initialState: Status, transitions: seq<Transition>)

  /** The built-in engineering workflow. */
  const Eng: Workflow := Workflow("workflow:eng", Proposed, [
    Transition(Proposed, Vetted, ""),
    Transition(Vetted, Proposed, ""),
    Transition(Vetted, InProgress, ""),
    Transition(InProgress, InReview, ""),
    Transition(InReview, InProgress, ""),
    Transition(InReview, Reviewed, ""),
    Transition(Reviewed, Accepted, ""),
    Transition(Accepted, Merged, "")
  ])

  /** The built-in QA workflow. */
  const Qa: Workflow := Workflow("workflow:qa", Proposed, [
    Transition(Proposed, InProgress, ""),
    Transition(InProgress, Done, "")
  ])

  /** The workflow store, in declaration order. */
  const Store: seq<Workflow> := [Eng, Qa]

  /** Index of the first workflow in `store` with the given label. */
  function FindIndex(store: seq<Workflow>, name: string): (r: Option<nat>)
    ensures r.Some? ==> r.value < |store| && store[r.value].name == name
    ensures r.Some? ==> forall j :: 0 <= j < r.value ==> store[j].name != name
    ensures r.None? ==> forall j :: 0 <= j < |store| ==> store[j].name != name
  {
    if store == [] then None
    else if store[0].name == name then Some(0)
    else match FindIndex(store[1..], name)
      case None => None
      case Some(k) => Some(k + 1)
  }

  /** The workflow a label names in the store, if any. */
  function WorkflowNamed(name: string): Option<Workflow> {
    match FindIndex(Store, name)
    case None => None
    case Some(k) => Some(Store[k])
  }

  /** FindWorkflow: linear search of the store by label. */
  method FindWorkflow(name: string) returns (r: Option<Workflow>)
    ensures r.Some? ==> r.value in Store && r.value.name == name
    ensures r.None? <==> forall w :: w in Store ==> w.name != name
    ensures r == WorkflowNamed(name)
  {
    var i := 0;
    while i < |Store|
      invariant 0 <= i <= |Store|
      invariant forall j :: 0 <= j < i ==> Store[j].name != name
    {
      if Store[i].name == name {
        return Some(Store[i]);
      }
      i := i + 1;
    }
    return None;
  }

  /** The callers hand FindWorkflow a ticket's label list, a call no signature of FindWorkflow
      defines. The model chooses the workflow of the first label, in list order, that names
      one; a ticket carrying two workflow labels is where this choice matters. */
  function WorkflowOfLabels(labels: seq<string>): (r: Option<Workflow>)
    ensures r.Some? ==> r.value in Store && r.value.name in labels
    ensures r.Some? ==> exists k :: (0 <= k < |labels| && r == WorkflowNamed(labels[k])
      && forall j :: 0 <= j < k ==> WorkflowNamed(labels[j]).None?)
    ensures r.None? ==> forall l :: l in labels ==> WorkflowNamed(l).None?
  {
    if labels == [] then None
    else if WorkflowNamed(labels[0]).Some? then WorkflowNamed(labels[0])
    else WorkflowOfLabels(labels[1..])
  }

  /** GetWorkflowLabels: the label of every stored workflow, in store order. */
  method GetWorkflowLabels() returns (r: seq<string>)
    ensures |r| == |Store|
    ensures forall i :: 0 <= i < |r| ==> r[i] == Store[i].name
  {
    r := [];
    var i := 0;
    while i < |Store|
      invariant 0 <= i <= |Store| && |r| == i
      invariant forall j :: 0 <= j < i ==> r[j] == Store[j].name
    {
      r := r + [Store[i].name];
      i := i + 1;
    }
  }

  /** The end of every transition starting at `s`, in declaration order. */
  function NextStatusesOf(ts: seq<Transition>, s: Status): (r: seq<Status>)
    ensures |r| <= |ts|
    ensures forall x :: x in r <==> exists t :: t in ts && t.start == s && t.end == x
  {
    if ts == [] then []
    else (if ts[0].start == s then [ts[0].end] else []) + NextStatusesOf(ts[1..], s)
  }

  /** Workflow.NextStatuses: collects the ends of the transitions leaving `s`. */
  method NextStatuses(w: Workflow, s: Status) returns (r: seq<Status>)
    ensures r == NextStatusesOf(w.transitions, s)
  {
    var ts := w.transitions;
    r := [];
    var i := 0;
    while i < |ts|
      invariant 0 <= i <= |ts|
      invariant r + NextStatusesOf(ts[i..], s) == NextStatusesOf(ts, s)
    {
      assert ts[i..][1..] == ts[i + 1..];
      if ts[i].start == s {
        r := r + [ts[i].end];
      }
      i := i + 1;
    }
    assert ts[i..] == [];
  }

  /** Index of the first transition from `from` to `to`. */
  function FirstTransition(ts: seq<Transition>, from: Status, to: Status): (r: Option<nat>)
    ensures r.Some? ==> r.value < |ts| && ts[r.value].start == from && ts[r.value].end == to
    ensures r.Some? ==> forall j :: 0 <= j < r.value ==> !(ts[j].start == from && ts[j].end == to)
    ensures r.None? ==> forall j :: 0 <= j < |ts| ==> !(ts[j].start == from && ts[j].end == to)
  {
    if ts == [] then None
    else if ts[0].start == from && ts[0].end == to then Some(0)
    else match FirstTransition(ts[1..], from, to)
      case None => None
      case Some(k) => Some(k + 1)
  }

  /** `%s` of a status slice: the names between brackets, separated by single spaces. */
  function StatusListString(ss: seq<Status>): string {
    "[" + Join(seq(|ss|, i requires 0 <= i < |ss| => StatusString(ss[i])), " ") + "]"
  }

  function InvalidTransitionMessage(w: Workflow, from: Status, to: Status): string {
    "invalid transition " + StatusString(from) + "->" + StatusString(to)
      + ", possible next statuses: " + StatusListString(NextStatusesOf(w.transitions, from))
  }

  /** The outcome of ValidateTransition; `runHook` stands for running a hook command. */
  function TransitionOutcome(w: Workflow, from: Status, to: Status, runHook: string -> Outcome): (r: Outcome)
    ensures (forall i :: 0 <= i < |w.transitions| ==> !(w.transitions[i].start == from && w.transitions[i].end == to)) ==>
      r == Fail(InvalidTransitionMessage(w, from, to))
    ensures r.Fail? && r.msg != InvalidTransitionMessage(w, from, to) ==>
      exists i :: 0 <= i < |w.transitions| && w.transitions[i].start == from && w.transitions[i].end == to
        && w.transitions[i].hook != "" && r == runHook(w.transitions[i].hook)
  {
    match FirstTransition(w.transitions, from, to)
    case Some(k) => if w.transitions[k].hook != "" then runHook(w.transitions[k].hook) else Pass
    case None => Fail(InvalidTransitionMessage(w, from, to))
  }

  /** Workflow.ValidateTransition: the first matching transition decides; none is an error
      listing the possible next statuses. */
  method ValidateTransition(w: Workflow, from: Status, to: Status, runHook: string -> Outcome)
    returns (r: Outcome)
    ensures r == TransitionOutcome(w, from, to, runHook)
  {
    var i := 0;
    while i < |w.transitions|
      invariant 0 <= i <= |w.transitions|
      invariant forall j :: 0 <= j < i ==> !(w.transitions[j].start == from && w.transitions[j].end == to)
    {
      var t := w.transitions[i];
      if t.start == from && t.end == to {
        assert FirstTransition(w.transitions, from, to) == Some(i);
        if t.hook != "" {
          return runHook(t.hook);
        }
        return Pass;
      }
      i := i + 1;
    }
    assert FirstTransition(w.transitions, from, to) == None;
    var next := NextStatuses(w, from);
    return Fail("invalid transition " + StatusString(from) + "->" + StatusString(to)
      + ", possible next statuses: " + StatusListString(next));
  }

  predicate NoHooks(w: Workflow) {
    forall i :: 0 <= i < |w.transitions| ==> w.transitions[i].hook == ""
  }

  /** Without hooks, a transition is accepted exactly when the workflow lists it. */
  lemma ValidateIffListed(w: Workflow, from: Status, to: Status, runHook: string -> Outcome)
    requires NoHooks(w)
    ensures TransitionOutcome(w, from, to, runHook).Pass?
        <==> exists i :: 0 <= i < |w.transitions| && w.transitions[i].start == from && w.transitions[i].end == to
  {
    match FirstTransition(w.transitions, from, to)
    case Some(k) =>
    case None =>
  }

  /** The built-in workflows carry no hooks. */
  lemma BuiltinsHaveNoHooks()
    ensures forall w :: w in Store ==> NoHooks(w)
  {
  }

  /** The QA workflow allows exactly Proposed -> InProgress -> Done. */
  lemma QaTransitions(from: Status, to: Status, runHook: string -> Outcome)
    ensures TransitionOutcome(Qa, from, to, runHook).Pass?
        <==> (from == Proposed && to == InProgress) || (from == InProgress && to == Done)
  {
    ValidateIffListed(Qa, from, to, runHook);
    if (from == Proposed && to == InProgress) || (from == InProgress && to == Done) {
      assert Qa.transitions[if from == Proposed then 0 else 1] == Transition(from, to, "");
    }
  }

  /** In the engineering workflow a merged ticket cannot move any more. */
  lemma EngMergedIsFinal(to: Status, runHook: string -> Outcome)
    ensures TransitionOutcome(Eng, Merged, to, runHook).Fail?
  {
    assert forall i :: 0 <= i < |Eng.transitions| ==> Eng.transitions[i].start != Merged;
  }

  /** Both built-in workflows start at Proposed and have distinct labels. */
  lemma StoreLabelsDistinct()
    ensures WorkflowNamed("workflow:eng") == Some(Eng)
    ensures WorkflowNamed("workflow:qa") == Some(Qa)
  {
    assert Store[0].name != "workflow:qa";
    assert Store[1..][0] == Qa;
  }

  /** The label order, not the store order, decides between two workflow labels: a ticket
      labelled QA first and engineering second follows the QA workflow. */
  lemma LabelOrderDecides()
    ensures WorkflowOfLabels(["workflow:qa", "workflow:eng"]) == Some(Qa)
    ensures WorkflowOfLabels(["workflow:eng", "workflow:qa"]) == Some(Eng)
  {
    StoreLabelsDistinct();
  }
}
