/** The compiled form of a ticket (bug/snapshot.go) and the records it holds: CCB approvals
    (bug/ccb.go), comments, timeline items (bug/timeline.go) and the operations that a ticket
    is made of. A ticket (`Bug`) is its list of operations; compiling that list into a
    snapshot is not part of this model, so callers that need the compiled form receive it. */
module Snapshots {
  import opened Wrappers
  import opened Entity
  import opened Identities
  import opened Status
  import Workflows
  import BugLabel
  import Checklists
  import PullReview

  type Label = string
  type Hash = string

  /** bug.CcbState is a Go `int`; 1..4 are the named states. */
  type CcbState = int

  const AddedCcbState: CcbState := 1
  const ApprovedCcbState: CcbState := 2
  const BlockedCcbState: CcbState := 3
  const RemovedCcbState: CcbState := 4

  /** CcbState.String: the state's name, "UNKNOWN" outside the named states. */
  function CcbStateString(s: CcbState): (r: string)
    ensures r != "UNKNOWN" <==> AddedCcbState <= s <= RemovedCcbState
  {
    if s == AddedCcbState then "Added"
    else if s == ApprovedCcbState then "Approved"
    else if s == BlockedCcbState then "Blocked"
    else if s == RemovedCcbState then "Removed"
    else "UNKNOWN"
  }

  /** One approval a ticket needs: a CCB member and the ticket status it is for. */
  datatype CcbInfo = CcbInfo(user: Identity, status: Status, state: CcbState)

  datatype Comment = Comment(id: Id, author: Identity, message: string, files: seq<Hash>, edited: bool, unixTime: int)

  datatype CommentKind = CreateKind | AddCommentKind | EditCommentKind

  /** The timeline items of each operation kind. A review item keeps the id of the review it
      belongs to. */
  datatype TimelineItem =
    | CommentItem(kind: CommentKind, id: Id, index: int, author: Identity, message: string,
                  files: seq<Hash>, unixTime: int)
    | LabelChangeItem(id: Id, author: Identity, unixTime: int, added: seq<Label>, removed: seq<Label>)
    | SetStatusItem(id: Id, author: Identity, unixTime: int, status: Status)
    | SetAssigneeItem(id: Id, author: Identity, unixTime: int, assignee: Option<Identity>)
    | SetCcbItem(id: Id, author: Identity, unixTime: int, ccb: CcbInfo)
    | SetReviewItem(id: Id, author: Identity, unixTime: int, reviewId: string, event: PullReview.ReviewComment)

  /** TimelineItem.When. */
  function When(t: TimelineItem): int {
    t.unixTime
  }

  /** NewCommentTimelineItem: the item shows the comment's author, text, files and time. */
  function NewCommentItem(kind: CommentKind, id: Id, index: int, c: Comment): (t: TimelineItem)
    ensures t.CommentItem? && t.id == id && t.index == index && When(t) == c.unixTime
    ensures t.author == c.author && t.message == c.message && t.files == c.files
  {
    CommentItem(kind, id, index, c.author, c.message, c.files, c.unixTime)
  }

  /** What every operation carries: its id (the hash of its serialized form, computed outside
      this model), its author and its time. */
  datatype OpBase = OpBase(id: Id, author: Identity, unixTime: int)

  datatype Operation =
    | CreateOp(base: OpBase, title: string, message: string, files: seq<Hash>)
    | AddCommentOp(base: OpBase, message: string, files: seq<Hash>)
    | EditCommentOp(base: OpBase, target: Id, message: string, files: seq<Hash>)
    | LabelChangeOp(base: OpBase, added: seq<Label>, removed: seq<Label>)
    | SetStatusOp(base: OpBase, status: Status)
    | SetAssigneeOp(base: OpBase, assignee: Option<Identity>)
    | SetCcbOp(base: OpBase, ccb: CcbInfo)
    | SetReviewOp(base: OpBase, review: PullReview.Pull)

  /** A reviewer's copy of a checklist and when they last edited it. */
  datatype ChecklistSnapshot = ChecklistSnapshot(checklist: Checklists.Checklist, lastEdit: int)

  /** Some entry of the list has the id. */
  predicate HasId(xs: seq<Identity>, id: Id) {
    exists i :: 0 <= i < |xs| && xs[i].id == id
  }

  /** No two entries share an id. */
  predicate UniqueIds(xs: seq<Identity>) {
    forall i, j :: 0 <= i < j < |xs| ==> xs[i].id != xs[j].id
  }

  /** The list after addActor/addParticipant: unchanged when an entry has the identity's id,
      else extended by it. */
  function WithIdentity(xs: seq<Identity>, a: Identity): seq<Identity> {
    if HasId(xs, a.id) then xs else xs + [a]
  }

  /** Adding an identity keeps the list free of repeated ids, keeps every earlier entry in
      place, and afterwards the identity's id is present. */
  lemma WithIdentityUnique(xs: seq<Identity>, a: Identity)
    requires UniqueIds(xs)
    ensures UniqueIds(WithIdentity(xs, a))
    ensures HasId(WithIdentity(xs, a), a.id)
    ensures xs <= WithIdentity(xs, a)
    ensures forall id :: HasId(WithIdentity(xs, a), id) <==> HasId(xs, id) || id == a.id
  {
    var r := WithIdentity(xs, a);
    if !HasId(xs, a.id) {
      assert r[|xs|] == a;
      forall id | HasId(r, id)
        ensures HasId(xs, id) || id == a.id
      {
        var i :| 0 <= i < |r| && r[i].id == id;
        if i < |xs| {
          assert xs[i] == r[i];
        }
      }
      forall id | HasId(xs, id)
        ensures HasId(r, id)
      {
        var i :| 0 <= i < |xs| && xs[i].id == id;
        assert r[i] == xs[i];
      }
    }
  }

  /** The entry is for the user and the status. */
  predicate CcbMatch(c: CcbInfo, id: Id, status: Status) {
    c.user.id == id && c.status == status
  }

  /** The compound state of a checklist label over its reviewers' copies: Failed if one
      failed, else Passed if one passed, else TBD. */
  function ReviewedOver(m: map<Id, ChecklistSnapshot>, keys: set<Id>): Checklists.ChecklistState {
    if exists r :: r in keys && r in m && Checklists.CompoundOf(m[r].checklist) == Checklists.Failed then Checklists.Failed
    else if exists r :: r in keys && r in m && Checklists.CompoundOf(m[r].checklist) == Checklists.Passed then Checklists.Passed
    else Checklists.TBD
  }

  function ReviewedState(m: map<Id, ChecklistSnapshot>): Checklists.ChecklistState {
    ReviewedOver(m, m.Keys)
  }

  /** A checklist label nobody has reviewed is TBD. */
  function LabelState(checklists: map<Label, map<Id, ChecklistSnapshot>>, l: Label): Checklists.ChecklistState {
    if l in checklists then ReviewedState(checklists[l]) else Checklists.TBD
  }

  /** A label's compound state is never NotApplicable, and it is TBD when nobody has reviewed
      the checklist. */
  lemma LabelStateValues(checklists: map<Label, map<Id, ChecklistSnapshot>>, l: Label)
    ensures LabelState(checklists, l) in {Checklists.TBD, Checklists.Passed, Checklists.Failed}
    ensures l !in checklists || checklists[l] == map[] ==> LabelState(checklists, l) == Checklists.TBD
  {
  }

  /** The compound state of one checklist label: walks the reviewers' copies in map order,
      stopping at the first Failed. */
  method ReviewersState(m: map<Id, ChecklistSnapshot>) returns (st: Checklists.ChecklistState)
    ensures st == ReviewedState(m)
  {
    st := Checklists.TBD;
    var rest := m.Keys;
    while rest != {}
      invariant rest <= m.Keys
      invariant st == ReviewedOver(m, m.Keys - rest)
      invariant st != Checklists.Failed
      decreases rest
    {
      var r :| r in rest;
      var done := m.Keys - rest;
      assert m.Keys - (rest - {r}) == done + {r};
      var cs := Checklists.CompoundState(m[r].checklist);
      if cs == Checklists.Failed {
        assert r in m.Keys && Checklists.CompoundOf(m[r].checklist) == Checklists.Failed;
        return Checklists.Failed;
      }
      if cs == Checklists.Passed {
        st := Checklists.Passed;
      }
      rest := rest - {r};
    }
    assert m.Keys - rest == m.Keys;
  }

  class Snapshot {
    var id: Id
    var status: Status
    var title: string
    var comments: seq<Comment>
    var labels: seq<Label>
    /** Per checklist label, each reviewer's copy. */
    var checklists: map<Label, map<Id, ChecklistSnapshot>>
    /** Per pull-request id, the review attached to the ticket. */
    var reviews: map<string, PullReview.Pull>
    var author: Option<Identity>
    var assignee: Option<Identity>
    var actors: seq<Identity>
    var participants: seq<Identity>
    var ccb: seq<CcbInfo>
    var createTime: int
    var timeline: seq<TimelineItem>
    var operations: seq<Operation>

    /** The snapshot a ticket's compilation starts from: nothing applied yet. */
    constructor (id: Id, status: Status)
      ensures this.id == id && this.status == status && title == "" && comments == [] && labels == []
      ensures checklists == map[] && reviews == map[] && author == None && assignee == None
      ensures actors == [] && participants == [] && ccb == [] && createTime == 0
      ensures timeline == [] && operations == []
    {
      this.id := id;
      this.status := status;
      title, comments, labels := "", [], [];
      checklists, reviews := map[], map[];
      author, assignee := None, None;
      actors, participants, ccb := [], [], [];
      createTime, timeline, operations := 0, [], [];
    }

    /** Snapshot.EditTime: the Unix epoch without operations, else the last one's time. */
    function EditTime(): (t: int)
      reads this
      ensures operations == [] ==> t == 0
      ensures operations != [] ==> t == operations[|operations| - 1].base.unixTime
    {
      if |operations| == 0 then 0 else operations[|operations| - 1].base.unixTime
    }

    /** Snapshot.SearchComment: the first comment with the id. */
    method SearchComment(id: Id) returns (r: Result<Comment>)
      ensures r.Err? <==> forall i :: 0 <= i < |comments| ==> comments[i].id != id
      ensures r.Err? ==> r.msg == "comment item not found"
      ensures r.Ok? ==> exists i :: (0 <= i < |comments| && comments[i] == r.value && r.value.id == id
        && forall j :: 0 <= j < i ==> comments[j].id != id)
    {
      var i := 0;
      while i < |comments|
        invariant 0 <= i <= |comments|
        invariant forall j :: 0 <= j < i ==> comments[j].id != id
      {
        if comments[i].id == id {
          return Ok(comments[i]);
        }
        i := i + 1;
      }
      return Err("comment item not found");
    }

    /** Snapshot.GetComment: the comment at the index, an error past the end. */
    function GetComment(index: nat): (r: Result<Comment>)
      reads this
      ensures r.Ok? <==> index < |comments|
      ensures r.Ok? ==> r.value == comments[index]
      ensures r.Err? ==> r.msg == "comment item not found"
    {
      if index < |comments| then Ok(comments[index]) else Err("comment item not found")
    }

    /** Snapshot.addActor. */
    method AddActor(a: Identity)
      modifies this`actors
      ensures actors == WithIdentity(old(actors), a)
    {
      var i := 0;
      while i < |actors|
        invariant 0 <= i <= |actors|
        invariant forall j :: 0 <= j < i ==> actors[j].id != a.id
      {
        if actors[i].id == a.id {
          return;
        }
        i := i + 1;
      }
      actors := actors + [a];
    }

    /** Snapshot.addParticipant. */
    method AddParticipant(p: Identity)
      modifies this`participants
      ensures participants == WithIdentity(old(participants), p)
    {
      var i := 0;
      while i < |participants|
        invariant 0 <= i <= |participants|
        invariant forall j :: 0 <= j < i ==> participants[j].id != p.id
      {
        if participants[i].id == p.id {
          return;
        }
        i := i + 1;
      }
      participants := participants + [p];
    }

    /** Snapshot.HasParticipant. */
    method HasParticipant(id: Id) returns (b: bool)
      ensures b <==> HasId(participants, id)
    {
      var i := 0;
      while i < |participants|
        invariant 0 <= i <= |participants|
        invariant forall j :: 0 <= j < i ==> participants[j].id != id
      {
        if participants[i].id == id {
          return true;
        }
        i := i + 1;
      }
      return false;
    }

    /** Snapshot.HasAnyParticipant. */
    method HasAnyParticipant(ids: seq<Id>) returns (b: bool)
      ensures b <==> exists k :: 0 <= k < |ids| && HasId(participants, ids[k])
    {
      var k := 0;
      while k < |ids|
        invariant 0 <= k <= |ids|
        invariant forall j :: 0 <= j < k ==> !HasId(participants, ids[j])
      {
        var has := HasParticipant(ids[k]);
        if has {
          return true;
        }
        k := k + 1;
      }
      return false;
    }

    /** Snapshot.HasActor. */
    method HasActor(id: Id) returns (b: bool)
      ensures b <==> HasId(actors, id)
    {
      var i := 0;
      while i < |actors|
        invariant 0 <= i <= |actors|
        invariant forall j :: 0 <= j < i ==> actors[j].id != id
      {
        if actors[i].id == id {
          return true;
        }
        i := i + 1;
      }
      return false;
    }

    /** Snapshot.HasAnyActor. */
    method HasAnyActor(ids: seq<Id>) returns (b: bool)
      ensures b <==> exists k :: 0 <= k < |ids| && HasId(actors, ids[k])
    {
      var k := 0;
      while k < |ids|
        invariant 0 <= k <= |ids|
        invariant forall j :: 0 <= j < k ==> !HasId(actors, ids[j])
      {
        var has := HasActor(ids[k]);
        if has {
          return true;
        }
        k := k + 1;
      }
      return false;
    }

    /** Snapshot.GetCcbState: the state of the first entry for the user and the status,
        RemovedCcbState when there is none. */
    method GetCcbState(id: Id, status: Status) returns (r: CcbState)
      ensures (forall i :: 0 <= i < |ccb| ==> !CcbMatch(ccb[i], id, status)) ==> r == RemovedCcbState
      ensures forall i :: (0 <= i < |ccb| && CcbMatch(ccb[i], id, status)
        && forall j :: 0 <= j < i ==> !CcbMatch(ccb[j], id, status)) ==> r == ccb[i].state
    {
      var i := 0;
      while i < |ccb|
        invariant 0 <= i <= |ccb|
        invariant forall j :: 0 <= j < i ==> !CcbMatch(ccb[j], id, status)
      {
        if ccb[i].user.id == id && ccb[i].status == status {
          return ccb[i].state;
        }
        i := i + 1;
      }
      return RemovedCcbState;
    }

    /** Snapshot.GetChecklistCompoundStates: one state per checklist label of the ticket. */
    method GetChecklistCompoundStates() returns (states: map<Label, Checklists.ChecklistState>)
      ensures forall l :: l in states <==> l in labels && BugLabel.IsChecklist(l)
      ensures forall l :: l in states ==> states[l] == LabelState(checklists, l)
    {
      states := map[];
      var i := 0;
      while i < |labels|
        invariant 0 <= i <= |labels|
        invariant forall l :: l in states <==> l in labels[..i] && BugLabel.IsChecklist(l)
        invariant forall l :: l in states ==> states[l] == LabelState(checklists, l)
      {
        assert labels[..i + 1] == labels[..i] + [labels[i]];
        var l := labels[i];
        if BugLabel.IsChecklist(l) {
          var st := Checklists.TBD;
          if l in checklists {
            st := ReviewersState(checklists[l]);
          }
          states := states[l := st];
        }
        i := i + 1;
      }
      assert labels[..i] == labels;
    }

    /** Snapshot.NextStatuses: the statuses the ticket's workflow allows next. */
    method NextStatuses() returns (r: Result<seq<Status>>)
      ensures Workflows.WorkflowOfLabels(labels).None? ==> r == Err("ticket has no associated workflow")
      ensures Workflows.WorkflowOfLabels(labels).Some? ==>
        r == Ok(Workflows.NextStatusesOf(Workflows.WorkflowOfLabels(labels).value.transitions, status))
    {
      var w := Workflows.WorkflowOfLabels(labels);
      if w.None? {
        return Err("ticket has no associated workflow");
      }
      var next := Workflows.NextStatuses(w.value, status);
      return Ok(next);
    }

    /** Snapshot.ValidateTransition: the ticket's workflow decides; `runHook` runs a
        transition's hook command. */
    method ValidateTransition(newStatus: Status, runHook: string -> Outcome) returns (r: Outcome)
      ensures r == WorkflowOutcome(labels, status, newStatus, runHook)
    {
      var w := Workflows.WorkflowOfLabels(labels);
      if w.None? {
        return Fail("ticket has no associated workflow");
      }
      r := Workflows.ValidateTransition(w.value, status, newStatus, runHook);
    }
  }

  /** The outcome of a ticket's status change: the workflow its labels name decides, and a
      ticket without one cannot change status. */
  function WorkflowOutcome(labels: seq<Label>, from: Status, to: Status, runHook: string -> Outcome): Outcome {
    match Workflows.WorkflowOfLabels(labels)
    case None => Fail("ticket has no associated workflow")
    case Some(w) => Workflows.TransitionOutcome(w, from, to, runHook)
  }

  /** With the built-in workflows, which run no hooks, a status change is accepted exactly
      when the ticket has a workflow and that workflow lists the transition. */
  lemma WorkflowOutcomeMeaning(labels: seq<Label>, from: Status, to: Status, runHook: string -> Outcome)
    ensures WorkflowOutcome(labels, from, to, runHook).Pass? <==>
      Workflows.WorkflowOfLabels(labels).Some? &&
      exists i :: 0 <= i < |Workflows.WorkflowOfLabels(labels).value.transitions|
        && Workflows.WorkflowOfLabels(labels).value.transitions[i].start == from
        && Workflows.WorkflowOfLabels(labels).value.transitions[i].end == to
  {
    match Workflows.WorkflowOfLabels(labels)
    case None =>
    case Some(w) =>
      Workflows.BuiltinsHaveNoHooks();
      Workflows.ValidateIffListed(w, from, to, runHook);
  }

  /** ValidateAssigneeSet. */
  function ValidateAssigneeSet(snap: Snapshot, next: Status): (r: Outcome)
    reads snap
    ensures r.Pass? <==> snap.assignee.Some?
    ensures r.Fail? ==> r.msg == "assignee not set"
  {
    if snap.assignee.None? then Fail("assignee not set") else Pass
  }

  /** Some CCB entry is for the status. */
  predicate CcbAssigned(ccb: seq<CcbInfo>, next: Status) {
    exists i :: 0 <= i < |ccb| && ccb[i].status == next
  }

  /** Every CCB entry for the status has approved. */
  predicate CcbApproved(ccb: seq<CcbInfo>, next: Status) {
    forall i :: 0 <= i < |ccb| && ccb[i].status == next ==> ccb[i].state == ApprovedCcbState
  }

  /** ValidateCcb: passes exactly when some CCB entry is for the next status and all such
      entries approved; a missing approval is reported before a missing assignment. */
  method ValidateCcb(snap: Snapshot, next: Status) returns (r: Outcome)
    ensures r.Pass? <==> CcbAssigned(snap.ccb, next) && CcbApproved(snap.ccb, next)
    ensures !CcbApproved(snap.ccb, next) ==> r == Fail("not all CCB have approved ticket status " + StatusString(next))
    ensures CcbApproved(snap.ccb, next) && !CcbAssigned(snap.ccb, next) ==>
      r == Fail("no CCB assigned to ticket status " + StatusString(next))
  {
    var ccb := snap.ccb;
    var count := 0;
    var i := 0;
    while i < |ccb|
      invariant 0 <= i <= |ccb|
      invariant forall j :: 0 <= j < i && ccb[j].status == next ==> ccb[j].state == ApprovedCcbState
      invariant count == 0 <==> forall j :: 0 <= j < i ==> ccb[j].status != next
    {
      if ccb[i].status == next {
        count := count + 1;
        if ccb[i].state != ApprovedCcbState {
          return Fail("not all CCB have approved ticket status " + StatusString(next));
        }
      }
      i := i + 1;
    }
    if count == 0 {
      return Fail("no CCB assigned to ticket status " + StatusString(next));
    }
    return Pass;
  }

  /** ValidateChecklistsCompleted: passes exactly when no checklist label of the ticket is
      TBD. */
  method ValidateChecklistsCompleted(snap: Snapshot, next: Status) returns (r: Outcome)
    ensures r.Pass? <==> forall l :: l in snap.labels && BugLabel.IsChecklist(l) ==>
      LabelState(snap.checklists, l) != Checklists.TBD
    ensures r.Fail? ==> r.msg == "at least one checklist still TBD"
  {
    var states := snap.GetChecklistCompoundStates();
    var rest := states.Keys;
    while rest != {}
      invariant rest <= states.Keys
      invariant forall l :: l in states && l !in rest ==> states[l] != Checklists.TBD
      decreases rest
    {
      var l :| l in rest;
      if states[l] == Checklists.TBD {
        return Fail("at least one checklist still TBD");
      }
      rest := rest - {l};
    }
    return Pass;
  }

  /** A ticket: the operations appended to it, in order. */
  class Bug {
    var ops: seq<Operation>

    constructor ()
      ensures ops == []
    {
      ops := [];
    }

    method Append(op: Operation)
      modifies this
      ensures ops == old(ops) + [op]
    {
      ops := ops + [op];
    }
  }
}
