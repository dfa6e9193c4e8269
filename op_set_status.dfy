/** The operation that sets a ticket's status (bug/op_set_status.go) and the commands that
    append it. */
module OpSetStatus {
  import opened Wrappers
  import opened Entity
  import opened Identities
  import opened Status
  import Statuses = Status
  import opened Snapshots

  /** SetStatusOperation.Apply: the status, one timeline item, and the author as an actor. */
  method Apply(op: Operation, snap: Snapshot)
    requires op.SetStatusOp?
    modifies snap`status, snap`actors, snap`timeline
    ensures snap.status == op.status
    ensures snap.actors == WithIdentity(old(snap.actors), op.base.author)
    ensures snap.timeline == old(snap.timeline) + [SetStatusItem(op.base.id, op.base.author, op.base.unixTime, op.status)]
  {
    snap.status := op.status;
    snap.AddActor(op.base.author);
    snap.timeline := snap.timeline + [SetStatusItem(op.base.id, op.base.author, op.base.unixTime, op.status)];
  }

  /** SetStatusOperation.Validate: the common checks, then a status in 1..9. */
  function Validate(op: Operation, baseValidate: Operation -> Outcome): (r: Outcome)
    requires op.SetStatusOp?
    ensures r.Pass? <==> baseValidate(op).Pass? && IsValid(op.status)
    ensures baseValidate(op).Fail? ==> r == baseValidate(op)
    ensures baseValidate(op).Pass? && !IsValid(op.status) ==> r == Fail("status: invalid")
  {
    if baseValidate(op).Fail? then baseValidate(op)
    else match Statuses.Validate(op.status)
      case Fail(m) => Fail("status: " + m)
      case Pass => Pass
  }

  /** The common tail of Open and Close: validate the operation and append it. */
  method AppendValid(b: Bug, op: Operation, baseValidate: Operation -> Outcome) returns (r: Option<Operation>, err: Outcome)
    requires op.SetStatusOp?
    modifies b
    ensures err == Validate(op, baseValidate)
    ensures err.Pass? ==> r == Some(op) && b.ops == old(b.ops) + [op]
    ensures err.Fail? ==> r == None && b.ops == old(b.ops)
  {
    err := Validate(op, baseValidate);
    if err.Fail? {
      return None, err;
    }
    b.Append(op);
    r := Some(op);
  }

  /** Open: appends a change to Proposed, without consulting the workflow. */
  method Open(b: Bug, author: Identity, unixTime: int, id: Id, baseValidate: Operation -> Outcome)
    returns (r: Option<Operation>, err: Outcome)
    modifies b
    ensures err == Validate(SetStatusOp(OpBase(id, author, unixTime), Proposed), baseValidate)
    ensures err.Pass? ==> r == Some(SetStatusOp(OpBase(id, author, unixTime), Proposed)) && b.ops == old(b.ops) + [r.value]
    ensures err.Fail? ==> r == None && b.ops == old(b.ops)
  {
    r, err := AppendValid(b, SetStatusOp(OpBase(id, author, unixTime), Proposed), baseValidate);
  }

  /** Close: appends a change to Merged, without consulting the workflow. */
  method Close(b: Bug, author: Identity, unixTime: int, id: Id, baseValidate: Operation -> Outcome)
    returns (r: Option<Operation>, err: Outcome)
    modifies b
    ensures err == Validate(SetStatusOp(OpBase(id, author, unixTime), Merged), baseValidate)
    ensures err.Pass? ==> r == Some(SetStatusOp(OpBase(id, author, unixTime), Merged)) && b.ops == old(b.ops) + [r.value]
    ensures err.Fail? ==> r == None && b.ops == old(b.ops)
  {
    r, err := AppendValid(b, SetStatusOp(OpBase(id, author, unixTime), Merged), baseValidate);
  }

  /** SetStatus: appends the change only when the operation is valid and the workflow of the
      ticket's compiled form `snap` allows the transition from its current status. */
  method SetStatus(b: Bug, snap: Snapshot, author: Identity, unixTime: int, status: Status, id: Id,
                   baseValidate: Operation -> Outcome, runHook: string -> Outcome)
    returns (r: Option<Operation>, err: Outcome)
    modifies b
    ensures var op := SetStatusOp(OpBase(id, author, unixTime), status);
      err == (if Validate(op, baseValidate).Fail? then Validate(op, baseValidate)
              else WorkflowOutcome(snap.labels, snap.status, status, runHook))
    ensures err.Pass? ==> r == Some(SetStatusOp(OpBase(id, author, unixTime), status)) && b.ops == old(b.ops) + [r.value]
    ensures err.Fail? ==> r == None && b.ops == old(b.ops)
  {
    var op := SetStatusOp(OpBase(id, author, unixTime), status);
    err := Validate(op, baseValidate);
    if err.Fail? {
      return None, err;
    }
    err := snap.ValidateTransition(status, runHook);
    if err.Fail? {
      return None, err;
    }
    b.Append(op);
    r := Some(op);
  }
}
