/** The operation that sets a ticket's assignee (bug/op_set_assignee.go). */
module OpSetAssignee {
  import opened Wrappers
  import opened Entity
  import opened Identities
  import opened Snapshots

  /** SetAssigneeOperation.Apply: the assignee is overwritten (`None` unassigns); the author,
      not the assignee, becomes an actor; one timeline item carries the same assignee. */
  method Apply(op: Operation, snap: Snapshot)
    requires op.SetAssigneeOp?
    modifies snap`assignee, snap`actors, snap`timeline
    ensures snap.assignee == op.assignee
    ensures snap.actors == WithIdentity(old(snap.actors), op.base.author)
    ensures snap.timeline == old(snap.timeline) + [SetAssigneeItem(op.base.id, op.base.author, op.base.unixTime, op.assignee)]
  {
    snap.assignee := op.assignee;
    snap.AddActor(op.base.author);
    snap.timeline := snap.timeline + [SetAssigneeItem(op.base.id, op.base.author, op.base.unixTime, op.assignee)];
  }

  /** SetAssignee: the operation has only the common checks; it is appended exactly once
      when they pass. */
  method SetAssignee(b: Bug, author: Identity, unixTime: int, assignee: Option<Identity>, id: Id,
                     baseValidate: Operation -> Outcome)
    returns (r: Option<Operation>, err: Outcome)
    modifies b
    ensures err == baseValidate(SetAssigneeOp(OpBase(id, author, unixTime), assignee))
    ensures err.Pass? ==> r == Some(SetAssigneeOp(OpBase(id, author, unixTime), assignee)) && b.ops == old(b.ops) + [r.value]
    ensures err.Fail? ==> r == None && b.ops == old(b.ops)
  {
    var op := SetAssigneeOp(OpBase(id, author, unixTime), assignee);
    err := baseValidate(op);
    if err.Fail? {
      return None, err;
    }
    b.Append(op);
    r := Some(op);
  }
}
