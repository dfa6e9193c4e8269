/** The operation that adds a comment to a ticket (bug/op_add_comment.go). */
module OpAddComment {
  import opened Wrappers
  import opened Entity
  import opened Identities
  import opened Snapshots

  /** The comment an add-comment operation appends: not edited, carrying the operation's id,
      author, message, files and time. */
  function NewComment(op: Operation): (c: Comment)
    requires op.AddCommentOp?
    ensures c.id == op.base.id && c.author == op.base.author && c.message == op.message
    ensures c.files == op.files && !c.edited && c.unixTime == op.base.unixTime
  {
    Comment(op.base.id, op.base.author, op.message, op.files, false, op.base.unixTime)
  }

  /** AddCommentOperation.Apply: one comment at the end, earlier ones untouched, and one
      timeline item pointing at it; the author becomes an actor and a participant. */
  method Apply(op: Operation, snap: Snapshot)
    requires op.AddCommentOp?
    modifies snap`actors, snap`participants, snap`comments, snap`timeline
    ensures snap.actors == WithIdentity(old(snap.actors), op.base.author)
    ensures snap.participants == WithIdentity(old(snap.participants), op.base.author)
    ensures snap.comments == old(snap.comments) + [NewComment(op)]
    ensures snap.timeline == old(snap.timeline) + [NewCommentItem(AddCommentKind, op.base.id, |snap.comments| - 1, NewComment(op))]
  {
    snap.AddActor(op.base.author);
    snap.AddParticipant(op.base.author);
    var comment := Comment(op.base.id, op.base.author, op.message, op.files, false, op.base.unixTime);
    snap.comments := snap.comments + [comment];
    snap.timeline := snap.timeline + [NewCommentItem(AddCommentKind, op.base.id, |snap.comments| - 1, comment)];
  }

  /** The item an add-comment operation appends points at the comment it added. */
  lemma ItemPointsAtComment(comments: seq<Comment>, op: Operation)
    requires op.AddCommentOp?
    ensures var cs := comments + [NewComment(op)];
      var t := NewCommentItem(AddCommentKind, op.base.id, |cs| - 1, NewComment(op));
      0 <= t.index < |cs| && cs[t.index].id == t.id && cs[t.index].message == t.message
  {
  }

  /** AddCommentOperation.Validate: the common checks, then a printable message. */
  function Validate(op: Operation, baseValidate: Operation -> Outcome, safe: string -> bool): (r: Outcome)
    requires op.AddCommentOp?
    ensures r.Pass? <==> baseValidate(op).Pass? && safe(op.message)
    ensures baseValidate(op).Fail? ==> r == baseValidate(op)
    ensures baseValidate(op).Pass? && !safe(op.message) ==> r == Fail("message is not fully printable")
  {
    if baseValidate(op).Fail? then baseValidate(op)
    else if !safe(op.message) then Fail("message is not fully printable")
    else Pass
  }

  /** AddCommentWithFiles: appends the operation to the ticket only when it is valid. */
  method AddCommentWithFiles(b: Bug, author: Identity, unixTime: int, message: string, files: seq<Hash>,
                             id: Id, baseValidate: Operation -> Outcome, safe: string -> bool)
    returns (op: Option<Operation>, err: Outcome)
    modifies b
    ensures err == Validate(AddCommentOp(OpBase(id, author, unixTime), message, files), baseValidate, safe)
    ensures err.Pass? ==> (op == Some(AddCommentOp(OpBase(id, author, unixTime), message, files))
      && b.ops == old(b.ops) + [op.value])
    ensures err.Fail? ==> op == None && b.ops == old(b.ops)
  {
    var o := AddCommentOp(OpBase(id, author, unixTime), message, files);
    err := Validate(o, baseValidate, safe);
    if err.Fail? {
      return None, err;
    }
    b.Append(o);
    op := Some(o);
  }
}
