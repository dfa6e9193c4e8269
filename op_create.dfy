/** The operation that creates a ticket (bug/op_create.go): it sets the title, the author and
    the first comment, and starts the timeline. */
module OpCreate {
  import opened Wrappers
  import opened Entity
  import opened Identities
  import opened Snapshots

  /** The first comment a create operation makes: the operation's id, its author, message
      and time; the attached files are not copied onto it. */
  function FirstComment(op: Operation): (c: Comment)
    requires op.CreateOp?
    ensures c.id == op.base.id && c.author == op.base.author && c.message == op.message
    ensures c.files == [] && !c.edited && c.unixTime == op.base.unixTime
  {
    Comment(op.base.id, op.base.author, op.message, [], false, op.base.unixTime)
  }

  /** CreateOperation.Apply: the snapshot afterwards holds exactly the first comment and one
      timeline item showing it; the author becomes an actor and a participant. */
  method Apply(op: Operation, snap: Snapshot)
    requires op.CreateOp?
    modifies snap`actors, snap`participants, snap`title, snap`comments, snap`author
    modifies snap`createTime, snap`timeline
    ensures snap.actors == WithIdentity(old(snap.actors), op.base.author)
    ensures snap.participants == WithIdentity(old(snap.participants), op.base.author)
    ensures snap.title == op.title && snap.author == Some(op.base.author)
    ensures snap.createTime == op.base.unixTime
    ensures snap.comments == [FirstComment(op)]
    ensures snap.timeline == [NewCommentItem(CreateKind, op.base.id, 0, FirstComment(op))]
  {
    snap.AddActor(op.base.author);
    snap.AddParticipant(op.base.author);
    snap.title := op.title;
    var comment := Comment(op.base.id, op.base.author, op.message, [], false, op.base.unixTime);
    snap.comments := [comment];
    snap.author := Some(op.base.author);
    snap.createTime := op.base.unixTime;
    snap.timeline := [NewCommentItem(CreateKind, op.base.id, 0, comment)];
  }

  /** CreateOperation.Validate: the common checks (`baseValidate`), then a non-empty,
      single-line, printable title and a printable message. `empty` and `safe` stand for
      text.Empty and text.Safe. */
  function Validate(op: Operation, baseValidate: Operation -> Outcome, empty: string -> bool, safe: string -> bool): (r: Outcome)
    requires op.CreateOp?
    ensures r.Pass? <==> (baseValidate(op).Pass? && !empty(op.title) && '\n' !in op.title
      && safe(op.title) && safe(op.message))
    ensures baseValidate(op).Fail? ==> r == baseValidate(op)
    ensures baseValidate(op).Pass? && empty(op.title) ==> r == Fail("title is empty")
    ensures baseValidate(op).Pass? && !empty(op.title) && '\n' in op.title ==> r == Fail("title should be a single line")
    ensures baseValidate(op).Pass? && !empty(op.title) && '\n' !in op.title && !safe(op.title) ==>
      r == Fail("title is not fully printable")
    ensures baseValidate(op).Pass? && !empty(op.title) && '\n' !in op.title && safe(op.title) && !safe(op.message) ==>
      r == Fail("message is not fully printable")
  {
    if baseValidate(op).Fail? then baseValidate(op)
    else if empty(op.title) then Fail("title is empty")
    else if '\n' in op.title then Fail("title should be a single line")
    else if !safe(op.title) then Fail("title is not fully printable")
    else if !safe(op.message) then Fail("message is not fully printable")
    else Pass
  }

  /** CreateWithFiles: builds the create operation (its id is supplied) and, when it is valid,
      a new ticket whose only operation it is; an invalid operation gives no ticket. */
  method CreateWithFiles(author: Identity, unixTime: int, title: string, message: string, files: seq<Hash>,
                         id: Id, baseValidate: Operation -> Outcome, empty: string -> bool, safe: string -> bool)
    returns (b: Bug?, op: Operation, err: Outcome)
    ensures op == CreateOp(OpBase(id, author, unixTime), title, message, files)
    ensures err == Validate(op, baseValidate, empty, safe)
    ensures err.Pass? <==> b != null
    ensures b != null ==> fresh(b) && b.ops == [op]
  {
    op := CreateOp(OpBase(id, author, unixTime), title, message, files);
    err := Validate(op, baseValidate, empty, safe);
    if err.Fail? {
      return null, op, err;
    }
    b := new Bug();
    b.Append(op);
  }
}
