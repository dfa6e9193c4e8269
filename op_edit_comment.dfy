/** The operation that edits a comment of a ticket (bug/op_edit_comment.go). */
module OpEditComment {
  import opened Wrappers
  import opened Entity
  import opened Identities
  import opened Snapshots

  /** Index of the first comment with the id. */
  function FindComment(cs: seq<Comment>, target: Id): (r: Option<nat>)
    ensures r.Some? ==> r.value < |cs| && cs[r.value].id == target
    ensures r.Some? ==> forall j :: 0 <= j < r.value ==> cs[j].id != target
    ensures r.None? ==> forall j :: 0 <= j < |cs| ==> cs[j].id != target
  {
    if cs == [] then None
    else if cs[0].id == target then Some(0)
    else match FindComment(cs[1..], target)
      case None => None
      case Some(k) => Some(k + 1)
  }

  /** The comments after an edit: only the first comment with the target id changes, taking
      the new message and files and being marked edited; without such a comment nothing
      changes. */
  function EditedComments(cs: seq<Comment>, target: Id, message: string, files: seq<Hash>): (r: seq<Comment>)
    ensures |r| == |cs|
    ensures forall j :: 0 <= j < |cs| && FindComment(cs, target) != Some(j) ==> r[j] == cs[j]
    ensures FindComment(cs, target).Some? ==>
      var i := FindComment(cs, target).value;
      r[i].id == target && r[i].author == cs[i].author && r[i].unixTime == cs[i].unixTime
      && r[i].message == message && r[i].files == files && r[i].edited
  {
    match FindComment(cs, target)
    case None => cs
    case Some(i) => cs[i := cs[i].(message := message, files := files, edited := true)]
  }

  /** The comment the edit's timeline item shows: the target id with the operation's
      author, message, files and time, marked edited. */
  function ShownComment(op: Operation): Comment
    requires op.EditCommentOp?
  {
    Comment(op.target, op.base.author, op.message, op.files, true, op.base.unixTime)
  }

  /** The comment index the timeline item records: the edited comment's, 0 when none
      matched. */
  function EditIndex(cs: seq<Comment>, target: Id): nat {
    match FindComment(cs, target)
    case None => 0
    case Some(i) => i
  }

  /** EditCommentOperation.Apply: edits the first matching comment and appends one timeline
      item; the author becomes an actor but not a participant. */
  method Apply(op: Operation, snap: Snapshot)
    requires op.EditCommentOp?
    modifies snap`actors, snap`comments, snap`timeline
    ensures snap.actors == WithIdentity(old(snap.actors), op.base.author)
    ensures snap.comments == EditedComments(old(snap.comments), op.target, op.message, op.files)
    ensures snap.timeline == old(snap.timeline)
      + [NewCommentItem(EditCommentKind, op.base.id, EditIndex(old(snap.comments), op.target), ShownComment(op))]
  {
    snap.AddActor(op.base.author);
    var comment := Comment(op.target, op.base.author, op.message, op.files, true, op.base.unixTime);
    ghost var cs := snap.comments;
    var index := 0;
    var i := 0;
    while i < |snap.comments|
      invariant 0 <= i <= |snap.comments| && snap.comments == cs
      invariant forall j :: 0 <= j < i ==> cs[j].id != op.target
    {
      if snap.comments[i].id == op.target {
        snap.comments := snap.comments[i := snap.comments[i].(message := op.message, files := op.files, edited := true)];
        index := i;
        break;
      }
      i := i + 1;
    }
    snap.timeline := snap.timeline + [NewCommentItem(EditCommentKind, op.base.id, index, comment)];
  }

  /** EditCommentOperation.Validate: the common checks, then a valid target id (`validateId`
      stands for entity.Id.Validate), then a printable message. */
  function Validate(op: Operation, baseValidate: Operation -> Outcome, validateId: Id -> Outcome, safe: string -> bool): (r: Outcome)
    requires op.EditCommentOp?
    ensures r.Pass? <==> baseValidate(op).Pass? && validateId(op.target).Pass? && safe(op.message)
    ensures baseValidate(op).Fail? ==> r == baseValidate(op)
    ensures baseValidate(op).Pass? && validateId(op.target).Fail? ==>
      r == Fail("target hash is invalid: " + validateId(op.target).msg)
    ensures baseValidate(op).Pass? && validateId(op.target).Pass? && !safe(op.message) ==>
      r == Fail("message is not fully printable")
  {
    if baseValidate(op).Fail? then baseValidate(op)
    else if validateId(op.target).Fail? then Fail("target hash is invalid: " + validateId(op.target).msg)
    else if !safe(op.message) then Fail("message is not fully printable")
    else Pass
  }

  /** EditCommentWithFiles: appends the operation to the ticket only when it is valid. */
  method EditCommentWithFiles(b: Bug, author: Identity, unixTime: int, target: Id, message: string, files: seq<Hash>,
                              id: Id, baseValidate: Operation -> Outcome, validateId: Id -> Outcome, safe: string -> bool)
    returns (op: Option<Operation>, err: Outcome)
    modifies b
    ensures err == Validate(EditCommentOp(OpBase(id, author, unixTime), target, message, files), baseValidate, validateId, safe)
    ensures err.Pass? ==> (op == Some(EditCommentOp(OpBase(id, author, unixTime), target, message, files))
      && b.ops == old(b.ops) + [op.value])
    ensures err.Fail? ==> op == None && b.ops == old(b.ops)
  {
    var o := EditCommentOp(OpBase(id, author, unixTime), target, message, files);
    err := Validate(o, baseValidate, validateId, safe);
    if err.Fail? {
      return None, err;
    }
    b.Append(o);
    op := Some(o);
  }

  /** EditCreateComment: edits the ticket's first comment, the one its create operation
      made, without attaching files. The ticket's first operation must be its create
      operation. */
  method EditCreateComment(b: Bug, author: Identity, unixTime: int, message: string,
                           id: Id, baseValidate: Operation -> Outcome, validateId: Id -> Outcome, safe: string -> bool)
    returns (op: Option<Operation>, err: Outcome)
    requires |b.ops| > 0 && b.ops[0].CreateOp?
    modifies b
    ensures op.Some? ==> op.value.EditCommentOp? && op.value.target == old(b.ops[0].base.id) && op.value.files == []
    ensures err.Pass? <==> op.Some?
    ensures err.Pass? ==> b.ops == old(b.ops) + [op.value]
    ensures err.Fail? ==> b.ops == old(b.ops)
  {
    op, err := EditCommentWithFiles(b, author, unixTime, b.ops[0].base.id, message, [], id, baseValidate, validateId, safe);
  }
}
