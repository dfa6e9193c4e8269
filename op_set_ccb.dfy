/** The operation that adds a user to a ticket's change control board (CCB), removes them,
    or records their approval or block (bug/op_set_ccb.go). A user is looked up by identity
    only: the status an entry is attached to plays no part in the lookup. */
module OpSetCcb {
  import opened Wrappers
  import opened Entity
  import opened Identities
  import opened Snapshots

  /** The position of the last entry for `user`, as the scan over the board finds it. */
  function LastIndexOfUser(ccb: seq<CcbInfo>, user: Id): (r: Option<nat>)
    ensures r.Some? ==> (r.value < |ccb| && ccb[r.value].user.id == user
      && forall j :: r.value < j < |ccb| ==> ccb[j].user.id != user)
    ensures r.None? <==> forall j :: 0 <= j < |ccb| ==> ccb[j].user.id != user
  {
    if ccb == [] then None
    else if ccb[|ccb| - 1].user.id == user then Some(|ccb| - 1)
    else LastIndexOfUser(ccb[..|ccb| - 1], user)
  }

  /** The scan of SetCcbOperation.Apply that finds whether, and where, the user sits on the
      board. */
  method FindUser(ccb: seq<CcbInfo>, user: Id) returns (inCcb: bool, index: nat)
    ensures inCcb <==> LastIndexOfUser(ccb, user).Some?
    ensures inCcb ==> index == LastIndexOfUser(ccb, user).value
  {
    inCcb, index := false, 0;
    var i := 0;
    while i < |ccb|
      invariant 0 <= i <= |ccb|
      invariant inCcb <==> LastIndexOfUser(ccb[..i], user).Some?
      invariant inCcb ==> index == LastIndexOfUser(ccb[..i], user).value
    {
      assert ccb[..i + 1][..i] == ccb[..i];
      if ccb[i].user.id == user {
        inCcb, index := true, i;
      }
      i := i + 1;
    }
    assert ccb[..i] == ccb;
  }

  /** The board after the operation, or None when the operation changes nothing at all
      (adding a member already there, or acting on a user who is not on the board). A state
      outside the four known ones leaves the board as it is but still counts as applied. */
  function CcbApplied(ccb: seq<CcbInfo>, info: CcbInfo): Option<seq<CcbInfo>> {
    var at := LastIndexOfUser(ccb, info.user.id);
    if info.state == AddedCcbState then
      if at.Some? then None else Some(ccb + [info])
    else if info.state == RemovedCcbState then
      if at.None? then None else Some(ccb[..at.value] + ccb[at.value + 1..])
    else if info.state == ApprovedCcbState || info.state == BlockedCcbState then
      if at.None? then None else Some(ccb[at.value := ccb[at.value].(state := info.state)])
    else Some(ccb)
  }

  /** SetCcbOperation.Apply: when the operation applies, the board becomes CcbApplied's,
      the author becomes an actor and one timeline item records it; otherwise the ticket is
      left untouched. */
  method Apply(op: Operation, snap: Snapshot)
    requires op.SetCcbOp?
    modifies snap`ccb, snap`actors, snap`timeline
    ensures CcbApplied(old(snap.ccb), op.ccb).None? ==>
      snap.ccb == old(snap.ccb) && snap.actors == old(snap.actors) && snap.timeline == old(snap.timeline)
    ensures CcbApplied(old(snap.ccb), op.ccb).Some? ==>
      && snap.ccb == CcbApplied(old(snap.ccb), op.ccb).value
      && snap.actors == WithIdentity(old(snap.actors), op.base.author)
      && snap.timeline == old(snap.timeline) + [SetCcbItem(op.base.id, op.base.author, op.base.unixTime, op.ccb)]
  {
    var inCcb, index := FindUser(snap.ccb, op.ccb.user.id);
    if op.ccb.state == AddedCcbState {
      if inCcb {
        return;
      }
      snap.ccb := snap.ccb + [op.ccb];
    } else if op.ccb.state == RemovedCcbState {
      if !inCcb {
        return;
      }
      snap.ccb := snap.ccb[..index] + snap.ccb[index + 1..];
    } else if op.ccb.state == ApprovedCcbState {
      if !inCcb {
        return;
      }
      snap.ccb := snap.ccb[index := snap.ccb[index].(state := ApprovedCcbState)];
    } else if op.ccb.state == BlockedCcbState {
      if !inCcb {
        return;
      }
      snap.ccb := snap.ccb[index := snap.ccb[index].(state := BlockedCcbState)];
    }
    snap.AddActor(op.base.author);
    snap.timeline := snap.timeline + [SetCcbItem(op.base.id, op.base.author, op.base.unixTime, op.ccb)];
  }

  /** No user holds two entries on the board. */
  predicate OnePerUser(ccb: seq<CcbInfo>) {
    forall i, j :: 0 <= i < j < |ccb| ==> ccb[i].user.id != ccb[j].user.id
  }

  /** `user` has an entry on the board. */
  predicate OnBoard(ccb: seq<CcbInfo>, user: Id) {
    exists i :: 0 <= i < |ccb| && ccb[i].user.id == user
  }

  /** The operation keeps every user to at most one entry. */
  lemma AppliedOnePerUser(ccb: seq<CcbInfo>, info: CcbInfo)
    requires OnePerUser(ccb)
    ensures CcbApplied(ccb, info).Some? ==> OnePerUser(CcbApplied(ccb, info).value)
  {
    var at := LastIndexOfUser(ccb, info.user.id);
    if info.state == RemovedCcbState && at.Some? {
      var r := ccb[..at.value] + ccb[at.value + 1..];
      forall i, j | 0 <= i < j < |r|
        ensures r[i].user.id != r[j].user.id
      {
        var i' := if i < at.value then i else i + 1;
        var j' := if j < at.value then j else j + 1;
        assert r[i] == ccb[i'] && r[j] == ccb[j'];
      }
    }
  }

  /** What each kind of operation means for the user it names, on a board with one entry per
      user: after an addition they are on the board with the added entry, after a removal
      they are not, after an approval or a block their entry carries that state; nobody
      else's entry changes except by position. The operation is a no-op exactly when adding
      someone already on the board or acting on someone who is not. */
  lemma AppliedMeaning(ccb: seq<CcbInfo>, info: CcbInfo)
    requires OnePerUser(ccb)
    ensures info.state == AddedCcbState ==>
      (CcbApplied(ccb, info).None? <==> OnBoard(ccb, info.user.id))
    ensures info.state in {RemovedCcbState, ApprovedCcbState, BlockedCcbState} ==>
      (CcbApplied(ccb, info).None? <==> !OnBoard(ccb, info.user.id))
    ensures info.state == AddedCcbState && CcbApplied(ccb, info).Some? ==>
      var r := CcbApplied(ccb, info).value;
      r[|r| - 1] == info && r[..|ccb|] == ccb
    ensures info.state == RemovedCcbState && CcbApplied(ccb, info).Some? ==>
      var r := CcbApplied(ccb, info).value;
      !OnBoard(r, info.user.id) && |r| == |ccb| - 1
      && forall c :: c in ccb && c.user.id != info.user.id ==> c in r
    ensures (info.state == ApprovedCcbState || info.state == BlockedCcbState) && CcbApplied(ccb, info).Some? ==>
      var r := CcbApplied(ccb, info).value;
      |r| == |ccb|
      && forall i :: 0 <= i < |ccb| ==>
        if ccb[i].user.id == info.user.id then r[i] == ccb[i].(state := info.state) else r[i] == ccb[i]
  {
    var at := LastIndexOfUser(ccb, info.user.id);
    if at.Some? {
      assert OnBoard(ccb, info.user.id);
    }
    if info.state == RemovedCcbState && at.Some? {
      var k := at.value;
      var r := ccb[..k] + ccb[k + 1..];
      forall i | 0 <= i < |r|
        ensures r[i].user.id != info.user.id
      {
        var i' := if i < k then i else i + 1;
        assert r[i] == ccb[i'];
      }
      forall c | c in ccb && c.user.id != info.user.id
        ensures c in r
      {
        var i :| 0 <= i < |ccb| && ccb[i] == c;
        if i < k {
          assert r[i] == c;
        } else {
          assert i != k;
          assert r[i - 1] == c;
        }
      }
    }
  }

  /** The board after a sequence of CCB operations replayed in order. */
  function Replay(ccb: seq<CcbInfo>, infos: seq<CcbInfo>): seq<CcbInfo>
    decreases |infos|
  {
    if infos == [] then ccb
    else
      var next := match CcbApplied(ccb, infos[0])
        case None => ccb
        case Some(c) => c;
      Replay(next, infos[1..])
  }

  /** However many CCB operations a ticket holds, compiling them never gives a user two
      entries on the board. */
  lemma {:induction false} ReplayOnePerUser(ccb: seq<CcbInfo>, infos: seq<CcbInfo>)
    requires OnePerUser(ccb)
    ensures OnePerUser(Replay(ccb, infos))
    decreases |infos|
  {
    if infos != [] {
      AppliedOnePerUser(ccb, infos[0]);
      var next := match CcbApplied(ccb, infos[0])
        case None => ccb
        case Some(c) => c;
      ReplayOnePerUser(next, infos[1..]);
    }
  }

  /** NewSetCcbOp: the entry names the user and the state; the status it is attached to is
      not set, so it holds Go's zero value. */
  function NewSetCcbOp(author: Identity, unixTime: int, user: Identity, state: CcbState, id: Id): (op: Operation)
    ensures op.SetCcbOp? && op.ccb.user == user && op.ccb.state == state && op.ccb.status == 0
  {
    SetCcbOp(OpBase(id, author, unixTime), CcbInfo(user, 0, state))
  }

  /** SetCcb: the operation is appended exactly when it is valid; SetCcbOperation.Validate
      makes only the checks common to every operation. */
  method SetCcb(b: Bug, author: Identity, unixTime: int, user: Identity, state: CcbState, id: Id,
                baseValidate: Operation -> Outcome)
    returns (op: Option<Operation>, err: Outcome)
    modifies b
    ensures err == baseValidate(NewSetCcbOp(author, unixTime, user, state, id))
    ensures err.Pass? ==> op == Some(NewSetCcbOp(author, unixTime, user, state, id)) && b.ops == old(b.ops) + [op.value]
    ensures err.Fail? ==> op == None && b.ops == old(b.ops)
  {
    var o := NewSetCcbOp(author, unixTime, user, state, id);
    err := baseValidate(o);
    if err.Fail? {
      return None, err;
    }
    b.Append(o);
    op := Some(o);
  }
}
