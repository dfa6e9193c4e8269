/** The operation that attaches, updates or detaches a code review on a ticket
    (bug/op_set_review.go). An update is merged into the review already stored under the same
    id; every comment of every review event becomes a timeline item; detaching drops the
    review and its items. */
module OpSetReview {
  import opened Wrappers
  import opened Entity
  import opened Identities
  import opened Sorting
  import opened Snapshots
  import PullReview

  /** The timeline items of one review event: one per change it holds, in order, each with
      the event's author and time. */
  function EventItems(opId: Id, reviewId: string, e: PullReview.TimelineEvent): seq<TimelineItem> {
    seq(|e.changes|, i requires 0 <= i < |e.changes| => SetReviewItem(opId, e.author, e.timestamp, reviewId, e.changes[i]))
  }

  /** The items of a whole history, event after event. */
  function HistoryItems(opId: Id, reviewId: string, events: seq<PullReview.TimelineEvent>): seq<TimelineItem> {
    if events == [] then []
    else EventItems(opId, reviewId, events[0]) + HistoryItems(opId, reviewId, events[1..])
  }

  /** Every history item is a review item of this operation and this review, and each comment
      of each event appears. */
  lemma {:induction false} HistoryItemsMeaning(opId: Id, reviewId: string, events: seq<PullReview.TimelineEvent>)
    ensures forall t :: t in HistoryItems(opId, reviewId, events) ==>
      t.SetReviewItem? && t.id == opId && t.reviewId == reviewId
    ensures forall k, j :: 0 <= k < |events| && 0 <= j < |events[k].changes| ==>
      SetReviewItem(opId, events[k].author, events[k].timestamp, reviewId, events[k].changes[j])
        in HistoryItems(opId, reviewId, events)
  {
    if events != [] {
      HistoryItemsMeaning(opId, reviewId, events[1..]);
      var head := EventItems(opId, reviewId, events[0]);
      var tail := HistoryItems(opId, reviewId, events[1..]);
      forall k, j | 0 <= k < |events| && 0 <= j < |events[k].changes|
        ensures SetReviewItem(opId, events[k].author, events[k].timestamp, reviewId, events[k].changes[j]) in head + tail
      {
        if k == 0 {
          assert head[j] == SetReviewItem(opId, events[0].author, events[0].timestamp, reviewId, events[0].changes[j]);
        } else {
          assert events[k] == events[1..][k - 1];
        }
      }
    }
  }

  /** asTimeline: the items of one event. */
  method AsTimeline(opId: Id, reviewId: string, evt: PullReview.TimelineEvent) returns (items: seq<TimelineItem>)
    ensures |items| == |evt.changes|
    ensures forall i :: 0 <= i < |items| ==>
      items[i] == SetReviewItem(opId, evt.author, evt.timestamp, reviewId, evt.changes[i])
  {
    items := [];
    var i := 0;
    while i < |evt.changes|
      invariant 0 <= i <= |evt.changes| && |items| == i
      invariant forall j :: 0 <= j < i ==> items[j] == SetReviewItem(opId, evt.author, evt.timestamp, reviewId, evt.changes[j])
    {
      items := items + [SetReviewItem(opId, evt.author, evt.timestamp, reviewId, evt.changes[i])];
      i := i + 1;
    }
  }

  /** The history of a Gitea record: one event per review, in review order, as
      GiteaInfo.History returns it. */
  function Events(reviews: seq<PullReview.GiteaReview>): (r: seq<PullReview.TimelineEvent>)
    ensures |r| == |reviews| && forall i :: 0 <= i < |r| ==> r[i] == PullReview.AsEvent(reviews[i])
  {
    seq(|reviews|, i requires 0 <= i < |reviews| => PullReview.AsEvent(reviews[i]))
  }

  /** addToTimeline: the items of the payload's history are appended, then the whole
      timeline is ordered by time, keeping every item it held. */
  method AddToTimeline(opId: Id, reviewId: string, info: PullReview.GiteaInfo, snap: Snapshot)
    modifies snap`timeline
    ensures snap.timeline == SortBy(old(snap.timeline) + HistoryItems(opId, reviewId, Events(info.reviews)), When)
    ensures SortedBy(snap.timeline, When)
    ensures multiset(snap.timeline) == multiset(old(snap.timeline)) + multiset(HistoryItems(opId, reviewId, Events(info.reviews)))
  {
    var events := info.History();
    assert events == Events(info.reviews);
    var items := CollectItems(opId, reviewId, events);
    ghost var grown := snap.timeline + items;
    snap.timeline := SortBy(snap.timeline + items, When);
    SortBySorted(grown, When);
  }

  /** The loops of addToTimeline over the events and their items. */
  method CollectItems(opId: Id, reviewId: string, events: seq<PullReview.TimelineEvent>) returns (items: seq<TimelineItem>)
    ensures items == HistoryItems(opId, reviewId, events)
  {
    items := [];
    var k := 0;
    while k < |events|
      invariant 0 <= k <= |events|
      invariant items + HistoryItems(opId, reviewId, events[k..]) == HistoryItems(opId, reviewId, events)
    {
      assert events[k..][1..] == events[k + 1..];
      var more := AsTimeline(opId, reviewId, events[k]);
      assert more == EventItems(opId, reviewId, events[k]);
      items := items + more;
      k := k + 1;
    }
    assert items + HistoryItems(opId, reviewId, events[k..]) == items;
  }

  /** An item that removing review `reviewId` takes off the timeline. */
  predicate OfReview(t: TimelineItem, reviewId: string) {
    t.SetReviewItem? && t.reviewId == reviewId
  }

  /** The timeline without the items of review `reviewId`, in the same order. */
  function Pruned(timeline: seq<TimelineItem>, reviewId: string): seq<TimelineItem> {
    if timeline == [] then []
    else (if OfReview(timeline[0], reviewId) then [] else [timeline[0]]) + Pruned(timeline[1..], reviewId)
  }

  /** Pruning drops exactly the items of the review and keeps every other item. */
  lemma {:induction false} PrunedMeaning(timeline: seq<TimelineItem>, reviewId: string)
    ensures forall t :: t in Pruned(timeline, reviewId) <==> t in timeline && !OfReview(t, reviewId)
    ensures |Pruned(timeline, reviewId)| <= |timeline|
  {
    if timeline != [] {
      PrunedMeaning(timeline[1..], reviewId);
      assert timeline == [timeline[0]] + timeline[1..];
    }
  }

  /** Pruning keeps the timeline's order: an item that precedes another before still
      precedes it after. Sorting a pruned timeline is therefore unnecessary. */
  lemma {:induction false} PrunedKeepsSorted(timeline: seq<TimelineItem>, reviewId: string)
    requires SortedBy(timeline, When)
    ensures SortedBy(Pruned(timeline, reviewId), When)
  {
    if timeline != [] {
      var tail := timeline[1..];
      SortedByTail(timeline, When);
      PrunedKeepsSorted(tail, reviewId);
      PrunedMeaning(tail, reviewId);
      if !OfReview(timeline[0], reviewId) {
        SortedByCons(timeline[0], Pruned(tail, reviewId), When);
      }
    }
  }

  /** removeFromTimeline: keeps every item that is not one of this review's. */
  method RemoveFromTimeline(reviewId: string, snap: Snapshot)
    modifies snap`timeline
    ensures snap.timeline == Pruned(old(snap.timeline), reviewId)
  {
    var kept: seq<TimelineItem> := [];
    var timeline := snap.timeline;
    var i := 0;
    while i < |timeline|
      invariant 0 <= i <= |timeline|
      invariant kept + Pruned(timeline[i..], reviewId) == Pruned(timeline, reviewId)
    {
      assert timeline[i..][1..] == timeline[i + 1..];
      if !OfReview(timeline[i], reviewId) {
        kept := kept + [timeline[i]];
      }
      i := i + 1;
    }
    snap.timeline := kept;
  }

  /** The objects Apply may change besides the ticket: the record already stored under the
      review id, which an update is merged into. */
  function StoredInfo(reviews: map<string, PullReview.Pull>, reviewId: string): set<object> {
    if reviewId in reviews && reviews[reviewId].Gitea? then {reviews[reviewId].info} else {}
  }

  /** The store step of SetReviewOperation.Apply: a review not yet stored is stored as
      given; one already stored takes over every field of the update and stays stored. The
      update itself is left as it was. */
  method Store(reviewId: string, update: PullReview.GiteaInfo, snap: Snapshot)
    modifies snap`reviews, StoredInfo(snap.reviews, reviewId)
    ensures update.reviews == old(update.reviews)
    ensures reviewId !in old(snap.reviews) ==> snap.reviews == old(snap.reviews)[reviewId := PullReview.Gitea(update)]
    ensures reviewId in old(snap.reviews) ==> snap.reviews == old(snap.reviews)
    ensures reviewId in old(snap.reviews) && old(snap.reviews)[reviewId].Gitea? ==>
      var stored := old(snap.reviews)[reviewId].info;
      && stored.owner == old(update.owner) && stored.repository == old(update.repository)
      && stored.pullId == old(update.pullId) && stored.title == old(update.title)
      && stored.reviews == old(update.reviews)
  {
    if reviewId !in snap.reviews {
      snap.reviews := snap.reviews[reviewId := PullReview.Gitea(update)];
    } else {
      var r := snap.reviews[reviewId];
      if r.Gitea? {
        r.info.Merge(update);
      }
    }
  }

  /** SetReviewOperation.Apply. A removal marker deletes the review and its timeline items.
      Otherwise the update is stored (see Store) and its history joins the timeline, which
      ends up ordered by time. The author becomes an actor either way. */
  method Apply(op: Operation, snap: Snapshot)
    requires op.SetReviewOp?
    modifies snap`reviews, snap`timeline, snap`actors, StoredInfo(snap.reviews, PullReview.PullId(op.review))
    ensures snap.actors == WithIdentity(old(snap.actors), op.base.author)
    ensures op.review.Removal? ==>
      && snap.reviews == old(snap.reviews) - {op.review.reviewId}
      && snap.timeline == Pruned(old(snap.timeline), op.review.reviewId)
    ensures op.review.Gitea? ==>
      var id := old(op.review.info.Id());
      && snap.timeline == SortBy(old(snap.timeline) + HistoryItems(op.base.id, id, Events(old(op.review.info.reviews))), When)
      && (id !in old(snap.reviews) ==> snap.reviews == old(snap.reviews)[id := op.review])
      && (id in old(snap.reviews) ==> snap.reviews == old(snap.reviews))
  {
    var reviewId := PullReview.PullId(op.review);
    if op.review.Removal? {
      snap.reviews := snap.reviews - {reviewId};
      RemoveFromTimeline(reviewId, snap);
    } else {
      Store(reviewId, op.review.info, snap);
      AddToTimeline(op.base.id, reviewId, op.review.info, snap);
    }
    snap.AddActor(op.base.author);
  }

  /** SetReview: the operation is appended exactly when it is valid; SetReviewOperation.Validate
      makes only the checks common to every operation. */
  method SetReview(b: Bug, author: Identity, unixTime: int, review: PullReview.Pull, id: Id,
                   baseValidate: Operation -> Outcome)
    returns (op: Option<Operation>, err: Outcome)
    modifies b
    ensures err == baseValidate(SetReviewOp(OpBase(id, author, unixTime), review))
    ensures err.Pass? ==> op == Some(SetReviewOp(OpBase(id, author, unixTime), review)) && b.ops == old(b.ops) + [op.value]
    ensures err.Fail? ==> op == None && b.ops == old(b.ops)
  {
    var o := SetReviewOp(OpBase(id, author, unixTime), review);
    err := baseValidate(o);
    if err.Fail? {
      return None, err;
    }
    b.Append(o);
    op := Some(o);
  }
}
