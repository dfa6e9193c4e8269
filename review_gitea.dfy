/** A Gitea pull request attached to a ticket as a review (bug/review/gitea.go): its reviews
    and commits, the timeline they form, incremental merging of fetched updates, and the
    per-reviewer and overall review verdicts. */
module GiteaReviews {
  import opened StrUtil
  import opened Identities
  import opened Latest

  /** A review comment; `update` marks a comment fetched as an update. */
  datatype Comment = Comment(body: string, path: string, lineNum: int, commitId: string, update: bool)

  /** The fields of a Gitea review the model keeps; `submitted` is in Unix seconds. */
  datatype RawReview = RawReview(reviewerEmail: string, state: string, body: string,
                                 commitId: string, stale: bool, submitted: int)

  datatype Review = Review(raw: RawReview, comments: seq<Comment>, author: Identity)

  /** A commit pushed to the pull request; `created` is in Unix seconds. */
  datatype Commit = Commit(sha: string, message: string, created: int, author: Identity)

  /** A timeline event: a review or a commit. */
  datatype Event = ReviewEvent(review: Review) | CommitEvent(commit: Commit)

  const StateApproved := "APPROVED"
  const StateRequestChanges := "REQUEST" + "_CHANGES"
  const StatePending := "PENDING"
  const StateComment := "COMMENT"

  function Timestamp(r: Review): int {
    r.raw.submitted
  }

  function Email(r: Review): string {
    r.raw.reviewerEmail
  }

  function AnyReview(r: Review): bool {
    true
  }

  predicate Approves(r: Review) {
    !r.raw.stale && r.raw.state == StateApproved
  }

  predicate Rejects(r: Review) {
    !r.raw.stale && r.raw.state == StateRequestChanges
  }

  /** GiteaReview.Status: the state, marked when stale, and the commit it applies to. */
  function ReviewStatus(r: Review): (s: string)
    ensures r.raw.stale ==> HasPrefix(s, "STALE[")
    ensures HasSuffix(s, " @ " + r.raw.commitId)
  {
    var tail := " @ " + r.raw.commitId;
    var head := if r.raw.stale then "STALE[" + r.raw.state + "]" else r.raw.state;
    assert (head + tail)[|head|..] == tail;
    assert r.raw.stale ==> (head + tail)[..6] == "STALE[";
    head + tail
  }

  /** The number of comments a review summary counts: its inline comments, plus its body
      when that is not empty. */
  function CommentCount(r: Review): nat {
    |r.comments| + if r.raw.body != "" then 1 else 0
  }

  /** GiteaReview.Summary. */
  function ReviewSummary(r: Review): string {
    (if r.raw.state != StateComment then "[" + r.raw.state + "] " else "") + CountText(CommentCount(r))
  }

  /** A summary is empty exactly for a plain comment review with no body and no inline
      comments. */
  lemma ReviewSummaryEmpty(r: Review)
    ensures ReviewSummary(r) == "" <==> r.raw.state == StateComment && r.comments == [] && r.raw.body == ""
  {
    if r.raw.state != StateComment {
      assert |ReviewSummary(r)| >= 3;
    }
    if CommentCount(r) > 0 {
      assert |CountText(CommentCount(r))| > 0;
    }
  }

  /** The events of a pull request: its reviews, then its commits, each in order. */
  function EventsOf(reviews: seq<Review>, commits: seq<Commit>): (es: seq<Event>)
    ensures |es| == |reviews| + |commits|
    ensures forall i :: 0 <= i < |reviews| ==> es[i] == ReviewEvent(reviews[i])
    ensures forall j :: 0 <= j < |commits| ==> es[|reviews| + j] == CommitEvent(commits[j])
  {
    seq(|reviews|, i requires 0 <= i < |reviews| => ReviewEvent(reviews[i]))
      + seq(|commits|, j requires 0 <= j < |commits| => CommitEvent(commits[j]))
  }

  /** Merging appends the update's reviews and commits, so every event of both sides is in the
      merged history, and nothing else. */
  lemma MergeEvents(r1: seq<Review>, c1: seq<Commit>, r2: seq<Review>, c2: seq<Commit>)
    ensures multiset(EventsOf(r1 + r2, c1 + c2)) == multiset(EventsOf(r1, c1)) + multiset(EventsOf(r2, c2))
  {
    var rs := seq(|r1 + r2|, i requires 0 <= i < |r1 + r2| => ReviewEvent((r1 + r2)[i]));
    var rs1 := seq(|r1|, i requires 0 <= i < |r1| => ReviewEvent(r1[i]));
    var rs2 := seq(|r2|, i requires 0 <= i < |r2| => ReviewEvent(r2[i]));
    var cs := seq(|c1 + c2|, j requires 0 <= j < |c1 + c2| => CommitEvent((c1 + c2)[j]));
    var cs1 := seq(|c1|, j requires 0 <= j < |c1| => CommitEvent(c1[j]));
    var cs2 := seq(|c2|, j requires 0 <= j < |c2| => CommitEvent(c2[j]));
    assert rs == rs1 + rs2;
    assert cs == cs1 + cs2;
    assert EventsOf(r1 + r2, c1 + c2) == rs + cs;
    assert EventsOf(r1, c1) == rs1 + cs1;
    assert EventsOf(r2, c2) == rs2 + cs2;
  }

  /** The text LatestOverallStatus prints for a verdict; `green` and `red` are the terminal
      colour wrappers. */
  function VerdictText(v: Verdict, green: string -> string, red: string -> string): string {
    match v
    case Approved => green(StateApproved)
    case ChangesRequested => red(StateRequestChanges)
    case Pending => StatePending
  }

  class GiteaInfo {
    var owner: string
    var repository: string
    var pullId: int
    var title: string
    var reviews: seq<Review>
    var commits: seq<Commit>

    constructor (owner: string, repository: string, pullId: int, title: string,
                 reviews: seq<Review>, commits: seq<Commit>)
      ensures this.owner == owner && this.repository == repository && this.pullId == pullId
      ensures this.title == title && this.reviews == reviews && this.commits == commits
    {
      this.owner := owner;
      this.repository := repository;
      this.pullId := pullId;
      this.title := title;
      this.reviews := reviews;
      this.commits := commits;
    }

    /** GiteaInfo.IsEmpty: no review and no commit, that is, no event in the history. */
    function IsEmpty(): (b: bool)
      reads this
      ensures b <==> EventsOf(reviews, commits) == []
    {
      |reviews| + |commits| == 0
    }

    /** GiteaInfo.History. */
    method History() returns (events: seq<Event>)
      ensures events == EventsOf(reviews, commits)
    {
      events := [];
      var i := 0;
      while i < |reviews|
        invariant 0 <= i <= |reviews| && |events| == i
        invariant forall k :: 0 <= k < i ==> events[k] == ReviewEvent(reviews[k])
      {
        events := events + [ReviewEvent(reviews[i])];
        i := i + 1;
      }
      var j := 0;
      while j < |commits|
        invariant 0 <= j <= |commits| && |events| == |reviews| + j
        invariant forall k :: 0 <= k < |reviews| ==> events[k] == ReviewEvent(reviews[k])
        invariant forall k :: 0 <= k < j ==> events[|reviews| + k] == CommitEvent(commits[k])
      {
        events := events + [CommitEvent(commits[j])];
        j := j + 1;
      }
    }

    /** GiteaInfo.Merge: a nil update does nothing; otherwise the pull request's metadata is
        taken from the update and its reviews and commits are appended. */
    method Merge(update: GiteaInfo?)
      modifies this
      ensures update == null ==> unchanged(this)
      ensures update != null ==>
        && owner == old(update.owner) && repository == old(update.repository)
        && pullId == old(update.pullId) && title == old(update.title)
        && reviews == old(reviews) + old(update.reviews)
        && commits == old(commits) + old(update.commits)
    {
      if update == null {
        return;
      }
      var u := update;
      var newReviews, newCommits := reviews + u.reviews, commits + u.commits;
      owner, repository, pullId, title := u.owner, u.repository, u.pullId, u.title;
      reviews, commits := newReviews, newCommits;
    }

    /** GiteaInfo.LatestUserStatuses: each reviewer's newest review, by e-mail. */
    method LatestUserStatuses() returns (m: map<string, Review>)
      ensures m == LatestOf(reviews, AnyReview, Email, Timestamp)
    {
      var idx: map<string, nat> := map[];
      m := map[];
      var i := 0;
      while i < |reviews|
        invariant 0 <= i <= |reviews|
        invariant idx == LatestIndex(reviews[..i], AnyReview, Email, Timestamp)
        invariant m == LatestOf(reviews[..i], AnyReview, Email, Timestamp)
      {
        LatestScanStep(reviews, i, AnyReview, Email, Timestamp, idx, m);
        var r := reviews[i];
        if Email(r) !in m || Timestamp(m[Email(r)]) < Timestamp(r) {
          m := m[Email(r) := r];
          idx := idx[Email(r) := i];
        }
        i := i + 1;
      }
      assert reviews[..i] == reviews;
    }

    /** GiteaInfo.LatestOverallStatus: the verdict over each reviewer's newest review. */
    method LatestOverallStatus(green: string -> string, red: string -> string) returns (s: string)
      ensures s == VerdictText(OverallVerdict(LatestOf(reviews, AnyReview, Email, Timestamp), Approves, Rejects), green, red)
    {
      var latest := LatestUserStatuses();
      var approved, rejected := false, false;
      var rest := latest.Keys;
      while rest != {}
        invariant rest <= latest.Keys
        invariant approved <==> exists e :: e in latest && e !in rest && Approves(latest[e])
        invariant rejected <==> exists e :: e in latest && e !in rest && Rejects(latest[e])
        decreases rest
      {
        var e :| e in rest;
        if Approves(latest[e]) {
          approved := true;
        } else if Rejects(latest[e]) {
          rejected := true;
        }
        rest := rest - {e};
      }
      if approved && !rejected {
        s := green(StateApproved);
      } else if rejected {
        s := red(StateRequestChanges);
      } else {
        s := StatePending;
      }
    }
  }

  /** After a merge every reviewer still has a latest review, never an older one than before. */
  lemma MergeKeepsLatest(before: seq<Review>, update: seq<Review>, email: string)
    requires email in LatestOf(before, AnyReview, Email, Timestamp)
    ensures email in LatestOf(before + update, AnyReview, Email, Timestamp)
    ensures Timestamp(LatestOf(before, AnyReview, Email, Timestamp)[email])
      <= Timestamp(LatestOf(before + update, AnyReview, Email, Timestamp)[email])
  {
    LatestAppend(before, update, AnyReview, Email, Timestamp, email);
  }
}
