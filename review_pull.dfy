/** The older Gitea pull-request record (commands/review/gitea.go) that the review operation
    of a ticket carries, and the removal marker that takes its place when a review is detached
    from a ticket (commands/review/remove.go). */
module PullReview {
  import opened StrUtil
  import opened Identities
  import opened Latest

  /** The fields of a Gitea review comment the model keeps. */
  datatype ReviewComment = ReviewComment(body: string, path: string, lineNum: int, commitId: string)

  /** The fields of a Gitea review the model keeps; `submitted` is in Unix seconds. */
  datatype RawReview = RawReview(reviewerEmail: string, reviewerName: string, state: string,
                                 commitId: string, stale: bool, submitted: int)

  datatype GiteaReview = GiteaReview(raw: RawReview, comments: seq<ReviewComment>, author: Identity)

  /** A review event as the ticket timeline sees it: who, when, and the changes it holds. */
  datatype TimelineEvent = TimelineEvent(author: Identity, timestamp: int, changes: seq<ReviewComment>)

  const StateApproved := "APPROVED"
  const StateRequestChanges := "REQUEST" + "_CHANGES"
  const StatePending := "PENDING"

  function Timestamp(r: GiteaReview): int {
    r.raw.submitted
  }

  function Email(r: GiteaReview): string {
    r.raw.reviewerEmail
  }

  function AnyReview(r: GiteaReview): bool {
    true
  }

  /** GiteaReview.Status: the state and the commit reviewed, the state marked when stale. */
  function Status(r: GiteaReview): string {
    if r.raw.stale then "STALE[" + r.raw.state + "] @ " + r.raw.commitId
    else r.raw.state + " @ " + r.raw.commitId
  }

  /** A review seen as a timeline event; its changes are its comments, in order. */
  function AsEvent(r: GiteaReview): TimelineEvent {
    TimelineEvent(r.author, Timestamp(r), r.comments)
  }

  predicate Approves(r: GiteaReview) {
    !r.raw.stale && r.raw.state == StateApproved
  }

  predicate Rejects(r: GiteaReview) {
    !r.raw.stale && r.raw.state == StateRequestChanges
  }

  /** The text LatestOverallStatus prints for a verdict; `green` and `red` are the terminal
      colour wrappers. */
  function VerdictText(v: Verdict, green: string -> string, red: string -> string): string {
    match v
    case Approved => green(StateApproved)
    case ChangesRequested => red(StateRequestChanges)
    case Pending => StatePending
  }

  class GiteaInfo {
    var owner: string
    var repository: string
    var pullId: int
    var title: string
    var reviews: seq<GiteaReview>

    constructor (owner: string, repository: string, pullId: int, title: string, reviews: seq<GiteaReview>)
      ensures this.owner == owner && this.repository == repository && this.pullId == pullId
      ensures this.title == title && this.reviews == reviews
    {
      this.owner := owner;
      this.repository := repository;
      this.pullId := pullId;
      this.title := title;
      this.reviews := reviews;
    }

    /** GiteaInfo.Id: "owner/repo/pulls/N". */
    function Id(): string
      reads this
    {
      owner + "/" + repository + "/pulls/" + Itoa(pullId)
    }

    /** GiteaInfo.IsEmpty: an older record is never empty. */
    function IsEmpty(): (b: bool)
      ensures !b
    {
      false
    }

    /** GiteaInfo.History: one event per review, in review order. */
    method History() returns (events: seq<TimelineEvent>)
      ensures |events| == |reviews|
      ensures forall i :: 0 <= i < |reviews| ==> events[i] == AsEvent(reviews[i])
    {
      events := [];
      var i := 0;
      while i < |reviews|
        invariant 0 <= i <= |reviews| && |events| == i
        invariant forall j :: 0 <= j < i ==> events[j] == AsEvent(reviews[j])
      {
        events := events + [AsEvent(reviews[i])];
        i := i + 1;
      }
    }

    /** GiteaInfo.Merge: a nil update does nothing; otherwise every field, the reviews
        included, is replaced by the update's. */
    method Merge(update: GiteaInfo?)
      modifies this
      ensures update == null ==> unchanged(this)
      ensures update != null ==>
        && owner == old(update.owner) && repository == old(update.repository)
        && pullId == old(update.pullId) && title == old(update.title) && reviews == old(update.reviews)
    {
      if update == null {
        return;
      }
      var u := update;
      owner, repository, pullId, title, reviews := u.owner, u.repository, u.pullId, u.title, u.reviews;
    }

    /** GiteaInfo.LatestUserStatuses: each reviewer's newest review, by e-mail. */
    method LatestUserStatuses() returns (m: map<string, GiteaReview>)
      ensures m == LatestOf(reviews, AnyReview, Email, Timestamp)
    {
      var idx: map<string, nat> := map[];
      m := map[];
      var i := 0;
      while i < |reviews|
        invariant 0 <= i <= |reviews|
        invariant idx == LatestIndex(reviews[..i], AnyReview, Email, Timestamp)
        invariant m == LatestOf(reviews[..i], AnyReview, Email, Timestamp)
      {
        LatestScanStep(reviews, i, AnyReview, Email, Timestamp, idx, m);
        var r := reviews[i];
        if Email(r) !in m || Timestamp(m[Email(r)]) < Timestamp(r) {
          m := m[Email(r) := r];
          idx := idx[Email(r) := i];
        }
        i := i + 1;
      }
      assert reviews[..i] == reviews;
    }

    /** GiteaInfo.LatestOverallStatus: the verdict over each reviewer's newest review. */
    method LatestOverallStatus(green: string -> string, red: string -> string) returns (s: string)
      ensures s == VerdictText(OverallVerdict(LatestOf(reviews, AnyReview, Email, Timestamp), Approves, Rejects), green, red)
    {
      var latest := LatestUserStatuses();
      var approved, rejected := false, false;
      var rest := latest.Keys;
      while rest != {}
        invariant rest <= latest.Keys
        invariant approved <==> exists e :: e in latest && e !in rest && Approves(latest[e])
        invariant rejected <==> exists e :: e in latest && e !in rest && Rejects(latest[e])
        decreases rest
      {
        var e :| e in rest;
        if Approves(latest[e]) {
          approved := true;
        } else if Rejects(latest[e]) {
          rejected := true;
        }
        rest := rest - {e};
      }
      if approved && !rejected {
        s := green(StateApproved);
      } else if rejected {
        s := red(StateRequestChanges);
      } else {
        s := StatePending;
      }
    }
  }

  /** The id names its parts: when owner and repository hold no '/', splitting the id at '/'
      gives them back with the pull number. */
  lemma IdParts(g: GiteaInfo)
    requires '/' !in g.owner && '/' !in g.repository
    ensures Split(g.Id(), '/') == [g.owner, g.repository, "pulls", Itoa(g.pullId)]
  {
    SplitPullPath(g.owner, g.repository, Itoa(g.pullId));
  }

  lemma SplitPullPath(owner: string, repository: string, n: string)
    requires '/' !in owner && '/' !in repository && '/' !in n
    ensures Split(owner + "/" + repository + "/pulls/" + n, '/') == [owner, repository, "pulls", n]
  {
    var pulls := "pulls";
    PullsSegment(pulls);
    var parts := [owner, repository, pulls, n];
    JoinSplit(parts, '/');
    assert [n][0] == n;
    JoinCons(pulls, [n], "/");
    JoinCons(repository, [pulls, n], "/");
    JoinCons(owner, [repository, pulls, n], "/");
    PullPathShape(owner, repository, n);
  }

  lemma PullsSegment(pulls: string)
    requires pulls == "pulls"
    ensures '/' !in pulls
  {
    assert forall i :: 0 <= i < |pulls| ==> pulls[i] != '/';
  }

  lemma PullPathShape(owner: string, repository: string, n: string)
    ensures owner + "/" + repository + "/pulls/" + n == owner + "/" + (repository + "/" + ("pulls" + "/" + n))
  {
    assert "/pulls/" == "/" + "pulls" + "/";
  }

  /** Each reviewer keeps exactly one newest review: the first, in list order, of their
      latest submissions. */
  lemma LatestReviewIsNewest(reviews: seq<GiteaReview>, email: string)
    ensures email in LatestOf(reviews, AnyReview, Email, Timestamp)
      <==> exists i :: 0 <= i < |reviews| && Email(reviews[i]) == email
    ensures email in LatestOf(reviews, AnyReview, Email, Timestamp) ==>
      exists i :: FirstNewest(reviews, AnyReview, Email, Timestamp, email, i)
        && LatestOf(reviews, AnyReview, Email, Timestamp)[email] == reviews[i]
  {
    LatestIndexSpec(reviews, AnyReview, Email, Timestamp);
    var idx := LatestIndex(reviews, AnyReview, Email, Timestamp);
    if exists i :: 0 <= i < |reviews| && Email(reviews[i]) == email {
      var i :| 0 <= i < |reviews| && Email(reviews[i]) == email;
      assert Candidate(reviews, AnyReview, Email, email, i);
    }
    if email in idx {
      assert FirstNewest(reviews, AnyReview, Email, Timestamp, email, idx[email]);
    }
  }

  /** A review operation's payload: a Gitea pull request, or the marker that removes one. */
  datatype Pull = Gitea(info: GiteaInfo) | Removal(reviewId: string)

  /** Pull.Id; the marker's id is the id of the review it removes. */
  function PullId(p: Pull): (r: string)
    reads if p.Gitea? then {p.info} else {}
    ensures p.Removal? ==> r == p.reviewId
    ensures p.Gitea? && '/' !in p.info.owner && '/' !in p.info.repository ==>
      Split(r, '/') == [p.info.owner, p.info.repository, "pulls", Itoa(p.info.pullId)]
  {
    match p
    case Gitea(info) =>
      assert '/' !in info.owner && '/' !in info.repository ==>
        Split(info.Id(), '/') == [info.owner, info.repository, "pulls", Itoa(info.pullId)] by {
        if '/' !in info.owner && '/' !in info.repository {
          IdParts(info);
        }
      }
      info.Id()
    case Removal(id) => id
  }
}
