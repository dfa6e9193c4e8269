/** A Phabricator revision attached to a ticket as a review (bug/review/phabricator.go): its
    transactions, grouped into timeline events by timestamp, the latest overall and per-user
    statuses, the summaries shown on the timeline, and incremental merging. */
module PhabReviews {
  import opened StrUtil
  import opened Identities
  import opened Latest
  import opened Sorting

  /** TransactionType; 0 is unset. */
  const CommentTransaction := 1
  const StatusTransaction := 2
  const UserStatusTransaction := 3
  const DiffTransaction := 4

  /** A Phabricator transaction with the identity of its author (ReviewUpdate). Only comments
      fill `diff`, `path`, `line` and `text`; only statuses fill `status`; only diffs `diffId`. */
  datatype Update = Update(transId: string, phabUser: string, timestamp: int, kind: int,
                           diff: int, path: string, line: int, text: string, status: string,
                           diffId: int, author: Identity)

  /** The zero ReviewUpdate. */
  const NoUpdate := Update("", "", 0, 0, 0, "", 0, "", "", 0, Identity("", "", "", "", "", 0))

  /** The updates that happened at one moment, shown as one timeline event (PhabUpdateGroup). */
  datatype Group = Group(timestamp: int, author: Identity, updates: seq<Update>, revisionId: string)

  /** How Phabricator actions read as states. */
  const ActionToState: map<string, string> := map[
    "accept" := "accepted",
    "close" := "closed",
    "create" := "created",
    "request-changes" := "changes requested",
    "request-review" := "review requested"
  ]

  /** The updates with timestamp `t`, in order. */
  function Filter(us: seq<Update>, t: int): (r: seq<Update>)
    ensures forall k :: 0 <= k < |r| ==> r[k].timestamp == t
  {
    if us == [] then []
    else
      var n := |us| - 1;
      Filter(us[..n], t) + (if us[n].timestamp == t then [us[n]] else [])
  }

  lemma {:induction false} FilterEmpty(us: seq<Update>, t: int)
    ensures Filter(us, t) == [] <==> forall i :: 0 <= i < |us| ==> us[i].timestamp != t
  {
    if us != [] {
      var n := |us| - 1;
      FilterEmpty(us[..n], t);
      assert forall i :: 0 <= i < n ==> us[..n][i] == us[i];
    }
  }

  /** The grouping History builds: one group per timestamp, in a map. */
  function GroupsOf(us: seq<Update>, rev: string): map<int, Group> {
    if us == [] then map[]
    else
      var n := |us| - 1;
      var m := GroupsOf(us[..n], rev);
      var u := us[n];
      if u.timestamp in m then m[u.timestamp := m[u.timestamp].(updates := m[u.timestamp].updates + [u])]
      else m[u.timestamp := Group(u.timestamp, u.author, [u], rev)]
  }

  /** `g` is the event for timestamp `t`: all updates made at `t`, in order, attributed to the
      author of the first of them. */
  predicate GroupFor(us: seq<Update>, rev: string, t: int, g: Group) {
    && g.timestamp == t && g.revisionId == rev
    && g.updates == Filter(us, t) && g.updates != []
    && g.author == g.updates[0].author
  }

  lemma {:induction false} GroupsOfSpec(us: seq<Update>, rev: string)
    ensures forall t :: t in GroupsOf(us, rev) <==> Filter(us, t) != []
    ensures forall t :: t in GroupsOf(us, rev) ==> GroupFor(us, rev, t, GroupsOf(us, rev)[t])
  {
    if us != [] {
      var n := |us| - 1;
      GroupsOfSpec(us[..n], rev);
    }
  }

  lemma NoUpdatesNoGroups(us: seq<Update>, rev: string)
    ensures us == [] <==> GroupsOf(us, rev) == map[]
  {
    GroupsOfSpec(us, rev);
    if us != [] {
      FilterEmpty(us, us[0].timestamp);
      assert us[0].timestamp in GroupsOf(us, rev);
    }
  }

  function NegTime(g: Group): int {
    -g.timestamp
  }

  function Timestamps(gs: seq<Group>): (ts: seq<int>)
    ensures |ts| == |gs|
    ensures forall i :: 0 <= i < |gs| ==> ts[i] == gs[i].timestamp
  {
    if gs == [] then [] else [gs[0].timestamp] + Timestamps(gs[1..])
  }

  /** The number of changes the events of a history hold together. */
  function TotalChanges(gs: seq<Group>): nat {
    if gs == [] then 0 else |gs[0].updates| + TotalChanges(gs[1..])
  }

  function Occurrences(ts: seq<int>, t: int): nat {
    if ts == [] then 0 else (if ts[0] == t then 1 else 0) + Occurrences(ts[1..], t)
  }

  function SumFilter(ts: seq<int>, us: seq<Update>): nat {
    if ts == [] then 0 else |Filter(us, ts[0])| + SumFilter(ts[1..], us)
  }

  lemma {:induction false} SumFilterNil(ts: seq<int>)
    ensures SumFilter(ts, []) == 0
  {
    if ts != [] {
      SumFilterNil(ts[1..]);
    }
  }

  lemma {:induction false} SumFilterSnoc(ts: seq<int>, us: seq<Update>, u: Update)
    ensures SumFilter(ts, us + [u]) == SumFilter(ts, us) + Occurrences(ts, u.timestamp)
  {
    if ts != [] {
      SumFilterSnoc(ts[1..], us, u);
      assert (us + [u])[..|us|] == us;
    }
  }

  lemma {:induction false} OccurrencesDistinct(ts: seq<int>, t: int)
    requires forall i, j :: 0 <= i < j < |ts| ==> ts[i] != ts[j]
    requires t in ts
    ensures Occurrences(ts, t) == 1
  {
    if ts[0] != t {
      OccurrencesDistinct(ts[1..], t);
    } else {
      OccurrencesAbsent(ts[1..], t);
    }
  }

  lemma {:induction false} OccurrencesAbsent(ts: seq<int>, t: int)
    requires t !in ts
    ensures Occurrences(ts, t) == 0
  {
    if ts != [] {
      OccurrencesAbsent(ts[1..], t);
    }
  }

  /** Over distinct timestamps that cover every update, the filters count each update once. */
  lemma {:induction false} SumFilterAll(ts: seq<int>, us: seq<Update>)
    requires forall i, j :: 0 <= i < j < |ts| ==> ts[i] != ts[j]
    requires forall i :: 0 <= i < |us| ==> us[i].timestamp in ts
    ensures SumFilter(ts, us) == |us|
  {
    if us == [] {
      SumFilterNil(ts);
    } else {
      var n := |us| - 1;
      var pre := us[..n];
      assert us == pre + [us[n]];
      assert forall i :: 0 <= i < n ==> pre[i] == us[i];
      SumFilterAll(ts, pre);
      SumFilterSnoc(ts, pre, us[n]);
      OccurrencesDistinct(ts, us[n].timestamp);
    }
  }

  lemma {:induction false} TotalIsSum(gs: seq<Group>, us: seq<Update>)
    requires forall i :: 0 <= i < |gs| ==> gs[i].updates == Filter(us, gs[i].timestamp)
    ensures TotalChanges(gs) == SumFilter(Timestamps(gs), us)
  {
    if gs != [] {
      TotalIsSum(gs[1..], us);
      assert Timestamps(gs)[1..] == Timestamps(gs[1..]);
    }
  }

  predicate UpdateAt(us: seq<Update>, t: int) {
    exists i :: 0 <= i < |us| && us[i].timestamp == t
  }

  predicate EventAt(events: seq<Group>, t: int) {
    exists i :: 0 <= i < |events| && events[i].timestamp == t
  }

  /** Events ordered strictly newest first. */
  predicate NewestFirst(events: seq<Group>) {
    forall i, j :: 0 <= i < j < |events| ==> events[i].timestamp > events[j].timestamp
  }

  /** The events are the groups of the map: each is the group stored at its timestamp, and
      every group is there. */
  predicate FromGroups(m: map<int, Group>, events: seq<Group>) {
    && (forall k :: 0 <= k < |events| ==> events[k].timestamp in m && m[events[k].timestamp] == events[k])
    && (forall t :: t in m ==> m[t] in events)
  }

  /** Such a history has an event for every timestamp some update has, and for no other. */
  lemma EventsCoverUpdates(us: seq<Update>, rev: string, events: seq<Group>)
    requires FromGroups(GroupsOf(us, rev), events)
    ensures forall i :: 0 <= i < |events| ==> GroupFor(us, rev, events[i].timestamp, events[i])
    ensures forall t :: UpdateAt(us, t) <==> EventAt(events, t)
  {
    var m := GroupsOf(us, rev);
    GroupsOfSpec(us, rev);
    forall t
      ensures UpdateAt(us, t) <==> EventAt(events, t)
    {
      FilterEmpty(us, t);
      if t in m {
        assert m[t] in events;
        var i :| 0 <= i < |events| && events[i] == m[t];
        assert events[i].timestamp == t;
      }
    }
  }

  /** A newest-first history made of the map's groups holds every update exactly once
      between its events. */
  lemma HistoryHoldsEveryUpdate(us: seq<Update>, rev: string, events: seq<Group>)
    requires NewestFirst(events)
    requires FromGroups(GroupsOf(us, rev), events)
    ensures TotalChanges(events) == |us|
  {
    EventsCoverUpdates(us, rev, events);
    var ts := Timestamps(events);
    forall k | 0 <= k < |us|
      ensures us[k].timestamp in ts
    {
      assert UpdateAt(us, us[k].timestamp);
      var i :| 0 <= i < |events| && events[i].timestamp == us[k].timestamp;
      assert ts[i] == us[k].timestamp;
    }
    TotalIsSum(events, us);
    SumFilterAll(ts, us);
  }

  /** Sorting groups of distinct timestamps newest first orders them strictly. */
  lemma SortedGroupsStrict(groups: map<int, Group>, result: seq<Group>, events: seq<Group>)
    requires FromGroups(groups, result)
    requires Distinct(result)
    requires multiset(events) == multiset(result)
    requires SortedBy(events, NegTime)
    ensures NewestFirst(events)
    ensures FromGroups(groups, events)
  {
    DistinctPermutation(result, events);
    forall g
      ensures g in events <==> g in result
    {
      assert g in events <==> g in multiset(events);
    }
    forall i, j | 0 <= i < j < |events|
      ensures events[i].timestamp > events[j].timestamp
    {
      assert events[i] in result && events[j] in result;
    }
    forall k | 0 <= k < |events|
      ensures events[k].timestamp in groups && groups[events[k].timestamp] == events[k]
    {
      assert events[k] in result;
    }
  }

  /** A group's summary tag for one update. */
  function Tag(u: Update): string {
    if u.kind == UserStatusTransaction then "[" + u.status + "] "
    else if u.kind == DiffTransaction then "[diff>" + Itoa(u.diffId) + "] "
    else ""
  }

  function Tags(us: seq<Update>): string {
    if us == [] then "" else Tags(us[..|us| - 1]) + Tag(us[|us| - 1])
  }

  function CommentsIn(us: seq<Update>): nat {
    if us == [] then 0
    else CommentsIn(us[..|us| - 1]) + if us[|us| - 1].kind == CommentTransaction then 1 else 0
  }

  /** PhabUpdateGroup.Summary. */
  method GroupSummary(g: Group) returns (s: string)
    ensures s == Tags(g.updates) + CountText(CommentsIn(g.updates))
  {
    var output := "";
    var comments := 0;
    var i := 0;
    while i < |g.updates|
      invariant 0 <= i <= |g.updates|
      invariant output == Tags(g.updates[..i]) && comments == CommentsIn(g.updates[..i])
    {
      assert g.updates[..i + 1][..i] == g.updates[..i];
      var u := g.updates[i];
      if u.kind == UserStatusTransaction {
        output := output + "[" + u.status + "] ";
      } else if u.kind == DiffTransaction {
        output := output + "[diff>" + Itoa(u.diffId) + "] ";
      } else if u.kind == CommentTransaction {
        comments := comments + 1;
      }
      i := i + 1;
    }
    assert g.updates[..i] == g.updates;
    s := output + CountText(comments);
  }

  /** A summary is empty exactly when no update in the group is a user status, a diff or a
      comment. */
  lemma {:induction false} SummaryEmpty(us: seq<Update>)
    ensures Tags(us) + CountText(CommentsIn(us)) == ""
      <==> forall i :: 0 <= i < |us| ==> us[i].kind !in {UserStatusTransaction, DiffTransaction, CommentTransaction}
  {
    var t, c := Tags(us), CountText(CommentsIn(us));
    assert |t + c| == |t| + |c|;
    TagsEmpty(us);
    NoComments(us);
  }

  /** No tag is printed exactly when no update is a user status or a diff. */
  lemma {:induction false} TagsEmpty(us: seq<Update>)
    ensures Tags(us) == "" <==> forall i :: 0 <= i < |us| ==> us[i].kind != UserStatusTransaction && us[i].kind != DiffTransaction
  {
    if us != [] {
      var n := |us| - 1;
      TagsEmpty(us[..n]);
      assert forall i :: 0 <= i < n ==> us[..n][i] == us[i];
      var t := Tags(us[..n]);
      assert |t + Tag(us[n])| == |t| + |Tag(us[n])|;
      if us[n].kind == UserStatusTransaction || us[n].kind == DiffTransaction {
        assert |Tag(us[n])| > 0;
      }
    }
  }

  /** No comment is counted exactly when no update is a comment. */
  lemma {:induction false} NoComments(us: seq<Update>)
    ensures CommentsIn(us) == 0 <==> forall i :: 0 <= i < |us| ==> us[i].kind != CommentTransaction
  {
    if us != [] {
      var n := |us| - 1;
      NoComments(us[..n]);
      assert forall i :: 0 <= i < n ==> us[..n][i] == us[i];
    }
  }

  /** ReviewUpdate.Summary; `pad` is the terminal-text helper that fits a line to a width. */
  function UpdateSummary(u: Update, pad: (string, int) -> string): (s: string)
    ensures u.kind != CommentTransaction ==> s == ""
    ensures u.kind == CommentTransaction ==> HasPrefix(s, pad(ReplaceChar(u.text, '\n', " "), 50))
    ensures u.kind == CommentTransaction && u.path != "" ==> HasSuffix(s, "@" + Itoa(u.diff) + "]")
  {
    if u.kind != CommentTransaction then ""
    else
      var text := pad(ReplaceChar(u.text, '\n', " "), 50);
      var tail := if u.path != "" then " [" + u.path + ":" + Itoa(u.line) + "@" + Itoa(u.diff) + "]" else "";
      assert (text + tail)[..|text|] == text;
      assert u.path != "" ==> (text + tail)[|text + tail| - |"@" + Itoa(u.diff) + "]"|..] == "@" + Itoa(u.diff) + "]";
      text + tail
  }

  predicate TimedStatus(u: Update) {
    u.kind == StatusTransaction && u.timestamp > 0
  }

  predicate IsUserStatus(u: Update) {
    u.kind == UserStatusTransaction
  }

  function NoKey(u: Update): string {
    ""
  }

  function PhabUser(u: Update): string {
    u.phabUser
  }

  function Time(u: Update): int {
    u.timestamp
  }

  /** The text LatestOverallStatus prints for the newest status, if any; `green` is the
      terminal colour wrapper. */
  function OverallStatusText(latest: map<string, Update>, green: string -> string): string {
    if "" !in latest then ""
    else if latest[""].status == "accepted" then green("accepted")
    else latest[""].status
  }

  /** The groups of a map, in whatever order the map is walked. */
  method GroupList(groups: map<int, Group>) returns (result: seq<Group>)
    requires forall t :: t in groups ==> groups[t].timestamp == t
    ensures FromGroups(groups, result)
    ensures Distinct(result)
  {
    result := [];
    var rest := groups.Keys;
    while rest != {}
      invariant rest <= groups.Keys
      invariant forall k :: 0 <= k < |result| ==>
        result[k].timestamp in groups && groups[result[k].timestamp] == result[k] && result[k].timestamp !in rest
      invariant forall t :: t in groups && t !in rest ==> groups[t] in result
      invariant Distinct(result)
      decreases rest
    {
      NoMemberEmpty(rest);
      var t :| t in rest;
      result := result + [groups[t]];
      rest := rest - {t};
    }
  }

  class PhabReviewInfo {
    var revisionId: string
    var title: string
    var lastTransaction: string
    var updates: seq<Update>

    constructor (revisionId: string, title: string, lastTransaction: string, updates: seq<Update>)
      ensures this.revisionId == revisionId && this.title == title
      ensures this.lastTransaction == lastTransaction && this.updates == updates
    {
      this.revisionId := revisionId;
      this.title := title;
      this.lastTransaction := lastTransaction;
      this.updates := updates;
    }

    /** PhabReviewInfo.IsEmpty: no update, so the history has no event. */
    function IsEmpty(): (b: bool)
      reads this
      ensures b <==> GroupsOf(updates, revisionId) == map[]
    {
      NoUpdatesNoGroups(updates, revisionId);
      |updates| == 0
    }

    /** PhabReviewInfo.History: the groups by timestamp, newest first. */
    method History() returns (events: seq<Group>)
      ensures NewestFirst(events)
      ensures FromGroups(GroupsOf(updates, revisionId), events)
    {
      var groups: map<int, Group> := map[];
      var i := 0;
      while i < |updates|
        invariant 0 <= i <= |updates|
        invariant groups == GroupsOf(updates[..i], revisionId)
      {
        assert updates[..i + 1][..i] == updates[..i];
        var u := updates[i];
        if u.timestamp in groups {
          var tl := groups[u.timestamp];
          groups := groups[u.timestamp := tl.(updates := tl.updates + [u])];
        } else {
          groups := groups[u.timestamp := Group(u.timestamp, u.author, [u], revisionId)];
        }
        i := i + 1;
      }
      assert updates[..i] == updates;
      GroupsOfSpec(updates, revisionId);
      var result := GroupList(groups);
      events := SortBy(result, NegTime);
      SortBySorted(result, NegTime);
      SortedGroupsStrict(groups, result, events);
    }

    /** PhabReviewInfo.Merge: a nil update does nothing; otherwise the revision id, title and
        last transaction are taken from the update and its updates are appended. */
    method Merge(update: PhabReviewInfo?)
      modifies this
      ensures update == null ==> unchanged(this)
      ensures update != null ==>
        && revisionId == old(update.revisionId) && title == old(update.title)
        && lastTransaction == old(update.lastTransaction)
        && updates == old(updates) + old(update.updates)
    {
      if update == null {
        return;
      }
      var u := update;
      var merged := updates + u.updates;
      revisionId, title, lastTransaction := u.revisionId, u.title, u.lastTransaction;
      updates := merged;
    }

    /** PhabReviewInfo.LatestOverallStatus: the status of the first status transaction with
        the greatest positive timestamp. */
    method LatestOverallStatus(green: string -> string) returns (s: string)
      ensures s == OverallStatusText(LatestOf(updates, TimedStatus, NoKey, Time), green)
    {
      var ls := NoUpdate;
      ghost var idx: map<string, nat> := map[];
      var i := 0;
      while i < |updates|
        invariant 0 <= i <= |updates|
        invariant idx == LatestIndex(updates[..i], TimedStatus, NoKey, Time)
        invariant idx.Keys <= {""}
        invariant ls == if "" in idx then updates[idx[""]] else NoUpdate
        invariant "" in idx ==> TimedStatus(updates[idx[""]])
      {
        assert updates[..i + 1][..i] == updates[..i];
        var u := updates[i];
        if u.kind == StatusTransaction && u.timestamp > ls.timestamp {
          ls := u;
          idx := idx["" := i];
        }
        i := i + 1;
      }
      assert updates[..i] == updates;
      if ls.status == "accepted" {
        s := green("accepted");
      } else {
        s := ls.status;
      }
    }

    /** PhabReviewInfo.LatestUserStatuses: each user's first newest user-status transaction. */
    method LatestUserStatuses() returns (m: map<string, Update>)
      ensures m == LatestOf(updates, IsUserStatus, PhabUser, Time)
    {
      ghost var idx: map<string, nat> := map[];
      m := map[];
      var i := 0;
      while i < |updates|
        invariant 0 <= i <= |updates|
        invariant idx == LatestIndex(updates[..i], IsUserStatus, PhabUser, Time)
        invariant m == LatestOf(updates[..i], IsUserStatus, PhabUser, Time)
      {
        LatestScanStep(updates, i, IsUserStatus, PhabUser, Time, idx, m);
        var s := updates[i];
        if s.kind == UserStatusTransaction && (s.phabUser !in m || s.timestamp > m[s.phabUser].timestamp) {
          m := m[s.phabUser := s];
          idx := idx[s.phabUser := i];
        }
        i := i + 1;
      }
      assert updates[..i] == updates;
    }
  }

  /** The overall status is that of the first of the newest status transactions with a
      positive timestamp, and there is one exactly when such a transaction exists. */
  lemma OverallStatusIsNewest(us: seq<Update>)
    ensures "" in LatestOf(us, TimedStatus, NoKey, Time) <==> exists i :: 0 <= i < |us| && TimedStatus(us[i])
    ensures "" in LatestOf(us, TimedStatus, NoKey, Time) ==>
      exists i :: FirstNewest(us, TimedStatus, NoKey, Time, "", i)
        && LatestOf(us, TimedStatus, NoKey, Time)[""] == us[i]
  {
    LatestIndexSpec(us, TimedStatus, NoKey, Time);
    var idx := LatestIndex(us, TimedStatus, NoKey, Time);
    if exists i :: 0 <= i < |us| && TimedStatus(us[i]) {
      var i :| 0 <= i < |us| && TimedStatus(us[i]);
      assert Candidate(us, TimedStatus, NoKey, "", i);
    }
    if "" in idx {
      assert FirstNewest(us, TimedStatus, NoKey, Time, "", idx[""]);
    }
  }

  /** Each user who set a status has exactly one latest status: the first of their newest. */
  lemma UserStatusIsNewest(us: seq<Update>, user: string)
    ensures user in LatestOf(us, IsUserStatus, PhabUser, Time)
      <==> exists i :: 0 <= i < |us| && IsUserStatus(us[i]) && us[i].phabUser == user
    ensures user in LatestOf(us, IsUserStatus, PhabUser, Time) ==>
      exists i :: FirstNewest(us, IsUserStatus, PhabUser, Time, user, i)
        && LatestOf(us, IsUserStatus, PhabUser, Time)[user] == us[i]
  {
    LatestIndexSpec(us, IsUserStatus, PhabUser, Time);
    var idx := LatestIndex(us, IsUserStatus, PhabUser, Time);
    if exists i :: 0 <= i < |us| && IsUserStatus(us[i]) && us[i].phabUser == user {
      var i :| 0 <= i < |us| && IsUserStatus(us[i]) && us[i].phabUser == user;
      assert Candidate(us, IsUserStatus, PhabUser, user, i);
    }
    if user in idx {
      assert FirstNewest(us, IsUserStatus, PhabUser, Time, user, idx[user]);
    }
  }
}
