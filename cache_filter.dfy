/** Deciding whether a ticket excerpt matches a filter tree (cache/filter.go). The Go code
    stops the process when a ticket has no author and panics when an identity cannot be
    resolved; here both end the evaluation with an error. */
module CacheFilter {
  import opened Wrappers
  import opened Entity
  import opened StrUtil
  import opened QueryLexer
  import opened QueryAst
  import Statuses = Status
  import Workflows
  import Snapshots
  import opened CacheExcerpts

  /** What a filter consults besides the excerpt: the cache's identity lookup, the identity
      excerpt's Match method, and whether date filters follow cache/filter.go as written
      (only "before" bounds can match) or the evidently intended rule. */
  datatype Env = Env(
    resolve: Id -> Option<IdentityExcerpt>,
    idMatch: (IdentityExcerpt, string) -> bool,
    datesAsWritten: bool)

  /** ExecuteMatcherOnIdentity: the identity's Match receives the lower-cased literal. */
  function ExecuteMatcherOnIdentity(m: Matcher, ident: IdentityExcerpt, idMatch: (IdentityExcerpt, string) -> bool): bool {
    idMatch(ident, ToLower(m.token.literal))
  }

  /** Whatever the case of the literal, Match sees text without upper-case letters, and a
      literal already in lower case reaches it unchanged. */
  lemma MatcherSeesLowerCase(m: Matcher, ident: IdentityExcerpt, idMatch: (IdentityExcerpt, string) -> bool)
    ensures exists q :: NoUpper(q) && ExecuteMatcherOnIdentity(m, ident, idMatch) == idMatch(ident, q)
    ensures NoUpper(m.token.literal) ==> ExecuteMatcherOnIdentity(m, ident, idMatch) == idMatch(ident, m.token.literal)
    ensures forall m': Matcher :: ToLower(m'.token.literal) == ToLower(m.token.literal) ==>
      ExecuteMatcherOnIdentity(m', ident, idMatch) == ExecuteMatcherOnIdentity(m, ident, idMatch)
  {
    var q := ToLower(m.token.literal);
    assert NoUpper(q);
    if NoUpper(m.token.literal) {
      ToLowerNoop(m.token.literal);
    }
  }

  /** executeMatcherOnIdentity: resolves the id first; an id the cache does not know is an
      error. */
  function MatchId(m: Matcher, env: Env, userId: Id): (r: Result<bool>)
    ensures r.Err? <==> env.resolve(userId).None?
    ensures r.Ok? ==> r.value == ExecuteMatcherOnIdentity(m, env.resolve(userId).value, env.idMatch)
  {
    match env.resolve(userId)
    case None => Err("Error resolving identity " + Quote(userId) + " for filtering")
    case Some(ident) => Ok(ExecuteMatcherOnIdentity(m, ident, env.idMatch))
  }

  /** The loops over actors, participants and CCB members: true at the first id that
      matches; an unresolvable id met before that ends the search with its error. */
  function AnyId(m: Matcher, env: Env, ids: seq<Id>): (r: Result<bool>)
    decreases |ids|
  {
    if ids == [] then Ok(false)
    else match MatchId(m, env, ids[0])
      case Err(e) => Err(e)
      case Ok(true) => Ok(true)
      case Ok(false) => AnyId(m, env, ids[1..])
  }

  /** The users of a list of CCB entries, in order. */
  function Users(ccb: seq<CcbExcerpt>): (r: seq<Id>)
    ensures |r| == |ccb| && forall i :: 0 <= i < |ccb| ==> r[i] == ccb[i].user
  {
    seq(|ccb|, i requires 0 <= i < |ccb| => ccb[i].user)
  }

  /** An entry still waiting for approval towards one of the next statuses. */
  predicate Pending(c: CcbExcerpt, next: seq<Statuses.Status>) {
    c.status in next && c.state != Snapshots.ApprovedCcbState
  }

  /** The ccb-pending loop: every entry's user is matched, in order, and the first entry
      that matches and is pending decides. */
  function PendingScan(m: Matcher, env: Env, ccb: seq<CcbExcerpt>, next: seq<Statuses.Status>): (r: Result<bool>)
    decreases |ccb|
  {
    if ccb == [] then Ok(false)
    else match MatchId(m, env, ccb[0].user)
      case Err(e) => Err(e)
      case Ok(true) => if Pending(ccb[0], next) then Ok(true) else PendingScan(m, env, ccb[1..], next)
      case Ok(false) => PendingScan(m, env, ccb[1..], next)
  }

  /** The date rule: as written only a "before" bound can hold; the intended rule compares
      the other way for an "after" bound. Both comparisons are strict, like Go's Before and
      After. */
  function DateHolds(t: int, date: int, before: bool, asWritten: bool): (r: bool)
    ensures before ==> (r <==> t < date)
    ensures !before && asWritten ==> !r
    ensures !before && !asWritten ==> (r <==> t > date)
  {
    if asWritten then before && t < date
    else if before then t < date
    else t > date
  }

  /** executeFilter and the execute*Filter functions it dispatches to. */
  function Execute(f: FilterNode, env: Env, b: BugExcerpt): Result<bool>
    decreases f, 1
  {
    match f
    case StatusFilter(ss, _) => Ok(b.status in ss)
    case AuthorFilter(m, _) =>
      if b.authorId == "" then Err("Ticket does not have an author: " + HumanId(b.id))
      else MatchId(m, env, b.authorId)
    case AssigneeFilter(m, _) =>
      if b.assigneeId == "" then Ok(false) else MatchId(m, env, b.assigneeId)
    case CcbFilter(m, _) => AnyId(m, env, Users(b.ccb))
    case CcbPendingFilter(m, _) =>
      (match Workflows.WorkflowOfLabels(b.labels)
       case None => Ok(false)
       case Some(w) => PendingScan(m, env, b.ccb, Workflows.NextStatusesOf(w.transitions, b.status)))
    case ActorFilter(m, _) => AnyId(m, env, b.actors)
    case ParticipantFilter(m, _) => AnyId(m, env, b.participants)
    case LabelFilter(m, _) => Ok(m.token.literal in b.labels)
    case TitleFilter(m, _) => Ok(ToLower(m.token.literal) == ToLower(b.title))
    case NotFilter(inner, _) =>
      (match Execute(inner, env, b)
       case Err(e) => Err(e)
       case Ok(v) => Ok(!v))
    case CreationDateFilter(d, before, _) => Ok(DateHolds(b.createTime, d, before, env.datesAsWritten))
    case EditDateFilter(d, before, _) => Ok(DateHolds(b.editTime, d, before, env.datesAsWritten))
    case AllFilter(fs, _) => ExecuteAll(fs, env, b)
    case AnyFilter(fs, _) => ExecuteAny(fs, env, b)
  }

  /** executeAllFilter: false at the first inner filter that does not hold. */
  function ExecuteAll(fs: seq<FilterNode>, env: Env, b: BugExcerpt): Result<bool>
    decreases fs, 0
  {
    if fs == [] then Ok(true)
    else match Execute(fs[0], env, b)
      case Err(e) => Err(e)
      case Ok(false) => Ok(false)
      case Ok(true) => ExecuteAll(fs[1..], env, b)
  }

  /** executeAnyFilter: true at the first inner filter that holds. */
  function ExecuteAny(fs: seq<FilterNode>, env: Env, b: BugExcerpt): Result<bool>
    decreases fs, 0
  {
    if fs == [] then Ok(false)
    else match Execute(fs[0], env, b)
      case Err(e) => Err(e)
      case Ok(true) => Ok(true)
      case Ok(false) => ExecuteAny(fs[1..], env, b)
  }

  // ---------------------------------------------------------------------------------------
  // The meaning of a filter, stated without evaluation order.

  /** The user with this id is known and its identity matches the literal. */
  predicate UserMatches(m: Matcher, env: Env, id: Id) {
    env.resolve(id).Some? && ExecuteMatcherOnIdentity(m, env.resolve(id).value, env.idMatch)
  }

  /** Every id a filter may look up is known and the ticket has an author: the situation in
      which evaluation cannot fail. */
  predicate Resolvable(env: Env, b: BugExcerpt) {
    && b.authorId != "" && env.resolve(b.authorId).Some?
    && (b.assigneeId != "" ==> env.resolve(b.assigneeId).Some?)
    && (forall id :: id in b.actors ==> env.resolve(id).Some?)
    && (forall id :: id in b.participants ==> env.resolve(id).Some?)
    && (forall c :: c in b.ccb ==> env.resolve(c.user).Some?)
  }

  /** What each filter says about a ticket. */
  predicate Holds(f: FilterNode, env: Env, b: BugExcerpt)
    decreases f
  {
    match f
    case StatusFilter(ss, _) => b.status in ss
    case AuthorFilter(m, _) => UserMatches(m, env, b.authorId)
    case AssigneeFilter(m, _) => b.assigneeId != "" && UserMatches(m, env, b.assigneeId)
    case CcbFilter(m, _) => exists c :: c in b.ccb && UserMatches(m, env, c.user)
    case CcbPendingFilter(m, _) =>
      Workflows.WorkflowOfLabels(b.labels).Some? &&
      (exists c :: c in b.ccb && UserMatches(m, env, c.user) &&
        Pending(c, Workflows.NextStatusesOf(Workflows.WorkflowOfLabels(b.labels).value.transitions, b.status)))
    case ActorFilter(m, _) => exists id :: id in b.actors && UserMatches(m, env, id)
    case ParticipantFilter(m, _) => exists id :: id in b.participants && UserMatches(m, env, id)
    case LabelFilter(m, _) => exists l :: l in b.labels && l == m.token.literal
    case TitleFilter(m, _) => ToLower(m.token.literal) == ToLower(b.title)
    case NotFilter(inner, _) => !Holds(inner, env, b)
    case CreationDateFilter(d, before, _) => DateHolds(b.createTime, d, before, env.datesAsWritten)
    case EditDateFilter(d, before, _) => DateHolds(b.editTime, d, before, env.datesAsWritten)
    case AllFilter(fs, _) => forall g :: g in fs ==> Holds(g, env, b)
    case AnyFilter(fs, _) => exists g :: g in fs && Holds(g, env, b)
  }

  lemma {:induction false} AnyIdMeaning(m: Matcher, env: Env, ids: seq<Id>)
    requires forall id :: id in ids ==> env.resolve(id).Some?
    ensures AnyId(m, env, ids) == Ok(exists id :: id in ids && UserMatches(m, env, id))
    decreases |ids|
  {
    if ids != [] {
      AnyIdMeaning(m, env, ids[1..]);
      assert ids[0] in ids;
      assert MatchId(m, env, ids[0]) == Ok(UserMatches(m, env, ids[0]));
      if !UserMatches(m, env, ids[0]) {
        assert forall id :: id in ids && UserMatches(m, env, id) ==> id in ids[1..] by {
          assert forall id :: id in ids <==> id == ids[0] || id in ids[1..];
        }
      }
    }
  }

  lemma {:induction false} PendingScanMeaning(m: Matcher, env: Env, ccb: seq<CcbExcerpt>, next: seq<Statuses.Status>)
    requires forall c :: c in ccb ==> env.resolve(c.user).Some?
    ensures PendingScan(m, env, ccb, next) == Ok(exists c :: c in ccb && UserMatches(m, env, c.user) && Pending(c, next))
    decreases |ccb|
  {
    if ccb != [] {
      PendingScanMeaning(m, env, ccb[1..], next);
      assert forall c :: c in ccb <==> c == ccb[0] || c in ccb[1..];
    }
  }

  /** Matching the ccb members' ids is matching some ccb entry's user. */
  lemma CcbUsersMeaning(m: Matcher, env: Env, ccb: seq<CcbExcerpt>)
    requires forall c :: c in ccb ==> env.resolve(c.user).Some?
    ensures AnyId(m, env, Users(ccb)) == Ok(exists c :: c in ccb && UserMatches(m, env, c.user))
  {
    var us := Users(ccb);
    assert forall id :: id in us <==> exists c :: c in ccb && c.user == id by {
      forall id ensures id in us <==> exists c :: c in ccb && c.user == id {
        if id in us {
          var i :| 0 <= i < |us| && us[i] == id;
          assert ccb[i] in ccb;
        }
        if exists c :: c in ccb && c.user == id {
          var c :| c in ccb && c.user == id;
          var i :| 0 <= i < |ccb| && ccb[i] == c;
          assert us[i] == id;
        }
      }
    }
    AnyIdMeaning(m, env, us);
  }

  /** When every id resolves and the ticket has an author, evaluation succeeds and gives
      exactly the meaning of the filter: early returns and evaluation order change nothing. */
  lemma {:induction false} ExecuteMeaning(f: FilterNode, env: Env, b: BugExcerpt)
    requires Resolvable(env, b)
    ensures Execute(f, env, b) == Ok(Holds(f, env, b))
    decreases f, 1
  {
    match f
    case NotFilter(inner, _) => ExecuteMeaning(inner, env, b);
    case AllFilter(fs, _) => ExecuteAllMeaning(fs, env, b);
    case AnyFilter(fs, _) => ExecuteAnyMeaning(fs, env, b);
    case _ =>
      if f.StatusFilter? || f.LabelFilter? || f.TitleFilter? || f.CreationDateFilter? || f.EditDateFilter? {
        PlainFilterMeaning(f, env, b);
      } else {
        IdFilterMeaning(f, env, b);
      }
  }

  /** The filters on the ticket's own fields always evaluate to their meaning. */
  lemma PlainFilterMeaning(f: FilterNode, env: Env, b: BugExcerpt)
    requires f.StatusFilter? || f.LabelFilter? || f.TitleFilter? || f.CreationDateFilter? || f.EditDateFilter?
    ensures Execute(f, env, b) == Ok(Holds(f, env, b))
  {
  }

  /** The filters on identities evaluate to their meaning once every id resolves. */
  lemma IdFilterMeaning(f: FilterNode, env: Env, b: BugExcerpt)
    requires Resolvable(env, b)
    requires f.AuthorFilter? || f.AssigneeFilter? || f.CcbFilter? || f.CcbPendingFilter? || f.ActorFilter? || f.ParticipantFilter?
    ensures Execute(f, env, b) == Ok(Holds(f, env, b))
  {
    match f
    case AuthorFilter(_, _) =>
    case AssigneeFilter(_, _) =>
    case CcbFilter(m, _) =>
      CcbUsersMeaning(m, env, b.ccb);
    case CcbPendingFilter(m, _) =>
      var w := Workflows.WorkflowOfLabels(b.labels);
      if w.Some? {
        PendingScanMeaning(m, env, b.ccb, Workflows.NextStatusesOf(w.value.transitions, b.status));
      }
    case ActorFilter(m, _) => AnyIdMeaning(m, env, b.actors);
    case ParticipantFilter(m, _) => AnyIdMeaning(m, env, b.participants);
  }

  lemma {:induction false} ExecuteAllMeaning(fs: seq<FilterNode>, env: Env, b: BugExcerpt)
    requires Resolvable(env, b)
    ensures ExecuteAll(fs, env, b) == Ok(forall g :: g in fs ==> Holds(g, env, b))
    decreases fs, 0
  {
    if fs != [] {
      ExecuteMeaning(fs[0], env, b);
      ExecuteAllMeaning(fs[1..], env, b);
      assert forall g :: g in fs <==> g == fs[0] || g in fs[1..];
    }
  }

  lemma {:induction false} ExecuteAnyMeaning(fs: seq<FilterNode>, env: Env, b: BugExcerpt)
    requires Resolvable(env, b)
    ensures ExecuteAny(fs, env, b) == Ok(exists g :: g in fs && Holds(g, env, b))
    decreases fs, 0
  {
    if fs != [] {
      ExecuteMeaning(fs[0], env, b);
      ExecuteAnyMeaning(fs[1..], env, b);
      assert forall g :: g in fs <==> g == fs[0] || g in fs[1..];
    }
  }

  // ---------------------------------------------------------------------------------------
  // The combinators, whatever the lookups do.

  /** not(f) holds exactly when f does not, and shares f's error. */
  lemma NotNegates(inner: FilterNode, sp: Span, env: Env, b: BugExcerpt)
    ensures Execute(inner, env, b).Ok? ==> Execute(NotFilter(inner, sp), env, b) == Ok(!Execute(inner, env, b).value)
    ensures Execute(inner, env, b).Err? ==> Execute(NotFilter(inner, sp), env, b) == Execute(inner, env, b)
  {
  }

  /** all() with no inner filter holds; any() with none does not. */
  lemma EmptyAllAny(sp: Span, env: Env, b: BugExcerpt)
    ensures Execute(AllFilter([], sp), env, b) == Ok(true)
    ensures Execute(AnyFilter([], sp), env, b) == Ok(false)
  {
  }

  /** all(...) holds iff every inner filter evaluates to true. */
  lemma {:induction false} AllOrderTrue(fs: seq<FilterNode>, env: Env, b: BugExcerpt)
    ensures ExecuteAll(fs, env, b) == Ok(true) <==> forall i :: 0 <= i < |fs| ==> Execute(fs[i], env, b) == Ok(true)
    decreases |fs|
  {
    if fs != [] {
      AllOrderTrue(fs[1..], env, b);
      if Execute(fs[0], env, b) == Ok(true) {
        if forall i :: 0 <= i < |fs[1..]| ==> Execute(fs[1..][i], env, b) == Ok(true) {
          forall i | 0 <= i < |fs| ensures Execute(fs[i], env, b) == Ok(true) {
            if i > 0 { assert fs[i] == fs[1..][i - 1]; }
          }
        }
      }
    }
  }

  /** The inner filters' results, in order. */
  function Evaluated(fs: seq<FilterNode>, env: Env, b: BugExcerpt): (rs: seq<Result<bool>>)
    ensures |rs| == |fs| && forall i :: 0 <= i < |fs| ==> rs[i] == Execute(fs[i], env, b)
  {
    seq(|fs|, i requires 0 <= i < |fs| => Execute(fs[i], env, b))
  }

  /** The early-return scan shared by all(...) and any(...): the first error or the first
      `stop` result decides; with neither the answer is `!stop`. */
  function FirstDecisive(rs: seq<Result<bool>>, stop: bool): Result<bool> {
    if rs == [] then Ok(!stop)
    else match rs[0]
      case Err(e) => Err(e)
      case Ok(v) => if v == stop then Ok(stop) else FirstDecisive(rs[1..], stop)
  }

  /** all(...) and any(...) are that scan over the inner results. */
  lemma {:induction false} ExecuteDecisive(fs: seq<FilterNode>, env: Env, b: BugExcerpt)
    ensures ExecuteAll(fs, env, b) == FirstDecisive(Evaluated(fs, env, b), false)
    ensures ExecuteAny(fs, env, b) == FirstDecisive(Evaluated(fs, env, b), true)
    decreases |fs|
  {
    if fs != [] {
      ExecuteDecisive(fs[1..], env, b);
      assert Evaluated(fs, env, b)[1..] == Evaluated(fs[1..], env, b);
    }
  }

  /** The scan gives `stop` iff some result is `stop` after only `!stop` results, and gives
      `!stop` iff every result is `!stop`. */
  lemma {:induction false} DecisiveOrder(rs: seq<Result<bool>>, stop: bool)
    ensures FirstDecisive(rs, stop) == Ok(stop) <==>
      exists k :: 0 <= k < |rs| && rs[k] == Ok(stop) && forall i :: 0 <= i < k ==> rs[i] == Ok(!stop)
    ensures FirstDecisive(rs, stop) == Ok(!stop) <==> forall i :: 0 <= i < |rs| ==> rs[i] == Ok(!stop)
    decreases |rs|
  {
    if rs != [] {
      var t := rs[1..];
      DecisiveOrder(t, stop);
      if rs[0] == Ok(!stop) {
        assert FirstDecisive(rs, stop) == FirstDecisive(t, stop);
        if exists k :: 0 <= k < |t| && t[k] == Ok(stop) && forall i :: 0 <= i < k ==> t[i] == Ok(!stop) {
          var k :| 0 <= k < |t| && t[k] == Ok(stop) && forall i :: 0 <= i < k ==> t[i] == Ok(!stop);
          assert rs[k + 1] == Ok(stop);
          assert forall i :: 0 <= i < k + 1 ==> rs[i] == Ok(!stop) by {
            forall i | 0 <= i < k + 1 ensures rs[i] == Ok(!stop) {
              if i > 0 { assert rs[i] == t[i - 1]; }
            }
          }
        }
        if exists k :: 0 <= k < |rs| && rs[k] == Ok(stop) && forall i :: 0 <= i < k ==> rs[i] == Ok(!stop) {
          var k :| 0 <= k < |rs| && rs[k] == Ok(stop) && forall i :: 0 <= i < k ==> rs[i] == Ok(!stop);
          assert k > 0 && t[k - 1] == Ok(stop);
          assert forall i :: 0 <= i < k - 1 ==> t[i] == rs[i + 1];
        }
        assert (forall i :: 0 <= i < |rs| ==> rs[i] == Ok(!stop)) <==> (forall i :: 0 <= i < |t| ==> t[i] == Ok(!stop)) by {
          assert forall i :: 0 <= i < |t| ==> t[i] == rs[i + 1];
          if forall i :: 0 <= i < |t| ==> t[i] == Ok(!stop) {
            forall i | 0 <= i < |rs| ensures rs[i] == Ok(!stop) {
              if i > 0 { assert rs[i] == t[i - 1]; }
            }
          }
        }
      } else if rs[0] == Ok(stop) {
        assert !(forall i :: 0 <= i < |rs| ==> rs[i] == Ok(!stop)) by {
          assert rs[0] != Ok(!stop);
        }
      } else {
        assert !(forall i :: 0 <= i < |rs| ==> rs[i] == Ok(!stop)) by {
          assert rs[0] != Ok(!stop);
        }
      }
    }
  }

  /** all(...) is false iff some inner filter is false and every filter before it is true. */
  lemma AllOrderFalse(fs: seq<FilterNode>, env: Env, b: BugExcerpt)
    ensures ExecuteAll(fs, env, b) == Ok(false) <==>
      exists k :: 0 <= k < |fs| && Execute(fs[k], env, b) == Ok(false) && forall i :: 0 <= i < k ==> Execute(fs[i], env, b) == Ok(true)
  {
    ExecuteDecisive(fs, env, b);
    DecisiveOrder(Evaluated(fs, env, b), false);
  }

  /** any(...) holds iff some inner filter is true and every filter before it is false. */
  lemma AnyOrder(fs: seq<FilterNode>, env: Env, b: BugExcerpt)
    ensures ExecuteAny(fs, env, b) == Ok(true) <==>
      exists k :: 0 <= k < |fs| && Execute(fs[k], env, b) == Ok(true) && forall i :: 0 <= i < k ==> Execute(fs[i], env, b) == Ok(false)
    ensures ExecuteAny(fs, env, b) == Ok(false) <==> forall i :: 0 <= i < |fs| ==> Execute(fs[i], env, b) == Ok(false)
  {
    ExecuteDecisive(fs, env, b);
    DecisiveOrder(Evaluated(fs, env, b), true);
  }

  // ---------------------------------------------------------------------------------------
  // The single filters.

  /** status(...) holds iff the ticket's status is listed. */
  lemma StatusMembership(ss: seq<Statuses.Status>, sp: Span, env: Env, b: BugExcerpt)
    ensures Execute(StatusFilter(ss, sp), env, b) == Ok(exists i :: 0 <= i < |ss| && ss[i] == b.status)
  {
  }

  /** An unassigned ticket never matches an assignee filter, whatever the lookups do. */
  lemma UnassignedNeverMatches(m: Matcher, sp: Span, env: Env, b: BugExcerpt)
    requires b.assigneeId == ""
    ensures Execute(AssigneeFilter(m, sp), env, b) == Ok(false)
  {
  }

  /** A ticket without an author stops an author filter, whatever the lookups do. */
  lemma AuthorlessFails(m: Matcher, sp: Span, env: Env, b: BugExcerpt)
    requires b.authorId == ""
    ensures Execute(AuthorFilter(m, sp), env, b).Err?
  {
  }

  /** ccb-pending never holds for a ticket without a workflow label; otherwise it holds iff
      a matching member's entry is for a next status and not approved. */
  lemma CcbPendingMeaning(m: Matcher, sp: Span, env: Env, b: BugExcerpt)
    requires Resolvable(env, b)
    ensures Workflows.WorkflowOfLabels(b.labels).None? ==> Execute(CcbPendingFilter(m, sp), env, b) == Ok(false)
    ensures Workflows.WorkflowOfLabels(b.labels).Some? ==>
      (Execute(CcbPendingFilter(m, sp), env, b) == Ok(true) <==>
        exists c, t :: c in b.ccb && t in Workflows.WorkflowOfLabels(b.labels).value.transitions &&
          UserMatches(m, env, c.user) && t.start == b.status && t.end == c.status &&
          c.state != Snapshots.ApprovedCcbState)
  {
    ExecuteMeaning(CcbPendingFilter(m, sp), env, b);
  }

  /** A literal label filter needs a label equal to the literal, case included. */
  lemma LabelExact(m: Matcher, sp: Span, env: Env, b: BugExcerpt)
    ensures Execute(LabelFilter(m, sp), env, b) == Ok(m.token.literal in b.labels)
    ensures b.labels == ["Bug"] && m.token.literal == "bug" ==> Execute(LabelFilter(m, sp), env, b) == Ok(false)
  {
  }

  /** A literal title filter compares the whole title, ignoring the case of both sides. */
  lemma TitleIgnoresCase(m: Matcher, sp: Span, env: Env, b: BugExcerpt)
    ensures Execute(TitleFilter(m, sp), env, b) == Ok(ToLower(m.token.literal) == ToLower(b.title))
    ensures b.title == "Hello World" && m.token.literal == "hello world" ==> Execute(TitleFilter(m, sp), env, b) == Ok(true)
    ensures b.title == "hello world" && m.token.literal == "foo" ==> Execute(TitleFilter(m, sp), env, b) == Ok(false)
  {
    if b.title == "Hello World" && m.token.literal == "hello world" {
      assert ToLower(b.title) == "hello world";
    }
    if b.title == "hello world" && m.token.literal == "foo" {
      assert ToLower(m.token.literal)[0] == 'f';
    }
  }

  /** As written, a creation-date or edit-date filter with an "after" bound never holds,
      whatever the ticket's times. */
  lemma AfterNeverMatchesAsWritten(d: int, sp: Span, env: Env, b: BugExcerpt)
    requires env.datesAsWritten
    ensures Execute(CreationDateFilter(d, false, sp), env, b) == Ok(false)
    ensures Execute(EditDateFilter(d, false, sp), env, b) == Ok(false)
    ensures b.createTime == d + 1 ==> Execute(CreationDateFilter(d, false, sp), env, b) == Ok(false)
  {
  }

  /** With the intended rule, a date filter holds iff the ticket's time lies strictly on
      the bound's side; a "before" bound behaves as written. */
  lemma DateFiltersCompare(d: int, before: bool, sp: Span, env: Env, b: BugExcerpt)
    ensures !env.datesAsWritten ==>
      Execute(CreationDateFilter(d, before, sp), env, b) == Ok(if before then b.createTime < d else b.createTime > d)
    ensures !env.datesAsWritten ==>
      Execute(EditDateFilter(d, before, sp), env, b) == Ok(if before then b.editTime < d else b.editTime > d)
    ensures before ==> Execute(CreationDateFilter(d, before, sp), env, b) == Execute(CreationDateFilter(d, before, sp), env.(datesAsWritten := !env.datesAsWritten), b)
  {
  }
}
