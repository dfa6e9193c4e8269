/** RepoCache (cache/repo_cache_bug.go, cache/repo_cache_identity.go and
    cache/repo_cache_common.go): the in-memory cache of a repository's tickets and
    identities. It keeps an excerpt of every ticket and identity, the tickets and identities
    loaded in full, and the order in which the loaded tickets were last used, so that the
    oldest ones can be dropped. Reading from and writing to the repository, the disk and the
    network are parameters of the operations; the locks are left out. */
module RepoCaches {
  import opened Wrappers
  import opened Entity
  import opened StrUtil
  import opened Sorting
  import opened Identities
  import Statuses = Status
  import opened QueryAst
  import opened QueryModel
  import opened CacheExcerpts
  import CacheFilter
  import CacheResolve
  import opened LoadedBugs
  import opened CacheQuery
  import opened CacheCommon
  import Workflows
  import BugLabel
  import Checklists
  import Ccb
  import opened NewBugChecks
  import opened IdentityLookups
  import ConfigStore
  import opened MockRepo

  /** The cache file format this code reads and writes. */
  const FormatVersion: nat := 2

  /** The errors of the bug and identity packages (their text is not part of this model). */
  const BugNotExist: string := "ErrBugNotExist"
  const IdentityNotExist: string := "ErrIdentityNotExist"

  function MultipleMatch(kind: string, ids: seq<Id>): string {
    "ErrMultipleMatch " + kind + ": " + Join(ids, " ")
  }

  /** A ticket loaded in full (BugCache): its id, the excerpt its current state gives, and
      whether it holds operations not yet committed. */
  datatype CachedBug = CachedBug(id: Id, excerpt: BugExcerpt, needCommit: bool)

  /** NewBugCache over a ticket just read from the repository: nothing is pending. */
  function Loaded(id: Id, excerpt: BugExcerpt): (b: CachedBug)
    ensures b.id == id && b.excerpt == excerpt && !b.needCommit
  {
    CachedBug(id, excerpt, false)
  }

  function ExcerptId(e: BugExcerpt): Id { e.id }

  function IdentityExcerptId(e: IdentityExcerpt): Id { e.id }

  // ---------------------------------------------------------------- eviction

  /** The loaded tickets that eviction must keep: those with uncommitted operations. */
  function PinnedIn(bugs: map<Id, CachedBug>): Id -> bool {
    id => id in bugs && bugs[id].needCommit
  }

  /** A CCB member given by id resolves to an identity that is on the board. */
  predicate MemberOk(ids: map<Id, Identity>, read: Id -> Result<Identity>, board: Ccb.CcbConfig, m: Id) {
    var i := IdentityResolution(ids, read, m);
    i.Ok? && Ccb.IsCcbMember(board, i.value.id)
  }

  /** The error for a CCB member that is not acceptable: the resolution's error, or the
      identity's display name with the reason. */
  function MemberError(ids: map<Id, Identity>, read: Id -> Result<Identity>, displayName: Identity -> string, m: Id): string {
    var i := IdentityResolution(ids, read, m);
    if i.Err? then i.msg else "User " + displayName(i.value) + " is not a CCB member"
  }

  /** Every member of every status is acceptable. */
  predicate CcbValid(ids: map<Id, Identity>, read: Id -> Result<Identity>, board: Ccb.CcbConfig, members: map<Statuses.Status, seq<Id>>) {
    forall st, j :: st in members && 0 <= j < |members[st]| ==> MemberOk(ids, read, board, members[st][j])
  }

  /** `rs` are the identities of the members, in order, each acceptable. */
  predicate ResolvedAll(rs: seq<Identity>, ids: map<Id, Identity>, read: Id -> Result<Identity>, board: Ccb.CcbConfig, members: seq<Id>) {
    && |rs| == |members|
    && forall j :: 0 <= j < |members| ==>
         MemberOk(ids, read, board, members[j]) && rs[j] == IdentityResolution(ids, read, members[j]).value
  }

  /** The usage order evictIfNeeded leaves: unchanged within the limit, otherwise without
      the oldest tickets that need no commit, as many as bring it back to the limit. */
  function AfterEviction(lru: seq<Id>, bugs: map<Id, CachedBug>, max: int): seq<Id> {
    if |lru| <= max then lru else EvictOldest(lru, PinnedIn(bugs), |lru| - max)
  }

  /** The loaded tickets left when the ids that dropped out of the usage order are dropped. */
  function Dropped(bugs: map<Id, CachedBug>, before: seq<Id>, after: seq<Id>): map<Id, CachedBug> {
    map k | k in bugs && (k !in before || k in after) :: bugs[k]
  }

  /** Eviction keeps the usage order free of repetitions and within the loaded tickets;
      within the limit it changes nothing; it never drops a ticket that needs a commit; it
      drops the oldest tickets first; and it gets back to the limit unless every remaining
      ticket needs a commit. */
  lemma EvictionMeaning(lru: seq<Id>, bugs: map<Id, CachedBug>, max: int)
    requires Distinct(lru)
    ensures var r := AfterEviction(lru, bugs, max);
      && Distinct(r)
      && (forall x :: x in r ==> x in lru)
      && (|lru| <= max ==> r == lru)
      && (forall x :: x in lru && x in bugs && bugs[x].needCommit ==> x in r)
      && (forall i, j :: 0 <= i < j < |lru| && lru[j] !in r && !(lru[i] in bugs && bugs[lru[i]].needCommit) ==> lru[i] !in r)
      && (|r| <= max || forall x :: x in r ==> x in bugs && bugs[x].needCommit)
  {
    if |lru| > max {
      EvictOldestSpec(lru, PinnedIn(bugs), |lru| - max);
    }
  }

  /** What ResolveBug returns for an id: the loaded ticket, or the ticket read from the
      repository. */
  function BugResolution(bugs: map<Id, CachedBug>, read: Id -> Result<BugExcerpt>, id: Id): (r: Result<CachedBug>)
    ensures id in bugs ==> r == Ok(bugs[id])
    ensures id !in bugs ==> (r.Ok? <==> read(id).Ok?)
    ensures id !in bugs && r.Ok? ==> r.value == Loaded(id, read(id).value)
  {
    if id in bugs then Ok(bugs[id])
    else if read(id).Ok? then Ok(Loaded(id, read(id).value))
    else Err(read(id).msg)
  }

  /** The loaded tickets and usage order after ResolveBug: a loaded ticket only becomes the
      most recently used; a ticket read from the repository is added as the most recently
      used, and then eviction runs. */
  ghost predicate LoadedAfter(bugs0: map<Id, CachedBug>, lru0: seq<Id>, max: int, read: Id -> Result<BugExcerpt>, id: Id,
                              bugs: map<Id, CachedBug>, lru: seq<Id>)
  {
    if id in bugs0 then bugs == bugs0 && lru == Touch(lru0, id)
    else if read(id).Err? then bugs == bugs0 && lru == lru0
    else
      var b1 := bugs0[id := Loaded(id, read(id).value)];
      var l1 := Add(lru0, id);
      lru == AfterEviction(l1, b1, max) && bugs == Dropped(b1, l1, lru)
  }

  /** The ticket side after RemoveBug, from the state ResolveBug left (`bugs1`, `lru1`): a
      failed resolution or a failed removal from the repository returns that error and keeps
      that state; otherwise the ticket's excerpt, its loaded copy and its place in the usage
      order are dropped and nothing else changes. */
  ghost predicate RemovedAfter(excerpts0: map<Id, BugExcerpt>, bugs1: map<Id, CachedBug>, lru1: seq<Id>, id: Id,
                               resolved: Result<CachedBug>, removed: Outcome, r: Outcome,
                               excerpts: map<Id, BugExcerpt>, bugs: map<Id, CachedBug>, lru: seq<Id>)
  {
    if resolved.Err? then r == Fail(resolved.msg) && excerpts == excerpts0 && bugs == bugs1 && lru == lru1
    else if removed.Fail? then r == removed && excerpts == excerpts0 && bugs == bugs1 && lru == lru1
    else r == Pass && excerpts == excerpts0 - {id} && bugs == bugs1 - {id} && lru == Without(lru1, id)
  }

  /** The ticket side after ResetBug, from the state ResolveBug left (`bugs1`, `lru1`): a
      failed resolution, reset or re-read returns that error and keeps that state; otherwise
      the re-read ticket replaces the loaded one, its excerpt is refreshed and it counts as
      just used. */
  ghost predicate ResetAfter(excerpts0: map<Id, BugExcerpt>, bugs1: map<Id, CachedBug>, lru1: seq<Id>, id: Id,
                             resolved: Result<CachedBug>, wasReset: Outcome, reread: Result<BugExcerpt>, r: Outcome,
                             excerpts: map<Id, BugExcerpt>, bugs: map<Id, CachedBug>, lru: seq<Id>)
  {
    if resolved.Err? then r == Fail(resolved.msg) && excerpts == excerpts0 && bugs == bugs1 && lru == lru1
    else if wasReset.Fail? then r == wasReset && excerpts == excerpts0 && bugs == bugs1 && lru == lru1
    else if reread.Err? then r == Fail(reread.msg) && excerpts == excerpts0 && bugs == bugs1 && lru == lru1
    else (r == Pass && excerpts == excerpts0[id := reread.value] && bugs == bugs1[id := Loaded(id, reread.value)]
      && lru == Touch(lru1, id))
  }

  /** A ticket just read stays loaded unless the limit is exceeded and the older tickets
      that need no commit are too few to make room for it. */
  lemma FreshStaysLoaded(lru: seq<Id>, bugs: map<Id, CachedBug>, max: int, id: Id, b: BugExcerpt)
    requires Distinct(lru) && id !in lru
    ensures var b1 := bugs[id := Loaded(id, b)];
      id in AfterEviction(Add(lru, id), b1, max) <==>
        (|lru| + 1 <= max || Unpinned(lru, PinnedIn(b1)) >= |lru| + 1 - max)
  {
    var b1 := bugs[id := Loaded(id, b)];
    var pinned := PinnedIn(b1);
    assert Add(lru, id) == lru + [id];
    if |lru| + 1 > max {
      var n := |lru| + 1 - max;
      EvictOldestAppend(lru, [id], pinned, n);
      EvictOldestSpec(lru, pinned, n);
      assert !pinned(id);
      var rest := n - (|lru| - |EvictOldest(lru, pinned, n)|);
      assert EvictOldest([id], pinned, rest) == if rest <= 0 then [id] else [];
    }
  }

  /** An excerpt whose id starts with the prefix. */
  function BugIdPrefix(prefix: string): BugExcerpt -> bool {
    (e: BugExcerpt) => HasPrefix(e.id, prefix)
  }

  /** A ticket whose create operation carries the value under the key (a missing key reads
      as the empty string). */
  function CreateMetadataIs(key: string, value: string): BugExcerpt -> bool {
    (e: BugExcerpt) => Lookup(e.createMetadata, key) == value
  }

  function IdentityIdPrefix(prefix: string): IdentityExcerpt -> bool {
    (e: IdentityExcerpt) => HasPrefix(e.id, prefix)
  }

  function PhabIdIs(phabId: string): IdentityExcerpt -> bool {
    (e: IdentityExcerpt) => e.phabId == phabId
  }

  function GiteaIdIs(giteaId: int): IdentityExcerpt -> bool {
    (e: IdentityExcerpt) => e.giteaId == giteaId
  }

  /** A label naming one of the stored workflows. */
  predicate IsWorkflowLabel(l: string) {
    exists i :: 0 <= i < |Workflows.Store| && Workflows.Store[i].name == l
  }

  /** A label naming a checklist that is not deprecated. */
  predicate IsChecklistLabel(cfg: ConfigCache, l: string) {
    exists k :: k in cfg.checklists && cfg.checklists[k].deprecated == "" && cfg.checklists[k].name == l
  }

  /** The filter environment of the cache: identities are looked up among its excerpts. */
  function ExcerptResolver(excerpts: map<Id, IdentityExcerpt>): Id -> Option<IdentityExcerpt> {
    id => if id in excerpts then Some(excerpts[id]) else None
  }

  class RepoCache {
    /** The excerpt of every ticket. */
    var bugExcerpts: map<Id, BugExcerpt>
    /** The tickets loaded in full. */
    var bugs: map<Id, CachedBug>
    /** The loaded tickets, least recently used first. */
    var loadedBugs: seq<Id>
    var maxLoadedBugs: int
    /** The excerpt of every identity. */
    var identitiesExcerpts: map<Id, IdentityExcerpt>
    /** The identities loaded in full. */
    var identities: map<Id, Identity>
    /** The id of the user's own identity, or "" when not yet known. */
    var userIdentityId: Id

    /** The usage order lists loaded tickets, each once, and each loaded ticket knows its
        own id. */
    ghost predicate Valid()
      reads this
    {
      && Distinct(loadedBugs)
      && (forall id :: id in loadedBugs ==> id in bugs)
      && (forall id :: id in bugs ==> bugs[id].id == id)
    }

    ghost function IdentitySide(): (map<Id, IdentityExcerpt>, map<Id, Identity>, Id)
      reads this
    {
      (identitiesExcerpts, identities, userIdentityId)
    }

    ghost function BugSide(): (map<Id, BugExcerpt>, map<Id, CachedBug>, seq<Id>)
      reads this
    {
      (bugExcerpts, bugs, loadedBugs)
    }

    /** An empty cache that keeps at most `maxLoaded` tickets loaded. */
    constructor (maxLoaded: int)
      ensures Valid()
      ensures bugExcerpts == map[] && bugs == map[] && loadedBugs == [] && maxLoadedBugs == maxLoaded
      ensures identitiesExcerpts == map[] && identities == map[] && userIdentityId == ""
    {
      bugExcerpts := map[];
      bugs := map[];
      loadedBugs := [];
      maxLoadedBugs := maxLoaded;
      identitiesExcerpts := map[];
      identities := map[];
      userIdentityId := "";
    }

    // -------------------------------------------------------------- tickets

    /** bugUpdated: a ticket that is no longer loaded is refused (it may have been evicted
        while another copy was being edited); otherwise the ticket counts as just used and
        its excerpt is refreshed from it. Writing the cache file is not part of this model. */
    method BugUpdated(id: Id) returns (r: Outcome)
      requires Valid()
      modifies this
      ensures Valid()
      ensures IdentitySide() == old(IdentitySide()) && maxLoadedBugs == old(maxLoadedBugs)
      ensures id !in old(bugs) ==> r == Fail("bug missing from cache") && BugSide() == old(BugSide())
      ensures id in old(bugs) ==> (r == Pass && bugs == old(bugs)
        && loadedBugs == Touch(old(loadedBugs), id)
        && bugExcerpts == old(bugExcerpts)[id := old(bugs)[id].excerpt])
    {
      if id !in bugs {
        return Fail("bug missing from cache");
      }
      TouchAddDistinct(loadedBugs, id);
      loadedBugs := Touch(loadedBugs, id);
      bugExcerpts := bugExcerpts[id := bugs[id].excerpt];
      return Pass;
    }

    /** loadBugCache: the decoded file replaces the excerpts only when its version is the
        current one. */
    method LoadBugCache(version: nat, excerpts: map<Id, BugExcerpt>) returns (r: Outcome)
      modifies this
      ensures IdentitySide() == old(IdentitySide()) && bugs == old(bugs) && loadedBugs == old(loadedBugs)
      ensures maxLoadedBugs == old(maxLoadedBugs)
      ensures r.Pass? <==> version == FormatVersion
      ensures r.Pass? ==> bugExcerpts == excerpts
      ensures r.Fail? ==> r.msg == "unknown cache format version " + NatToString(version) && bugExcerpts == old(bugExcerpts)
    {
      if version != FormatVersion {
        return Fail("unknown cache format version " + NatToString(version));
      }
      bugExcerpts := excerpts;
      return Pass;
    }

    /** ResolveBugExcerpt: the excerpt stored under exactly this id. */
    function ResolveBugExcerpt(id: Id): (r: Result<BugExcerpt>)
      reads this
      ensures r.Ok? <==> id in bugExcerpts
      ensures r.Ok? ==> r.value == bugExcerpts[id]
      ensures r.Err? ==> r.msg == BugNotExist
    {
      if id in bugExcerpts then Ok(bugExcerpts[id]) else Err(BugNotExist)
    }

    /** evictIfNeeded: while more tickets are loaded than allowed, walks them from least to
        most recently used, skips those that need a commit and drops the others from both
        the usage order and the loaded tickets, stopping as soon as the limit is met. */
    method EvictIfNeeded()
      requires Valid()
      modifies this
      ensures Valid()
      ensures IdentitySide() == old(IdentitySide()) && bugExcerpts == old(bugExcerpts)
      ensures maxLoadedBugs == old(maxLoadedBugs)
      ensures loadedBugs == AfterEviction(old(loadedBugs), old(bugs), maxLoadedBugs)
      ensures bugs == Dropped(old(bugs), old(loadedBugs), loadedBugs)
    {
      var lru, loaded := Evict(loadedBugs, bugs, maxLoadedBugs);
      loadedBugs, bugs := lru, loaded;
    }

    /** The walk of evictIfNeeded over the usage order `order` and the loaded tickets. */
    static method Evict(order: seq<Id>, bugs0: map<Id, CachedBug>, max: int) returns (lru: seq<Id>, loaded: map<Id, CachedBug>)
      requires Distinct(order) && forall k :: k in order ==> k in bugs0
      ensures lru == AfterEviction(order, bugs0, max)
      ensures loaded == Dropped(bugs0, order, lru)
      ensures Distinct(lru) && forall k :: k in lru ==> k in loaded
    {
      lru := order;
      loaded := bugs0;
      if |order| <= max {
        assert loaded == Dropped(bugs0, order, lru);
        return;
      }
      ghost var pinned := PinnedIn(bugs0);
      ghost var n := |order| - max;
      assert AfterEviction(order, bugs0, max) == EvictOldest(order, pinned, n);
      var i := 0;
      assert order[..0] == [] && order[0..] == order;
      while i < |order|
        invariant 0 <= i <= |order|
        invariant lru == EvictOldest(order[..i], pinned, n) + order[i..]
        invariant |lru| > max
        invariant forall k :: k in lru ==> k in order
        invariant loaded == Dropped(bugs0, order, lru)
        invariant Distinct(lru)
        decreases |order| - i
      {
        var id := order[i];
        EvictWalk(order, i, pinned, n, max);
        if bugs0[id].needCommit {
          i := i + 1;
          continue;
        }
        WithoutDistinct(lru, id);
        DropStep(bugs0, order, lru, id);
        lru := Without(lru, id);
        assert lru == EvictOldest(order[..i + 1], pinned, n) + order[i + 1..];
        loaded := map k | k in loaded && k != id :: loaded[k];
        if |lru| <= max {
          EvictDone(order, i + 1, pinned, n);
          assert lru == EvictOldest(order, pinned, n);
          return;
        }
        i := i + 1;
      }
      assert order[..i] == order && order[i..] == [];
      assert lru == EvictOldest(order, pinned, n);
    }

    /** Dropping a ticket from both the usage order and the loaded tickets keeps the loaded
        tickets in step with the order. */
    static lemma DropStep(bugs0: map<Id, CachedBug>, order: seq<Id>, lru: seq<Id>, id: Id)
      requires id in order
      ensures (map k | k in Dropped(bugs0, order, lru) && k != id :: Dropped(bugs0, order, lru)[k])
        == Dropped(bugs0, order, Without(lru, id))
    {
    }

    /** One step of evictIfNeeded's walk while the limit is exceeded: a pinned entry stays,
        any other entry is removed from the order. */
    static lemma EvictWalk(order: seq<Id>, i: nat, pinned: Id -> bool, n: int, max: int)
      requires Distinct(order) && i < |order| && n == |order| - max
      requires |EvictOldest(order[..i], pinned, n) + order[i..]| > max
      ensures var before := EvictOldest(order[..i], pinned, n) + order[i..];
        var after := EvictOldest(order[..i + 1], pinned, n) + order[i + 1..];
        if pinned(order[i]) then after == before else after == Without(before, order[i])
    {
      var id := order[i];
      var prefix := EvictOldest(order[..i], pinned, n);
      EvictOldestAppend(order[..i], [id], pinned, n);
      assert order[..i + 1] == order[..i] + [id];
      assert order[i..] == [id] + order[i + 1..];
      if !pinned(id) {
        EvictOldestSpec(order[..i], pinned, n);
        assert id !in order[..i];
        assert id !in order[i + 1..];
        assert prefix + order[i..] == prefix + [id] + order[i + 1..];
        WithoutAt(prefix, id, order[i + 1..]);
      }
    }

    /** Once the walk has used up the budget, the rest of the order stays as it is. */
    static lemma EvictDone(order: seq<Id>, i: nat, pinned: Id -> bool, n: int)
      requires i <= |order|
      requires n - (i - |EvictOldest(order[..i], pinned, n)|) <= 0
      ensures EvictOldest(order, pinned, n) == EvictOldest(order[..i], pinned, n) + order[i..]
    {
      EvictOldestAppend(order[..i], order[i..], pinned, n);
      assert order[..i] + order[i..] == order;
    }

    /** ResolveBug: a loaded ticket counts as just used; any other is read from the
        repository, loaded as the most recently used, and then eviction runs. */
    method ResolveBug(id: Id, read: Id -> Result<BugExcerpt>) returns (r: Result<CachedBug>)
      requires Valid()
      modifies this
      ensures Valid()
      ensures IdentitySide() == old(IdentitySide()) && bugExcerpts == old(bugExcerpts) && maxLoadedBugs == old(maxLoadedBugs)
      ensures r == BugResolution(old(bugs), read, id)
      ensures r.Ok? ==> r.value.id == id
      ensures LoadedAfter(old(bugs), old(loadedBugs), maxLoadedBugs, read, id, bugs, loadedBugs)
    {
      if id in bugs {
        TouchAddDistinct(loadedBugs, id);
        loadedBugs := Touch(loadedBugs, id);
        return Ok(bugs[id]);
      }
      var b := read(id);
      if b.Err? {
        return Err(b.msg);
      }
      var cached := Loaded(id, b.value);
      TouchAddDistinct(loadedBugs, id);
      bugs := bugs[id := cached];
      loadedBugs := Add(loadedBugs, id);
      EvictIfNeeded();
      return Ok(cached);
    }

    /** resolveBugMatcher: the id of the one excerpt the predicate accepts; no match is
        ErrBugNotExist, several are the multiple-match error listing them in the order the
        excerpts were visited (`order`). */
    method ResolveBugId(f: BugExcerpt -> bool) returns (r: Result<Id>, ghost order: seq<Id>)
      ensures r.Ok? <==> |CacheResolve.Matching(bugExcerpts, f)| == 1
      ensures r.Ok? ==> exists k :: CacheResolve.Matching(bugExcerpts, f) == {k} && r.value == bugExcerpts[k].id
      ensures CacheResolve.Matching(bugExcerpts, f) == {} ==> r == Err(BugNotExist)
      ensures |CacheResolve.Matching(bugExcerpts, f)| > 1 ==>
        && Distinct(order) && (forall k :: k in order <==> k in CacheResolve.Matching(bugExcerpts, f))
        && r == Err(MultipleMatch("bug", CacheResolve.IdsOf(bugExcerpts, order, ExcerptId)))
    {
      var found;
      found, order := CacheResolve.ResolveMatcher(bugExcerpts, f, ExcerptId);
      match found {
        case Found(id) => return Ok(id), order;
        case NotFound => return Err(BugNotExist), order;
        case Ambiguous(ids) => return Err(MultipleMatch("bug", ids)), order;
      }
    }

    /** ResolveBugExcerptMatcher: the excerpt stored under the matched id. */
    method ResolveBugExcerptMatcher(f: BugExcerpt -> bool) returns (r: Result<BugExcerpt>, ghost order: seq<Id>)
      ensures |CacheResolve.Matching(bugExcerpts, f)| != 1 ==> r.Err?
      ensures |CacheResolve.Matching(bugExcerpts, f)| == 1 ==>
        exists k :: CacheResolve.Matching(bugExcerpts, f) == {k} && r == ResolveBugExcerpt(bugExcerpts[k].id)
    {
      var id;
      id, order := ResolveBugId(f);
      if id.Err? {
        return Err(id.msg), order;
      }
      return ResolveBugExcerpt(id.value), order;
    }

    /** ResolveBugMatcher: the ticket with the matched id, resolved as ResolveBug does. */
    method ResolveBugMatcher(f: BugExcerpt -> bool, read: Id -> Result<BugExcerpt>) returns (r: Result<CachedBug>, ghost order: seq<Id>)
      requires Valid()
      modifies this
      ensures Valid()
      ensures IdentitySide() == old(IdentitySide()) && bugExcerpts == old(bugExcerpts) && maxLoadedBugs == old(maxLoadedBugs)
      ensures |CacheResolve.Matching(bugExcerpts, f)| != 1 ==> r.Err? && BugSide() == old(BugSide())
      ensures |CacheResolve.Matching(bugExcerpts, f)| == 1 ==>
        exists k :: (CacheResolve.Matching(bugExcerpts, f) == {k}
          && r == BugResolution(old(bugs), read, bugExcerpts[k].id)
          && LoadedAfter(old(bugs), old(loadedBugs), maxLoadedBugs, read, bugExcerpts[k].id, bugs, loadedBugs))
    {
      var id;
      id, order := ResolveBugId(f);
      if id.Err? {
        return Err(id.msg), order;
      }
      r := ResolveBug(id.value, read);
    }

    /** ResolveBugExcerptPrefix: the excerpt of the one ticket whose id starts with the prefix. */
    method ResolveBugExcerptPrefix(prefix: string) returns (r: Result<BugExcerpt>, ghost order: seq<Id>)
      ensures |CacheResolve.Matching(bugExcerpts, BugIdPrefix(prefix))| != 1 ==> r.Err?
      ensures |CacheResolve.Matching(bugExcerpts, BugIdPrefix(prefix))| == 1 ==>
        exists k :: (CacheResolve.Matching(bugExcerpts, BugIdPrefix(prefix)) == {k} && HasPrefix(bugExcerpts[k].id, prefix)
          && r == ResolveBugExcerpt(bugExcerpts[k].id))
    {
      r, order := ResolveBugExcerptMatcher(BugIdPrefix(prefix));
    }

    /** ResolveBugPrefix: the one ticket whose id starts with the prefix. */
    method ResolveBugPrefix(prefix: string, read: Id -> Result<BugExcerpt>) returns (r: Result<CachedBug>, ghost order: seq<Id>)
      requires Valid()
      modifies this
      ensures Valid()
      ensures IdentitySide() == old(IdentitySide()) && bugExcerpts == old(bugExcerpts) && maxLoadedBugs == old(maxLoadedBugs)
      ensures |CacheResolve.Matching(bugExcerpts, BugIdPrefix(prefix))| != 1 ==> r.Err? && BugSide() == old(BugSide())
      ensures |CacheResolve.Matching(bugExcerpts, BugIdPrefix(prefix))| == 1 ==>
        exists k :: (CacheResolve.Matching(bugExcerpts, BugIdPrefix(prefix)) == {k} && HasPrefix(bugExcerpts[k].id, prefix)
          && r == BugResolution(old(bugs), read, bugExcerpts[k].id)
          && LoadedAfter(old(bugs), old(loadedBugs), maxLoadedBugs, read, bugExcerpts[k].id, bugs, loadedBugs))
    {
      r, order := ResolveBugMatcher(BugIdPrefix(prefix), read);
    }

    /** ResolveBugCreateMetadata: the one ticket whose create operation carries the value
        under the key. */
    method ResolveBugCreateMetadata(key: string, value: string, read: Id -> Result<BugExcerpt>) returns (r: Result<CachedBug>, ghost order: seq<Id>)
      requires Valid()
      modifies this
      ensures Valid()
      ensures IdentitySide() == old(IdentitySide()) && bugExcerpts == old(bugExcerpts) && maxLoadedBugs == old(maxLoadedBugs)
      ensures |CacheResolve.Matching(bugExcerpts, CreateMetadataIs(key, value))| != 1 ==> r.Err? && BugSide() == old(BugSide())
      ensures |CacheResolve.Matching(bugExcerpts, CreateMetadataIs(key, value))| == 1 ==>
        exists k :: (CacheResolve.Matching(bugExcerpts, CreateMetadataIs(key, value)) == {k}
          && Lookup(bugExcerpts[k].createMetadata, key) == value
          && r == BugResolution(old(bugs), read, bugExcerpts[k].id)
          && LoadedAfter(old(bugs), old(loadedBugs), maxLoadedBugs, read, bugExcerpts[k].id, bugs, loadedBugs))
    {
      r, order := ResolveBugMatcher(CreateMetadataIs(key, value), read);
    }

    /** AllBugsIds: the id of every excerpt, once each, in visiting order. */
    method AllBugsIds() returns (r: seq<Id>, ghost order: seq<Id>)
      ensures Distinct(order) && (forall k :: k in order <==> k in bugExcerpts)
      ensures |r| == |bugExcerpts| && r == CacheResolve.IdsOf(bugExcerpts, order, ExcerptId)
    {
      r, order := CacheResolve.AllIds(bugExcerpts, ExcerptId);
    }

    /** QueryBugs: without a query, every id. Otherwise the excerpts the filter keeps, in
        visiting order, ordered by the query's ordering node, which is set to the default
        (edit time, newest first) when missing; the query with that node is returned. A
        filter or ordering that cannot be executed (a panic in the source) is an error. */
    method QueryBugs(q: Option<CompiledQuery>, idMatch: (IdentityExcerpt, string) -> bool, datesAsWritten: bool)
      returns (r: Result<seq<Id>>, q': Option<CompiledQuery>, ghost order: seq<Id>)
      ensures Distinct(order) && forall k :: k in order ==> k in bugExcerpts
      ensures q.None? ==> (q' == None && r.Ok? && |r.value| == |bugExcerpts|
        && (forall k :: k in order <==> k in bugExcerpts) && r.value == CacheResolve.IdsOf(bugExcerpts, order, ExcerptId))
      ensures q.Some? ==> var env := CacheFilter.Env(ExcerptResolver(identitiesExcerpts), idMatch, datesAsWritten);
        var sel := Select(bugExcerpts, order, q.value.filter, env);
        && (sel.Err? ==> r == Err(sel.msg) && q' == q)
        && (sel.Ok? ==> ((forall k :: k in order <==> k in bugExcerpts)
          && q'.Some? && q'.value.filter == q.value.filter && q'.value.color == q.value.color
          && q'.value.order == Some(if q.value.order.None? then DefaultOrder else q.value.order.value)
          && r == Ordered(sel.value, q'.value.order.value)))
    {
      if q.None? {
        var ids;
        ids, order := AllBugsIds();
        return Ok(ids), None, order;
      }
      var env := CacheFilter.Env(ExcerptResolver(identitiesExcerpts), idMatch, datesAsWritten);
      var filter := q.value.filter;
      var keys := bugExcerpts.Keys;
      var filtered: seq<BugExcerpt> := [];
      order := [];
      while keys != {}
        invariant keys <= bugExcerpts.Keys
        invariant Distinct(order) && forall k :: k in order <==> k in bugExcerpts && k !in keys
        invariant Select(bugExcerpts, order, filter, env) == Ok(filtered)
        decreases |keys|
      {
        var k :| k in keys;
        var keep := Verdict(filter, env, bugExcerpts[k]);
        SelectAppend(bugExcerpts, order, k, filter, env);
        order := order + [k];
        if keep.Err? {
          return Err(keep.msg), q, order;
        }
        if keep.value {
          filtered := filtered + [bugExcerpts[k]];
        }
        keys := keys - {k};
      }
      var o := if q.value.order.None? then DefaultOrder else q.value.order.value;
      q' := Some(q.value.(order := Some(o)));
      r := Ordered(filtered, o);
    }

    /** ValidLabels: the configured labels, the workflow labels and the labels of the
        checklists that are not deprecated, each once, in string order. */
    method ValidLabels(cfg: ConfigCache) returns (r: seq<string>)
      ensures SortedStrings(r) && Distinct(r)
      ensures forall l :: l in r <==> l in cfg.labels || IsWorkflowLabel(l) || IsChecklistLabel(cfg, l)
    {
      var labels := cfg.labels.Keys;
      var wfs := Workflows.GetWorkflowLabels();
      var i := 0;
      while i < |wfs|
        invariant 0 <= i <= |wfs|
        invariant labels == cfg.labels.Keys + (set x | x in wfs[..i])
      {
        assert wfs[..i + 1] == wfs[..i] + [wfs[i]];
        labels := labels + {wfs[i]};
        i := i + 1;
      }
      assert wfs[..i] == wfs;
      var cls := Checklists.GetChecklistLabels(cfg.checklists);
      ghost var before := labels;
      i := 0;
      while i < |cls|
        invariant 0 <= i <= |cls|
        invariant labels == before + (set x | x in cls[..i])
      {
        assert cls[..i + 1] == cls[..i] + [cls[i]];
        labels := labels + {cls[i]};
        i := i + 1;
      }
      assert cls[..i] == cls;
      WorkflowLabels(wfs);
      var listed := Listed(labels);
      r := SortStrings(listed);
      SortStringsSorted(listed);
      DistinctPermutation(listed, r);
      SameElements(listed, r);
    }

    /** Listing a set in some order, each element once (the walk over a Go map). */
    static method Listed(s: set<string>) returns (r: seq<string>)
      ensures Distinct(r) && forall x :: x in r <==> x in s
    {
      var rest := s;
      r := [];
      while rest != {}
        invariant rest <= s
        invariant Distinct(r) && forall x :: x in r <==> x in s && x !in rest
        decreases |rest|
      {
        var x :| x in rest;
        r := r + [x];
        rest := rest - {x};
      }
    }

    static lemma WorkflowLabels(wfs: seq<string>)
      requires |wfs| == |Workflows.Store| && forall i :: 0 <= i < |wfs| ==> wfs[i] == Workflows.Store[i].name
      ensures forall l :: l in wfs <==> IsWorkflowLabel(l)
    {
    }

    static lemma SameElements(a: seq<string>, b: seq<string>)
      requires multiset(a) == multiset(b)
      ensures forall x :: x in a <==> x in b
    {
      assert forall x :: x in a <==> x in multiset(a);
      assert forall x :: x in b <==> x in multiset(b);
    }

    /** RemoveBug: resolves the ticket by prefix, removes it from the repository, then from
        the excerpts, the loaded tickets and the usage order. Writing the cache file is not
        part of this model. */
    method RemoveBug(prefix: string, read: Id -> Result<BugExcerpt>, remove: Id -> Outcome) returns (r: Outcome)
      requires Valid()
      modifies this
      ensures Valid()
      ensures IdentitySide() == old(IdentitySide()) && maxLoadedBugs == old(maxLoadedBugs)
      ensures |CacheResolve.Matching(old(bugExcerpts), BugIdPrefix(prefix))| != 1 ==> r.Fail? && BugSide() == old(BugSide())
      ensures r.Pass? ==> exists k :: (CacheResolve.Matching(old(bugExcerpts), BugIdPrefix(prefix)) == {k}
          && var id := old(bugExcerpts)[k].id;
          && BugResolution(old(bugs), read, id).Ok? && remove(id) == Pass
          && bugExcerpts == old(bugExcerpts) - {id} && id !in bugs && id !in loadedBugs)
      ensures |CacheResolve.Matching(old(bugExcerpts), BugIdPrefix(prefix))| == 1 ==>
        exists k :: (CacheResolve.Matching(old(bugExcerpts), BugIdPrefix(prefix)) == {k}
          && var id := old(bugExcerpts)[k].id;
          exists bugs1: map<Id, CachedBug>, lru1: seq<Id> ::
            && LoadedAfter(old(bugs), old(loadedBugs), maxLoadedBugs, read, id, bugs1, lru1)
            && RemovedAfter(old(bugExcerpts), bugs1, lru1, id, BugResolution(old(bugs), read, id), remove(id), r,
                            bugExcerpts, bugs, loadedBugs))
    {
      var b;
      ghost var order;
      b, order := ResolveBugPrefix(prefix, read);
      if b.Err? {
        return Fail(b.msg);
      }
      var id := b.value.id;
      var removed := remove(id);
      if removed.Fail? {
        return removed;
      }
      WithoutDistinct(loadedBugs, id);
      bugs := bugs - {id};
      bugExcerpts := bugExcerpts - {id};
      loadedBugs := Without(loadedBugs, id);
      return Pass;
    }

    /** ResetBug: resolves the ticket by prefix, resets it to the remote state in the
        repository, reads it again, replaces the loaded ticket and refreshes its excerpt. */
    method ResetBug(prefix: string, read: Id -> Result<BugExcerpt>, reset: Id -> Outcome, reread: Id -> Result<BugExcerpt>)
      returns (r: Outcome)
      requires Valid()
      modifies this
      ensures Valid()
      ensures IdentitySide() == old(IdentitySide()) && maxLoadedBugs == old(maxLoadedBugs)
      ensures |CacheResolve.Matching(old(bugExcerpts), BugIdPrefix(prefix))| != 1 ==> r.Fail? && BugSide() == old(BugSide())
      ensures r.Pass? ==> exists k :: (CacheResolve.Matching(old(bugExcerpts), BugIdPrefix(prefix)) == {k}
          && var id := old(bugExcerpts)[k].id;
          && BugResolution(old(bugs), read, id).Ok? && reset(id) == Pass && reread(id).Ok?
          && bugExcerpts == old(bugExcerpts)[id := reread(id).value]
          && id in bugs && bugs[id] == Loaded(id, reread(id).value))
      ensures |CacheResolve.Matching(old(bugExcerpts), BugIdPrefix(prefix))| == 1 ==>
        exists k :: (CacheResolve.Matching(old(bugExcerpts), BugIdPrefix(prefix)) == {k}
          && var id := old(bugExcerpts)[k].id;
          exists bugs1: map<Id, CachedBug>, lru1: seq<Id> ::
            && LoadedAfter(old(bugs), old(loadedBugs), maxLoadedBugs, read, id, bugs1, lru1)
            && ResetAfter(old(bugExcerpts), bugs1, lru1, id, BugResolution(old(bugs), read, id), reset(id), reread(id), r,
                          bugExcerpts, bugs, loadedBugs))
    {
      var b;
      ghost var order;
      b, order := ResolveBugPrefix(prefix, read);
      if b.Err? {
        return Fail(b.msg);
      }
      var id := b.value.id;
      var done := reset(id);
      if done.Fail? {
        return done;
      }
      var again := reread(id);
      if again.Err? {
        return Fail(again.msg);
      }
      bugs := bugs[id := Loaded(id, again.value)];
      r := BugUpdated(id);
    }

    // -------------------------------------------------------------- identities

    /** identityUpdated: the excerpt of a loaded identity is refreshed from it; an identity
        that is not loaded is a panic. Writing the cache file is not part of this model. */
    method IdentityUpdated(id: Id) returns (r: Outcome)
      modifies this
      ensures BugSide() == old(BugSide()) && identities == old(identities) && userIdentityId == old(userIdentityId)
      ensures maxLoadedBugs == old(maxLoadedBugs)
      ensures r.Fail? <==> id !in identities
      ensures r.Fail? ==> r.msg == "missing identity in the cache" && identitiesExcerpts == old(identitiesExcerpts)
      ensures r.Pass? ==> identitiesExcerpts == old(identitiesExcerpts)[id := ExcerptOf(identities[id])]
    {
      if id !in identities {
        return Fail("missing identity in the cache");
      }
      identitiesExcerpts := identitiesExcerpts[id := ExcerptOf(identities[id])];
      return Pass;
    }

    /** loadIdentityCache: the decoded file replaces the excerpts only when its version is
        the current one. */
    method LoadIdentityCache(version: nat, excerpts: map<Id, IdentityExcerpt>) returns (r: Outcome)
      modifies this
      ensures BugSide() == old(BugSide()) && identities == old(identities) && userIdentityId == old(userIdentityId)
      ensures maxLoadedBugs == old(maxLoadedBugs)
      ensures r.Pass? <==> version == FormatVersion
      ensures r.Pass? ==> identitiesExcerpts == excerpts
      ensures r.Fail? ==> r.msg == "unknown cache format version " + NatToString(version) && identitiesExcerpts == old(identitiesExcerpts)
    {
      if version != FormatVersion {
        return Fail("unknown cache format version " + NatToString(version));
      }
      identitiesExcerpts := excerpts;
      return Pass;
    }

    /** ResolveIdentityExcerpt: the excerpt stored under exactly this id. */
    function ResolveIdentityExcerpt(id: Id): (r: Result<IdentityExcerpt>)
      reads this
      ensures r.Ok? <==> id in identitiesExcerpts
      ensures r.Ok? ==> r.value == identitiesExcerpts[id]
      ensures r.Err? ==> r.msg == IdentityNotExist
    {
      if id in identitiesExcerpts then Ok(identitiesExcerpts[id]) else Err(IdentityNotExist)
    }

    /** ResolveIdentity: a loaded identity, or the identity read from the repository, which
        is then kept. */
    method ResolveIdentity(id: Id, read: Id -> Result<Identity>) returns (r: Result<Identity>)
      modifies this
      ensures BugSide() == old(BugSide()) && identitiesExcerpts == old(identitiesExcerpts) && userIdentityId == old(userIdentityId)
      ensures maxLoadedBugs == old(maxLoadedBugs)
      ensures r == IdentityResolution(old(identities), read, id)
      ensures identities == AfterResolve(old(identities), read, id)
    {
      if id in identities {
        return Ok(identities[id]);
      }
      var i := read(id);
      if i.Err? {
        return i;
      }
      identities := identities[id := i.value];
      return i;
    }

    /** resolveIdentityMatcher: the id of the one identity excerpt the predicate accepts;
        no match is ErrIdentityNotExist, several are the multiple-match error listing them
        in visiting order. */
    method ResolveIdentityId(f: IdentityExcerpt -> bool) returns (r: Result<Id>, ghost order: seq<Id>)
      ensures r.Ok? <==> |CacheResolve.Matching(identitiesExcerpts, f)| == 1
      ensures r.Ok? ==> exists k :: CacheResolve.Matching(identitiesExcerpts, f) == {k} && r.value == identitiesExcerpts[k].id
      ensures CacheResolve.Matching(identitiesExcerpts, f) == {} ==> r == Err(IdentityNotExist)
      ensures |CacheResolve.Matching(identitiesExcerpts, f)| > 1 ==>
        && Distinct(order) && (forall k :: k in order <==> k in CacheResolve.Matching(identitiesExcerpts, f))
        && r == Err(MultipleMatch("identity", CacheResolve.IdsOf(identitiesExcerpts, order, IdentityExcerptId)))
    {
      var found;
      found, order := CacheResolve.ResolveMatcher(identitiesExcerpts, f, IdentityExcerptId);
      match found {
        case Found(id) => return Ok(id), order;
        case NotFound => return Err(IdentityNotExist), order;
        case Ambiguous(ids) => return Err(MultipleMatch("identity", ids)), order;
      }
    }

    /** ResolveIdentityExcerptMatcher: the excerpt stored under the matched id. */
    method ResolveIdentityExcerptMatcher(f: IdentityExcerpt -> bool) returns (r: Result<IdentityExcerpt>, ghost order: seq<Id>)
      ensures |CacheResolve.Matching(identitiesExcerpts, f)| != 1 ==> r.Err?
      ensures |CacheResolve.Matching(identitiesExcerpts, f)| == 1 ==>
        exists k :: CacheResolve.Matching(identitiesExcerpts, f) == {k} && r == ResolveIdentityExcerpt(identitiesExcerpts[k].id)
    {
      var id;
      id, order := ResolveIdentityId(f);
      if id.Err? {
        return Err(id.msg), order;
      }
      return ResolveIdentityExcerpt(id.value), order;
    }

    /** ResolveIdentityMatcher: the identity with the matched id, resolved as
        ResolveIdentity does. */
    method ResolveIdentityMatcher(f: IdentityExcerpt -> bool, read: Id -> Result<Identity>) returns (r: Result<Identity>, ghost order: seq<Id>)
      modifies this
      ensures BugSide() == old(BugSide()) && identitiesExcerpts == old(identitiesExcerpts) && userIdentityId == old(userIdentityId)
      ensures maxLoadedBugs == old(maxLoadedBugs)
      ensures |CacheResolve.Matching(identitiesExcerpts, f)| != 1 ==> r.Err? && identities == old(identities)
      ensures |CacheResolve.Matching(identitiesExcerpts, f)| == 1 ==>
        exists k :: (CacheResolve.Matching(identitiesExcerpts, f) == {k}
          && r == IdentityResolution(old(identities), read, identitiesExcerpts[k].id)
          && identities == AfterResolve(old(identities), read, identitiesExcerpts[k].id))
    {
      var id;
      id, order := ResolveIdentityId(f);
      if id.Err? {
        return Err(id.msg), order;
      }
      r := ResolveIdentity(id.value, read);
    }

    /** ResolveIdentityExcerptPrefix: the excerpt of the one identity whose id starts with
        the prefix. */
    method ResolveIdentityExcerptPrefix(prefix: string) returns (r: Result<IdentityExcerpt>, ghost order: seq<Id>)
      ensures |CacheResolve.Matching(identitiesExcerpts, IdentityIdPrefix(prefix))| != 1 ==> r.Err?
      ensures |CacheResolve.Matching(identitiesExcerpts, IdentityIdPrefix(prefix))| == 1 ==>
        exists k :: (CacheResolve.Matching(identitiesExcerpts, IdentityIdPrefix(prefix)) == {k}
          && HasPrefix(identitiesExcerpts[k].id, prefix)
          && r == ResolveIdentityExcerpt(identitiesExcerpts[k].id))
    {
      r, order := ResolveIdentityExcerptMatcher(IdentityIdPrefix(prefix));
    }

    /** ResolveIdentityPrefix, ResolveIdentityPhabID and ResolveIdentityGiteaID: the one
        identity whose excerpt the predicate (an id prefix, a Phabricator id, a Gitea id)
        accepts. */
    method ResolveIdentityPrefix(prefix: string, read: Id -> Result<Identity>) returns (r: Result<Identity>, ghost order: seq<Id>)
      modifies this
      ensures BugSide() == old(BugSide()) && identitiesExcerpts == old(identitiesExcerpts) && userIdentityId == old(userIdentityId)
      ensures maxLoadedBugs == old(maxLoadedBugs)
      ensures |CacheResolve.Matching(identitiesExcerpts, IdentityIdPrefix(prefix))| != 1 ==> r.Err? && identities == old(identities)
      ensures |CacheResolve.Matching(identitiesExcerpts, IdentityIdPrefix(prefix))| == 1 ==>
        exists k :: (CacheResolve.Matching(identitiesExcerpts, IdentityIdPrefix(prefix)) == {k}
          && HasPrefix(identitiesExcerpts[k].id, prefix)
          && r == IdentityResolution(old(identities), read, identitiesExcerpts[k].id)
          && identities == AfterResolve(old(identities), read, identitiesExcerpts[k].id))
    {
      r, order := ResolveIdentityMatcher(IdentityIdPrefix(prefix), read);
    }

    method ResolveIdentityPhabID(phabId: string, read: Id -> Result<Identity>) returns (r: Result<Identity>, ghost order: seq<Id>)
      modifies this
      ensures BugSide() == old(BugSide()) && identitiesExcerpts == old(identitiesExcerpts) && userIdentityId == old(userIdentityId)
      ensures maxLoadedBugs == old(maxLoadedBugs)
      ensures |CacheResolve.Matching(identitiesExcerpts, PhabIdIs(phabId))| != 1 ==> r.Err? && identities == old(identities)
      ensures |CacheResolve.Matching(identitiesExcerpts, PhabIdIs(phabId))| == 1 ==>
        exists k :: (CacheResolve.Matching(identitiesExcerpts, PhabIdIs(phabId)) == {k}
          && identitiesExcerpts[k].phabId == phabId
          && r == IdentityResolution(old(identities), read, identitiesExcerpts[k].id)
          && identities == AfterResolve(old(identities), read, identitiesExcerpts[k].id))
    {
      r, order := ResolveIdentityMatcher(PhabIdIs(phabId), read);
    }

    method ResolveIdentityGiteaID(giteaId: int, read: Id -> Result<Identity>) returns (r: Result<Identity>, ghost order: seq<Id>)
      modifies this
      ensures BugSide() == old(BugSide()) && identitiesExcerpts == old(identitiesExcerpts) && userIdentityId == old(userIdentityId)
      ensures maxLoadedBugs == old(maxLoadedBugs)
      ensures |CacheResolve.Matching(identitiesExcerpts, GiteaIdIs(giteaId))| != 1 ==> r.Err? && identities == old(identities)
      ensures |CacheResolve.Matching(identitiesExcerpts, GiteaIdIs(giteaId))| == 1 ==>
        exists k :: (CacheResolve.Matching(identitiesExcerpts, GiteaIdIs(giteaId)) == {k}
          && identitiesExcerpts[k].giteaId == giteaId
          && r == IdentityResolution(old(identities), read, identitiesExcerpts[k].id)
          && identities == AfterResolve(old(identities), read, identitiesExcerpts[k].id))
    {
      r, order := ResolveIdentityMatcher(GiteaIdIs(giteaId), read);
    }

    /** AllIdentityIds: the id of every identity excerpt, once each, in visiting order. */
    method AllIdentityIds() returns (r: seq<Id>, ghost order: seq<Id>)
      ensures Distinct(order) && (forall k :: k in order <==> k in identitiesExcerpts)
      ensures |r| == |identitiesExcerpts| && r == CacheResolve.IdsOf(identitiesExcerpts, order, IdentityExcerptId)
    {
      r, order := CacheResolve.AllIds(identitiesExcerpts, IdentityExcerptId);
    }

    /** AllIdentityExcerpts: every identity excerpt, once each, in visiting order. */
    method AllIdentityExcerpts() returns (r: seq<IdentityExcerpt>, ghost order: seq<Id>)
      ensures Distinct(order) && (forall k :: k in order <==> k in identitiesExcerpts)
      ensures |r| == |identitiesExcerpts| == |order| && forall i :: 0 <= i < |r| ==> r[i] == identitiesExcerpts[order[i]]
    {
      r, order := CacheResolve.AllValues(identitiesExcerpts);
    }

    /** finishIdentity: after the commit (which fixes the identity's id), an identity the
        cache already holds is refused; otherwise it is loaded and its excerpt written. The
        immutable metadata is not part of this model. */
    method FinishIdentity(i: Identity, commit: Outcome) returns (r: Result<Identity>)
      modifies this
      ensures BugSide() == old(BugSide()) && userIdentityId == old(userIdentityId) && maxLoadedBugs == old(maxLoadedBugs)
      ensures commit.Fail? ==> r == Err(commit.msg)
      ensures commit.Pass? && i.id in old(identities) ==> r == Err("identity " + i.id + " already exist in the cache")
      ensures r.Err? ==> identities == old(identities) && identitiesExcerpts == old(identitiesExcerpts)
      ensures r.Ok? <==> commit.Pass? && i.id !in old(identities)
      ensures r.Ok? ==> (r.value == i && identities == old(identities)[i.id := i]
        && identitiesExcerpts == old(identitiesExcerpts)[i.id := ExcerptOf(i)])
    {
      if commit.Fail? {
        return Err(commit.msg);
      }
      if i.id in identities {
        return Err("identity " + i.id + " already exist in the cache");
      }
      identities := identities[i.id := i];
      var updated := IdentityUpdated(i.id);
      return Ok(i);
    }

    /** NewIdentityWithKeyRaw: looks up the Phabricator id (by the e-mail) and the Gitea id
        (by the Gitea user name) unless told to skip them, builds the identity and finishes
        it. `newId` is the id the commit gives the identity. */
    method NewIdentityWithKeyRaw(newId: Id, name: string, email: string, login: string,
                                 skipPhabId: bool, skipGiteaId: bool, giteaUserName: string,
                                 phab: string -> Result<seq<string>>, gitea: string -> Result<seq<int>>, commit: Outcome)
      returns (r: Result<Identity>)
      modifies this
      ensures BugSide() == old(BugSide()) && userIdentityId == old(userIdentityId) && maxLoadedBugs == old(maxLoadedBugs)
      ensures PhabIdFor(email, skipPhabId, phab).Err? ==> r == Err(PhabIdFor(email, skipPhabId, phab).msg)
      ensures PhabIdFor(email, skipPhabId, phab).Ok? && GiteaIdFor(giteaUserName, skipGiteaId, gitea).Err? ==>
        r == Err(Wrap(GiteaIdFor(giteaUserName, skipGiteaId, gitea).msg, "failed to retrieve users Gitea ID"))
      ensures r.Err? ==> identities == old(identities) && identitiesExcerpts == old(identitiesExcerpts)
      ensures r.Ok? <==> (PhabIdFor(email, skipPhabId, phab).Ok? && GiteaIdFor(giteaUserName, skipGiteaId, gitea).Ok?
        && commit.Pass? && newId !in old(identities))
      ensures r.Ok? ==> (r.value == Identity(newId, name, email, login, PhabIdFor(email, skipPhabId, phab).value,
          GiteaIdFor(giteaUserName, skipGiteaId, gitea).value)
        && identities == old(identities)[newId := r.value]
        && identitiesExcerpts == old(identitiesExcerpts)[newId := ExcerptOf(r.value)])
    {
      var phabId := PhabIdFor(email, skipPhabId, phab);
      if phabId.Err? {
        return Err(phabId.msg);
      }
      var giteaId := GiteaIdFor(giteaUserName, skipGiteaId, gitea);
      if giteaId.Err? {
        return Err(Wrap(giteaId.msg, "failed to retrieve users Gitea ID"));
      }
      var i := Identity(newId, name, email, login, phabId.value, giteaId.value);
      r := FinishIdentity(i, commit);
    }

    /** UpdateIdentityWithGiteaId: looks up the Phabricator id unless told to skip it, then
        replaces the identity's name, e-mail and service ids, commits, and refreshes the
        loaded identity and its excerpt. */
    method UpdateIdentityWithGiteaId(i: Identity, name: string, email: string, login: string, skipPhabId: bool, giteaId: int,
                                     phab: string -> Result<seq<string>>, commit: Outcome)
      returns (r: Outcome)
      modifies this
      ensures BugSide() == old(BugSide()) && userIdentityId == old(userIdentityId) && maxLoadedBugs == old(maxLoadedBugs)
      ensures r.Pass? <==> PhabIdFor(email, skipPhabId, phab).Ok? && commit.Pass?
      ensures PhabIdFor(email, skipPhabId, phab).Err? ==> r == Fail(PhabIdFor(email, skipPhabId, phab).msg)
      ensures r.Fail? ==> identities == old(identities) && identitiesExcerpts == old(identitiesExcerpts)
      ensures r.Pass? ==> var u := Updated(i, name, email, PhabIdFor(email, skipPhabId, phab).value, giteaId);
        identities == old(identities)[i.id := u] && identitiesExcerpts == old(identitiesExcerpts)[i.id := ExcerptOf(u)]
    {
      var phabId := PhabIdFor(email, skipPhabId, phab);
      if phabId.Err? {
        return Fail(phabId.msg);
      }
      var u := Updated(i, name, email, phabId.value, giteaId);
      if commit.Fail? {
        return commit;
      }
      identities := identities[i.id := u];
      r := IdentityUpdated(i.id);
    }

    /** UpdateIdentity: looks up the Gitea id unless told to skip it, then updates. As
        written it hands its Gitea flag on as the Phabricator flag; `asWritten` chooses
        between that and the evidently intended Phabricator flag. */
    method UpdateIdentity(i: Identity, name: string, email: string, login: string,
                          skipPhabId: bool, skipGiteaId: bool, giteaUserName: string,
                          phab: string -> Result<seq<string>>, gitea: string -> Result<seq<int>>, commit: Outcome, asWritten: bool)
      returns (r: Outcome)
      modifies this
      ensures BugSide() == old(BugSide()) && userIdentityId == old(userIdentityId) && maxLoadedBugs == old(maxLoadedBugs)
      ensures GiteaIdFor(giteaUserName, skipGiteaId, gitea).Err? ==>
        r == Fail(GiteaIdFor(giteaUserName, skipGiteaId, gitea).msg) && identities == old(identities)
        && identitiesExcerpts == old(identitiesExcerpts)
      ensures var skip := PhabSkipped(skipPhabId, skipGiteaId, asWritten);
        r.Pass? <==> GiteaIdFor(giteaUserName, skipGiteaId, gitea).Ok? && PhabIdFor(email, skip, phab).Ok? && commit.Pass?
      ensures GiteaIdFor(giteaUserName, skipGiteaId, gitea).Ok? && PhabIdFor(email, PhabSkipped(skipPhabId, skipGiteaId, asWritten), phab).Err? ==>
        r == Fail(PhabIdFor(email, PhabSkipped(skipPhabId, skipGiteaId, asWritten), phab).msg)
      ensures r.Fail? ==> identities == old(identities) && identitiesExcerpts == old(identitiesExcerpts)
      ensures r.Pass? ==> var skip := PhabSkipped(skipPhabId, skipGiteaId, asWritten);
        var u := Updated(i, name, email, PhabIdFor(email, skip, phab).value, GiteaIdFor(giteaUserName, skipGiteaId, gitea).value);
        identities == old(identities)[i.id := u] && identitiesExcerpts == old(identitiesExcerpts)[i.id := ExcerptOf(u)]
    {
      var giteaId := GiteaIdFor(giteaUserName, skipGiteaId, gitea);
      if giteaId.Err? {
        return Fail(giteaId.msg);
      }
      r := UpdateIdentityWithGiteaId(i, name, email, login, PhabSkipped(skipPhabId, skipGiteaId, asWritten), giteaId.value, phab, commit);
    }

    // -------------------------------------------------------------- common

    /** RefreshCache: re-reads every local ticket the cache lacks or holds an older edit
        time for, then reloads the excerpt of every identity. `ids` is the listing of the
        local tickets, `peek` and `read` read one ticket's edit time and excerpt, `idents`
        are the identities as they are read, and `write` is the outcome of writing the
        cache file. A failure keeps what was refreshed before it. */
    method RefreshCache(ids: Result<seq<Id>>, peek: Id -> Result<int>, read: Id -> Result<BugExcerpt>,
                        idents: seq<Result<Identity>>, write: Outcome)
      returns (r: Result<seq<RefreshResult>>)
      modifies this
      ensures bugs == old(bugs) && loadedBugs == old(loadedBugs) && identities == old(identities)
      ensures userIdentityId == old(userIdentityId) && maxLoadedBugs == old(maxLoadedBugs)
      ensures ids.Err? ==> r == Err(ids.msg) && bugExcerpts == old(bugExcerpts) && identitiesExcerpts == old(identitiesExcerpts)
      ensures ids.Ok? ==> forall k :: k !in ids.value ==>
        (k in bugExcerpts <==> k in old(bugExcerpts)) && (k in old(bugExcerpts) ==> bugExcerpts[k] == old(bugExcerpts)[k])
      ensures ids.Ok? && RefreshBugs(old(bugExcerpts), ids.value, peek, read, []).Err? ==>
        r == Err(RefreshBugs(old(bugExcerpts), ids.value, peek, read, []).msg) && identitiesExcerpts == old(identitiesExcerpts)
        && bugExcerpts == RefreshedMap(old(bugExcerpts), ids.value, peek, read)
      ensures ids.Ok? && RefreshBugs(old(bugExcerpts), ids.value, peek, read, []).Ok? ==>
        var reloaded := ReloadIdentities(old(identitiesExcerpts), idents);
        && bugExcerpts == RefreshBugs(old(bugExcerpts), ids.value, peek, read, []).value.0
        && (reloaded.Err? ==> r == Err(reloaded.msg) && identitiesExcerpts == ReloadedMap(old(identitiesExcerpts), idents))
        && (reloaded.Ok? ==> identitiesExcerpts == reloaded.value)
        && (reloaded.Ok? && write.Fail? ==> r == Err(write.msg))
        && (reloaded.Ok? && write.Pass? ==> r == Ok(RefreshBugs(old(bugExcerpts), ids.value, peek, read, []).value.1))
    {
      if ids.Err? {
        return Err(ids.msg);
      }
      var ex, refreshed := RefreshExcerpts(bugExcerpts, ids.value, peek, read);
      bugExcerpts := ex;
      if refreshed.Err? {
        return Err(refreshed.msg);
      }
      var ie, reloaded := ReloadExcerpts(identitiesExcerpts, idents);
      identitiesExcerpts := ie;
      if reloaded.Fail? {
        return Err(reloaded.msg);
      }
      if write.Fail? {
        return Err(write.msg);
      }
      return Ok(refreshed.value);
    }

    /** Writes a git-config listing over the searches, visiting its keys in an arbitrary
        order, which `order` exposes. */
    static method OverlayListing(m: map<string, string>, c: map<string, string>) returns (r: map<string, string>, ghost order: seq<string>)
      ensures forall k :: k in order <==> k in c
      ensures r == Overlay(m, c, order)
    {
      r := m;
      order := [];
      var keys := c.Keys;
      while keys != {}
        invariant keys <= c.Keys
        invariant forall k :: k in c ==> (k in order <==> k !in keys)
        invariant forall k :: k in order ==> k in c
        invariant r == Overlay(m, c, order)
        decreases keys
      {
        var k :| k in keys;
        OverlayAppend(m, c, order, k);
        r := r[SearchName(k) := c[k]];
        order := order + [k];
        keys := keys - {k};
      }
    }

    /** GetSearches: the saved searches of the "searches" configuration, overwritten by
        those of the user's global git configuration, overwritten by those of the
        repository's; a search name holding a space is refused. `decode` stands for the
        JSON decoder; `global` and `local` are the two git configurations as read. */
    method GetSearches(repo: Repo, decode: string -> Result<map<string, string>>,
                       global: Result<map<string, string>>, local: Result<map<string, string>>)
      returns (r: Result<map<string, string>>)
      ensures var stored := ConfigStore.StoredConfig(repo.refs, repo.commits, repo.trees, repo.blobs, "searches");
        && (!stored.Data? ==> r == Err("unable to read searches config: " + Quote(stored.msg)))
        && (stored.Data? && decode(stored.data).Err? ==> r == Err("unable to load searches: " + Quote(decode(stored.data).msg)))
        && (stored.Data? && decode(stored.data).Ok? && global.Err? ==> r == Err(global.msg))
        && (stored.Data? && decode(stored.data).Ok? && global.Ok? && local.Err? ==> r == Err(local.msg))
      ensures var stored := ConfigStore.StoredConfig(repo.refs, repo.commits, repo.trees, repo.blobs, "searches");
        stored.Data? && decode(stored.data).Ok? && global.Ok? && local.Ok? ==>
        var m := decode(stored.data).value;
        var g := Listing(global.value, SearchPrefix);
        var l := Listing(local.value, SearchPrefix);
        && (r.Ok? <==> forall q :: (q in m || SearchPrefix + q in g || SearchPrefix + q in l) ==> ' ' !in q)
        && (r.Ok? ==> forall q :: q in r.value <==> q in m || SearchPrefix + q in g || SearchPrefix + q in l)
        && (r.Ok? ==> forall q :: q in r.value ==> r.value[q] == LayeredValue(m, g, l, q))
        && (r.Err? ==> exists q :: (q in m || SearchPrefix + q in g || SearchPrefix + q in l) && ' ' in q && r.msg == SpaceError(q))
    {
      var data := ConfigStore.GetConfig(repo, "searches");
      if !data.Data? {
        return Err("unable to read searches config: " + Quote(data.msg));
      }
      var decoded := decode(data.data);
      if decoded.Err? {
        return Err("unable to load searches: " + Quote(decoded.msg));
      }
      if global.Err? {
        return Err(global.msg);
      }
      var g := Listing(global.value, SearchPrefix);
      var searches, gOrder := OverlayListing(decoded.value, g);
      if local.Err? {
        return Err(local.msg);
      }
      var l := Listing(local.value, SearchPrefix);
      ghost var lOrder;
      searches, lOrder := OverlayListing(searches, l);
      SearchLayers(decoded.value, g, gOrder, l, lOrder);
      var keys := searches.Keys;
      while keys != {}
        invariant keys <= searches.Keys
        invariant forall q :: q in searches && q !in keys ==> ' ' !in q
        decreases keys
      {
        var q :| q in keys;
        if ' ' in q {
          return Err(SpaceError(q));
        }
        keys := keys - {q};
      }
      return Ok(searches);
    }

    /** Pull: fetches identities, tickets and configurations (their outputs and outcomes are
        parameters), reads the merge results `ms` in order, stopping at the first that
        carries an error or is invalid, applying each new or updated entity's excerpt, and
        then updates the configurations from the remote. `reported` holds the short ids of
        the entities whose merge changed something. */
    method Pull(identitiesFetch: (string, Outcome), bugsFetch: (string, Outcome), configsFetch: (string, Outcome),
                ms: seq<MergeResult>, repo: Repo, remote: string)
      returns (fetchOut: string, reported: seq<string>, configOut: string, r: Outcome, ghost order: seq<string>)
      modifies this, repo
      ensures bugs == old(bugs) && loadedBugs == old(loadedBugs) && identities == old(identities)
      ensures userIdentityId == old(userIdentityId) && maxLoadedBugs == old(maxLoadedBugs)
      ensures repo.blobs == old(repo.blobs) && repo.trees == old(repo.trees) && repo.commits == old(repo.commits)
      ensures fetchOut == Fetch(identitiesFetch, bugsFetch, configsFetch).0
      ensures Fetch(identitiesFetch, bugsFetch, configsFetch).1.Fail? ==>
        && r == Fetch(identitiesFetch, bugsFetch, configsFetch).1 && reported == []
        && bugExcerpts == old(bugExcerpts) && identitiesExcerpts == old(identitiesExcerpts) && repo.refs == old(repo.refs)
      ensures Fetch(identitiesFetch, bugsFetch, configsFetch).1.Pass? ==>
        && (bugExcerpts, identitiesExcerpts) == ApplyMerges(ms[..Consumed(ms)], old(bugExcerpts), old(identitiesExcerpts))
        && reported == Reported(ms[..Consumed(ms)])
      ensures Fetch(identitiesFetch, bugsFetch, configsFetch).1.Pass? && Consumed(ms) < |ms| ==>
        r == Fail(MergeFailure(ms[Consumed(ms)]).value) && repo.refs == old(repo.refs)
      ensures Fetch(identitiesFetch, bugsFetch, configsFetch).1.Pass? && Consumed(ms) == |ms| ==>
        && (forall k :: k in order <==> k in old(repo.refs) && HasPrefix(k, ConfigStore.RemoteRefPrefix(remote)))
        && (forall i, j :: 0 <= i < j < |order| ==> order[i] != order[j])
        && var s := ConfigStore.SyncAll(old(repo.refs), repo.commits, ConfigStore.RemoteRefPrefix(remote), order);
          repo.refs == s.refs && configOut == s.out && r == (if s.failure.None? then Pass else Fail(s.failure.value))
    {
      var fetched := Fetch(identitiesFetch, bugsFetch, configsFetch);
      fetchOut := fetched.0;
      reported := [];
      configOut := "";
      order := [];
      if fetched.1.Fail? {
        return fetchOut, reported, configOut, fetched.1, order;
      }
      var b := bugExcerpts;
      var ie := identitiesExcerpts;
      ghost var b0, ie0 := b, ie;
      var i := 0;
      while i < |ms|
        invariant 0 <= i <= |ms|
        invariant forall j :: 0 <= j < i ==> MergeFailure(ms[j]).None?
        invariant bugs == old(bugs) && loadedBugs == old(loadedBugs) && identities == old(identities)
        invariant userIdentityId == old(userIdentityId) && maxLoadedBugs == old(maxLoadedBugs)
        invariant unchanged(repo)
        invariant (b, ie) == ApplyMerges(ms[..i], b0, ie0)
        invariant reported == Reported(ms[..i])
      {
        var failure := MergeFailure(ms[i]);
        if failure.Some? {
          bugExcerpts, identitiesExcerpts := b, ie;
          return fetchOut, reported, configOut, Fail(failure.value), order;
        }
        assert ms[..i + 1] == ms[..i] + [ms[i]];
        ApplyMergesAppend(ms[..i], ms[i], b0, ie0);
        ReportedAppend(ms[..i], ms[i]);
        var applied := ApplyMerge(ms[i], b, ie);
        b, ie := applied.0, applied.1;
        if ms[i].status != MergeNothing {
          reported := reported + [HumanId(ms[i].id)];
        }
        i := i + 1;
      }
      assert ms[..i] == ms;
      bugExcerpts, identitiesExcerpts := b, ie;
      configOut, r, order := ConfigStore.UpdateConfigs(repo, remote);
    }

    /** SetUserIdentity: records the user's identity in the repository (`record`), then makes it
        the cache's user identity; an identity the cache has not loaded is a panic. */
    method SetUserIdentity(i: Identity, record: Outcome) returns (r: Outcome)
      modifies this
      ensures BugSide() == old(BugSide()) && maxLoadedBugs == old(maxLoadedBugs)
      ensures identities == old(identities) && identitiesExcerpts == old(identitiesExcerpts)
      ensures record.Fail? ==> r == record
      ensures record.Pass? && i.id !in identities ==> r == Fail("SetUserIdentity while the identity is not from the cache, something is wrong")
      ensures r.Pass? <==> record.Pass? && i.id in identities
      ensures userIdentityId == if r.Pass? then i.id else old(userIdentityId)
    {
      if record.Fail? {
        return record;
      }
      if i.id !in identities {
        return Fail("SetUserIdentity while the identity is not from the cache, something is wrong");
      }
      userIdentityId := i.id;
      return Pass;
    }

    /** GetUserIdentity: the loaded user identity when its id is known and loaded; otherwise
        the identity the repository names (`get`), which is then loaded and becomes the
        user's. */
    method GetUserIdentity(get: Result<Identity>) returns (r: Result<Identity>)
      modifies this
      ensures BugSide() == old(BugSide()) && maxLoadedBugs == old(maxLoadedBugs) && identitiesExcerpts == old(identitiesExcerpts)
      ensures old(userIdentityId) != "" && old(userIdentityId) in old(identities) ==>
        r == Ok(old(identities)[old(userIdentityId)]) && identities == old(identities) && userIdentityId == old(userIdentityId)
      ensures (old(userIdentityId) == "" || old(userIdentityId) !in old(identities)) && get.Err? ==>
        r == Err(get.msg) && identities == old(identities) && userIdentityId == old(userIdentityId)
      ensures (old(userIdentityId) == "" || old(userIdentityId) !in old(identities)) && get.Ok? ==>
        r == get && identities == old(identities)[get.value.id := get.value] && userIdentityId == get.value.id
    {
      if userIdentityId != "" && userIdentityId in identities {
        return Ok(identities[userIdentityId]);
      }
      if get.Err? {
        return get;
      }
      identities := identities[get.value.id := get.value];
      userIdentityId := get.value.id;
      return get;
    }

    /** GetUserIdentityExcerpt: the excerpt of the user's identity; its id is read from the
        repository (`getId`) and remembered when not yet known. */
    method GetUserIdentityExcerpt(getId: Result<Id>) returns (r: Result<IdentityExcerpt>)
      modifies this
      ensures BugSide() == old(BugSide()) && maxLoadedBugs == old(maxLoadedBugs)
      ensures identitiesExcerpts == old(identitiesExcerpts) && identities == old(identities)
      ensures old(userIdentityId) == "" && getId.Err? ==> r == Err(getId.msg) && userIdentityId == old(userIdentityId)
      ensures old(userIdentityId) == "" && getId.Ok? ==> userIdentityId == getId.value
      ensures old(userIdentityId) != "" ==> userIdentityId == old(userIdentityId)
      ensures old(userIdentityId) != "" || getId.Ok? ==>
        && (r.Ok? <==> userIdentityId in identitiesExcerpts)
        && (r.Ok? ==> r.value == identitiesExcerpts[userIdentityId])
        && (r.Err? ==> r.msg == "cache: missing identity excerpt " + userIdentityId)
    {
      if userIdentityId == "" {
        if getId.Err? {
          return Err(getId.msg);
        }
        userIdentityId := getId.value;
      }
      if userIdentityId !in identitiesExcerpts {
        return Err("cache: missing identity excerpt " + userIdentityId);
      }
      return Ok(identitiesExcerpts[userIdentityId]);
    }

    // -------------------------------------------------------------- new tickets

    /** The CCB members of one status, resolved in order; the first that cannot be resolved
        or is not on the board stops it. Every identity read is kept. */
    method ResolveCcbMembers(members: seq<Id>, board: Ccb.CcbConfig, read: Id -> Result<Identity>, displayName: Identity -> string)
      returns (r: Result<seq<Identity>>)
      modifies this
      ensures BugSide() == old(BugSide()) && identitiesExcerpts == old(identitiesExcerpts)
      ensures userIdentityId == old(userIdentityId) && maxLoadedBugs == old(maxLoadedBugs)
      ensures GrewBy(old(identities), identities, read)
      ensures r.Ok? <==> forall j :: 0 <= j < |members| ==> MemberOk(old(identities), read, board, members[j])
      ensures r.Ok? ==> ResolvedAll(r.value, old(identities), read, board, members)
      ensures r.Err? ==> exists j :: (0 <= j < |members| && !MemberOk(old(identities), read, board, members[j])
        && (forall i :: 0 <= i < j ==> MemberOk(old(identities), read, board, members[i]))
        && r.msg == MemberError(old(identities), read, displayName, members[j]))
    {
      ghost var ids0 := identities;
      var resolved: seq<Identity> := [];
      var j := 0;
      while j < |members|
        invariant 0 <= j <= |members|
        invariant BugSide() == old(BugSide()) && identitiesExcerpts == old(identitiesExcerpts)
        invariant userIdentityId == old(userIdentityId) && maxLoadedBugs == old(maxLoadedBugs)
        invariant GrewBy(ids0, identities, read)
        invariant |resolved| == j
        invariant forall i :: 0 <= i < j ==>
          MemberOk(ids0, read, board, members[i]) && resolved[i] == IdentityResolution(ids0, read, members[i]).value
      {
        ghost var before := identities;
        var ident := ResolveIdentity(members[j], read);
        ResolutionKept(ids0, before, read, members[j]);
        ResolutionStable(before, read, members[j], members[j]);
        GrewByTransitive(ids0, before, identities, read);
        if ident.Err? {
          return Err(ident.msg);
        }
        if !Ccb.IsCcbMember(board, ident.value.id) {
          return Err("User " + displayName(ident.value) + " is not a CCB member");
        }
        resolved := resolved + [ident.value];
        j := j + 1;
      }
      return Ok(resolved);
    }

    /** validateNewBugOptions: the labels of a new ticket (workflow, repository, impact and
        checklist labels, each checked in turn) and its CCB members per status, each
        resolved to an identity on the board. */
    method ValidateNewBugOptions(opts: NewBugOpts, cfg: ConfigCache, isRepo: string -> bool, isImpact: string -> bool,
                                 read: Id -> Result<Identity>, displayName: Identity -> string)
      returns (r: Result<(seq<string>, map<Statuses.Status, seq<Identity>>)>)
      modifies this
      ensures BugSide() == old(BugSide()) && identitiesExcerpts == old(identitiesExcerpts)
      ensures userIdentityId == old(userIdentityId) && maxLoadedBugs == old(maxLoadedBugs)
      ensures GrewBy(old(identities), identities, read)
      ensures LabelCheck(opts, cfg, isRepo, isImpact).Err? ==>
        r == Err(LabelCheck(opts, cfg, isRepo, isImpact).msg) && identities == old(identities)
      ensures r.Ok? <==> LabelCheck(opts, cfg, isRepo, isImpact).Ok? && CcbValid(old(identities), read, cfg.ccb, opts.ccbMembers)
      ensures r.Ok? ==> (r.value.0 == [opts.workflow, opts.repo] + opts.impact + opts.checklists
        && r.value.1.Keys == opts.ccbMembers.Keys
        && forall st :: st in r.value.1 ==> ResolvedAll(r.value.1[st], old(identities), read, cfg.ccb, opts.ccbMembers[st]))
      ensures r.Err? && LabelCheck(opts, cfg, isRepo, isImpact).Ok? ==>
        exists st, j :: (st in opts.ccbMembers && 0 <= j < |opts.ccbMembers[st]|
          && !MemberOk(old(identities), read, cfg.ccb, opts.ccbMembers[st][j])
          && r.msg == MemberError(old(identities), read, displayName, opts.ccbMembers[st][j]))
    {
      var labels := LabelCheck(opts, cfg, isRepo, isImpact);
      if labels.Err? {
        return Err(labels.msg);
      }
      var ccb := ResolveCcb(opts.ccbMembers, cfg.ccb, read, displayName);
      if ccb.Err? {
        return Err(ccb.msg);
      }
      return Ok((labels.value, ccb.value));
    }

    /** The CCB half of validateNewBugOptions: every status's members resolved in turn, the
        statuses visited in an arbitrary order; the first member that does not resolve to an
        identity on the board is reported. */
    method ResolveCcb(members: map<Statuses.Status, seq<Id>>, board: Ccb.CcbConfig, read: Id -> Result<Identity>,
                      displayName: Identity -> string)
      returns (r: Result<map<Statuses.Status, seq<Identity>>>)
      modifies this
      ensures BugSide() == old(BugSide()) && identitiesExcerpts == old(identitiesExcerpts)
      ensures userIdentityId == old(userIdentityId) && maxLoadedBugs == old(maxLoadedBugs)
      ensures GrewBy(old(identities), identities, read)
      ensures r.Ok? <==> CcbValid(old(identities), read, board, members)
      ensures r.Ok? ==> (r.value.Keys == members.Keys
        && forall st :: st in r.value ==> ResolvedAll(r.value[st], old(identities), read, board, members[st]))
      ensures r.Err? ==>
        exists st, j :: (st in members && 0 <= j < |members[st]|
          && !MemberOk(old(identities), read, board, members[st][j])
          && r.msg == MemberError(old(identities), read, displayName, members[st][j]))
    {
      ghost var ids0 := identities;
      var ccb: map<Statuses.Status, seq<Identity>> := map[];
      var todo := members.Keys;
      while todo != {}
        invariant todo <= members.Keys
        invariant ccb.Keys == members.Keys - todo
        invariant BugSide() == old(BugSide()) && identitiesExcerpts == old(identitiesExcerpts)
        invariant userIdentityId == old(userIdentityId) && maxLoadedBugs == old(maxLoadedBugs)
        invariant GrewBy(ids0, identities, read)
        invariant forall st :: st in ccb ==> ResolvedAll(ccb[st], ids0, read, board, members[st])
        decreases todo
      {
        NoMemberEmpty(todo);
        var st :| st in todo;
        ghost var before := identities;
        var resolved := ResolveCcbMembers(members[st], board, read, displayName);
        forall m ensures IdentityResolution(before, read, m) == IdentityResolution(ids0, read, m) {
          ResolutionKept(ids0, before, read, m);
        }
        GrewByTransitive(ids0, before, identities, read);
        if resolved.Err? {
          return Err(resolved.msg);
        }
        ccb := ccb[st := resolved.value];
        todo := todo - {st};
      }
      return Ok(ccb);
    }
  }
}
