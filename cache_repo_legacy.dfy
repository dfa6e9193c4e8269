/** The older RepoCache of cache/repo_cache.go: no usage order and no eviction, a legacy query
    matched by the query itself, valid labels taken from the tickets, the cache files and
    their fallback on opening, and MergeConfigs, which syncs fetched configurations. Disk
    and repository reads are parameters of the operations; the locks are left out. */
module LegacyRepoCaches {
  import opened Wrappers
  import opened Entity
  import opened StrUtil
  import opened Sorting
  import opened Identities
  import opened QueryLexer
  import opened QueryAst
  import opened QueryModel
  import opened CacheExcerpts
  import CacheResolve
  import opened CacheQuery
  import opened CacheCommon
  import RepoCaches
  import opened ConfigStore
  import opened MockRepo

  // -------------------------------------------------------------- cache files

  /** A cache file as decoded: the version and the excerpts, or the error of opening or
      decoding it. */
  datatype CacheFile<T> = Unreadable(msg: string) | CacheFile(version: nat, excerpts: map<Id, T>)

  /** What loading the cache files gives: success, ErrInvalidCacheFormat, or another error. */
  datatype Loading = LoadedFromDisk | InvalidFormat(msg: string) | LoadFailed(msg: string)

  /** loadBugCache and loadIdentityCache: a file of another version than 2 is
      ErrInvalidCacheFormat. */
  function LoadOutcome<T>(f: CacheFile<T>): (r: Loading)
    ensures r.LoadedFromDisk? <==> f.CacheFile? && f.version == RepoCaches.FormatVersion
    ensures f.CacheFile? && f.version != 2 ==> r == InvalidFormat("unknown cache format version " + NatToString(f.version))
    ensures f.Unreadable? ==> r == LoadFailed(f.msg)
  {
    match f
    case Unreadable(m) => LoadFailed(m)
    case CacheFile(v, _) =>
      if v != RepoCaches.FormatVersion then InvalidFormat("unknown cache format version " + NatToString(v))
      else LoadedFromDisk
  }

  /** load: the ticket file, then the identity file. */
  function LoadBoth(bugFile: CacheFile<BugExcerpt>, identityFile: CacheFile<IdentityExcerpt>): Loading {
    if !LoadOutcome(bugFile).LoadedFromDisk? then LoadOutcome(bugFile) else LoadOutcome(identityFile)
  }

  /** The ticket half of buildCache: every ticket read replaces its excerpt, in reading
      order; the first failure ends it. */
  function BuildBugs(ex: map<Id, BugExcerpt>, bs: seq<Result<BugExcerpt>>): Result<map<Id, BugExcerpt>>
    decreases |bs|
  {
    if bs == [] then Ok(ex)
    else if bs[0].Err? then Err(bs[0].msg)
    else BuildBugs(ex[bs[0].value.id := bs[0].value], bs[1..])
  }

  /** Building succeeds exactly when every read does, and then holds an excerpt for every
      ticket read, under its id, and nothing else. */
  lemma {:induction false} BuildBugsMeaning(ex: map<Id, BugExcerpt>, bs: seq<Result<BugExcerpt>>)
    ensures BuildBugs(ex, bs).Ok? <==> forall j :: 0 <= j < |bs| ==> bs[j].Ok?
    ensures BuildBugs(ex, bs).Ok? ==> forall k :: k in BuildBugs(ex, bs).value <==>
      k in ex || exists j :: 0 <= j < |bs| && bs[j].value.id == k
    decreases |bs|
  {
    if bs != [] && bs[0].Ok? {
      BuildBugsMeaning(ex[bs[0].value.id := bs[0].value], bs[1..]);
      assert forall j :: 1 <= j < |bs| ==> bs[j] == bs[1..][j - 1];
      if BuildBugs(ex, bs).Ok? {
        forall k | k in BuildBugs(ex, bs).value
          ensures k in ex || exists j :: 0 <= j < |bs| && bs[j].value.id == k
        {
          if k !in ex && k != bs[0].value.id {
            var j :| 0 <= j < |bs[1..]| && bs[1..][j].value.id == k;
            assert bs[j + 1].value.id == k;
          }
        }
      }
    }
  }

  // -------------------------------------------------------------- queries

  /** The excerpts the legacy query matches, in visiting order. */
  function Kept(m: map<Id, BugExcerpt>, keys: seq<Id>, matches: BugExcerpt -> bool): (r: seq<BugExcerpt>)
    requires forall k :: k in keys ==> k in m
    ensures |r| <= |keys|
    decreases |keys|
  {
    if keys == [] then []
    else
      var rest := Kept(m, keys[..|keys| - 1], matches);
      var e := m[keys[|keys| - 1]];
      if matches(e) then rest + [e] else rest
  }

  /** The kept excerpts are exactly the matching excerpts of the visited keys. */
  lemma {:induction false} KeptMeaning(m: map<Id, BugExcerpt>, keys: seq<Id>, matches: BugExcerpt -> bool)
    requires forall k :: k in keys ==> k in m
    ensures forall e :: e in Kept(m, keys, matches) <==> matches(e) && exists k :: k in keys && m[k] == e
    decreases |keys|
  {
    if keys != [] {
      var init := keys[..|keys| - 1];
      KeptMeaning(m, init, matches);
      assert forall k :: k in keys <==> k in init || k == keys[|keys| - 1];
    }
  }

  /** The ordering of a legacy query: descending only when asked, ascending otherwise. */
  function LegacyOrder(q: QueryState): (o: OrderByNode)
    ensures o.orderBy == q.orderBy
    ensures o.orderDirection == OrderDescending <==> q.orderDirection == OrderDescending
    ensures o.orderDirection in {OrderAscending, OrderDescending}
  {
    OrderByNode(q.orderBy, if q.orderDirection == OrderDescending then OrderDescending else OrderAscending, Span(0, 0))
  }

  /** All labels the tickets carry. */
  function UsedLabels(m: map<Id, BugExcerpt>): set<string> {
    set k, l | k in m && l in m[k].labels :: l
  }

  // -------------------------------------------------------------- configuration merge

  /** What MergeConfigs does with one fetched configuration ref. */
  datatype LegacySync = Copy | Same | LocalAhead | Replace | SyncError(msg: string)

  function LegacyDecide(refs: map<string, Hash>, commits: map<Hash, Commit>, spec: string, remoteRef: string): LegacySync {
    var local := LocalRefOf(spec, remoteRef);
    if local !in refs then
      if remoteRef in refs then Copy else SyncError("cache: failed to copy " + remoteRef + " to " + local + ": Unknown ref")
    else if remoteRef !in refs then SyncError("cache: failed to resolve " + remoteRef + ": Unknown ref")
    else
      var l := refs[local];
      var rc := refs[remoteRef];
      if l == rc then LegacySync.Same
      else match CommonAncestor(commits, l, rc)
        case Err(m) => SyncError("cache: failed to get common ancestor of merge commits for " + NameOf(spec, remoteRef) + ": " + m)
        case Ok(a) => if a == rc then LegacySync.LocalAhead else LegacySync.Replace
  }

  /** The refs after the decision: a new configuration is copied; any other change backs the
      local one up under the conflict ref and adopts the remote one. */
  function LegacySynced(refs: map<string, Hash>, spec: string, remoteRef: string, d: LegacySync): (r: map<string, Hash>)
    requires !d.SyncError? && remoteRef in refs
    requires d != Copy ==> LocalRefOf(spec, remoteRef) in refs
    ensures LocalRefOf(spec, remoteRef) in r && refs.Keys <= r.Keys
    ensures d in {Copy, Replace} ==> r[LocalRefOf(spec, remoteRef)] == refs[remoteRef]
  {
    var local := LocalRefOf(spec, remoteRef);
    match d
    case Copy => refs[local := refs[remoteRef]]
    case Replace => refs[ConflictRef(NameOf(spec, remoteRef), refs[local]) := refs[local]][local := refs[remoteRef]]
    case _ => assert local in refs; refs
  }

  /** The refs and the first error of MergeConfigs over the fetched refs in the given order.
      As written, a copied configuration ends the walk; corrected, the walk goes on. */
  function LegacyMergeAll(refs: map<string, Hash>, commits: map<Hash, Commit>, spec: string, order: seq<string>, asWritten: bool)
    : (map<string, Hash>, Option<string>)
    decreases |order|
  {
    if order == [] then (refs, None)
    else
      var d := LegacyDecide(refs, commits, spec, order[0]);
      if d.SyncError? then (refs, Some(d.msg))
      else
        var next := LegacySynced(refs, spec, order[0], d);
        if asWritten && d == Copy then (next, None)
        else LegacyMergeAll(next, commits, spec, order[1..], asWritten)
  }

  /** One step of the walk over a non-empty list of fetched refs. */
  lemma LegacyMergeStep(refs: map<string, Hash>, commits: map<Hash, Commit>, spec: string, xs: seq<string>, asWritten: bool)
    requires xs != []
    ensures var d := LegacyDecide(refs, commits, spec, xs[0]);
      LegacyMergeAll(refs, commits, spec, xs, asWritten) ==
        if d.SyncError? then (refs, Some(d.msg))
        else if asWritten && d == Copy then (LegacySynced(refs, spec, xs[0], d), None)
        else LegacyMergeAll(LegacySynced(refs, spec, xs[0], d), commits, spec, xs[1..], asWritten)
  {
  }

  /** Corrected: a merge without error leaves a local configuration for every fetched one,
      and removes no ref. */
  lemma {:induction false} MergeConfigsCoversAll(refs: map<string, Hash>, commits: map<Hash, Commit>, spec: string, order: seq<string>)
    requires LegacyMergeAll(refs, commits, spec, order, false).1.None?
    ensures var r := LegacyMergeAll(refs, commits, spec, order, false).0;
      && refs.Keys <= r.Keys
      && forall k :: k in order ==> LocalRefOf(spec, k) in r
    decreases |order|
  {
    if order != [] {
      var d := LegacyDecide(refs, commits, spec, order[0]);
      var next := LegacySynced(refs, spec, order[0], d);
      MergeConfigsCoversAll(next, commits, spec, order[1..]);
      assert forall k :: k in order ==> k == order[0] || k in order[1..];
    }
  }

  /** As written: with two fetched configurations that are both new, only the first is
      copied and the merge still reports success. */
  lemma MergeConfigsStopsAfterCopy()
    ensures var spec := RemoteRefPrefix("origin");
      var refs := map[spec + "a" := "h1", spec + "b" := "h2"];
      var r := LegacyMergeAll(refs, map[], spec, [spec + "a", spec + "b"], true);
      && r.1.None?
      && ConfigRefPrefix + "a" in r.0
      && ConfigRefPrefix + "b" !in r.0
  {
    var spec := RemoteRefPrefix("origin");
    assert NameOf(spec, spec + "a") == "a" by {
      assert HasPrefix(spec + "a", spec);
      assert (spec + "a")[|spec|..] == "a";
    }
    var refs := map[spec + "a" := "h1", spec + "b" := "h2"];
    assert ConfigRefPrefix + "a" !in refs by {
      assert (ConfigRefPrefix + "a")[5] == 'c';
      assert spec[5] == 'r';
    }
    assert ConfigRefPrefix + "b" != ConfigRefPrefix + "a" by {
      assert (ConfigRefPrefix + "b")[|ConfigRefPrefix|] == 'b';
    }
    assert ConfigRefPrefix + "b" != spec + "a" && ConfigRefPrefix + "b" != spec + "b" by {
      assert (ConfigRefPrefix + "b")[5] == 'c';
      assert spec[5] == 'r';
    }
  }

  // -------------------------------------------------------------- the cache

  class LegacyRepoCache {
    var bugExcerpts: map<Id, BugExcerpt>
    /** The loaded tickets, each by the excerpt of its current state. */
    var bugs: map<Id, BugExcerpt>
    var identitiesExcerpts: map<Id, IdentityExcerpt>
    var identities: map<Id, Identity>
    var userIdentityId: Id

    /** The cache as NewNamedRepoCache allocates it, before loading. */
    constructor ()
      ensures bugExcerpts == map[] && bugs == map[] && identitiesExcerpts == map[] && identities == map[]
      ensures userIdentityId == ""
    {
      bugExcerpts := map[];
      bugs := map[];
      identitiesExcerpts := map[];
      identities := map[];
      userIdentityId := "";
    }

    /** loadBugCache: the excerpts of a readable file of the current version. */
    method LoadBugCache(f: CacheFile<BugExcerpt>) returns (r: Loading)
      modifies this
      ensures r == LoadOutcome(f)
      ensures bugExcerpts == if r.LoadedFromDisk? then f.excerpts else old(bugExcerpts)
      ensures bugs == old(bugs) && identitiesExcerpts == old(identitiesExcerpts) && identities == old(identities)
      ensures userIdentityId == old(userIdentityId)
    {
      if f.Unreadable? {
        return LoadFailed(f.msg);
      }
      if f.version != 2 {
        return InvalidFormat("unknown cache format version " + NatToString(f.version));
      }
      bugExcerpts := f.excerpts;
      return LoadedFromDisk;
    }

    /** loadIdentityCache: the same rule for the identity file. */
    method LoadIdentityCache(f: CacheFile<IdentityExcerpt>) returns (r: Loading)
      modifies this
      ensures r == LoadOutcome(f)
      ensures identitiesExcerpts == if r.LoadedFromDisk? then f.excerpts else old(identitiesExcerpts)
      ensures bugs == old(bugs) && bugExcerpts == old(bugExcerpts) && identities == old(identities)
      ensures userIdentityId == old(userIdentityId)
    {
      if f.Unreadable? {
        return LoadFailed(f.msg);
      }
      if f.version != 2 {
        return InvalidFormat("unknown cache format version " + NatToString(f.version));
      }
      identitiesExcerpts := f.excerpts;
      return LoadedFromDisk;
    }

    /** buildCache: the identity excerpts, then the ticket excerpts, rebuilt from everything
        the repository holds (`idents` and `bs`, as they are read). */
    method BuildCache(idents: seq<Result<Identity>>, bs: seq<Result<BugExcerpt>>) returns (r: Outcome)
      modifies this
      ensures bugs == old(bugs) && identities == old(identities) && userIdentityId == old(userIdentityId)
      ensures ReloadIdentities(map[], idents).Err? ==> r == Fail(ReloadIdentities(map[], idents).msg)
      ensures ReloadIdentities(map[], idents).Ok? ==> identitiesExcerpts == ReloadIdentities(map[], idents).value
      ensures ReloadIdentities(map[], idents).Ok? && BuildBugs(map[], bs).Err? ==> r == Fail(BuildBugs(map[], bs).msg)
      ensures ReloadIdentities(map[], idents).Ok? && BuildBugs(map[], bs).Ok? ==>
        r == Pass && bugExcerpts == BuildBugs(map[], bs).value
    {
      var ie: map<Id, IdentityExcerpt> := map[];
      var j := 0;
      while j < |idents|
        invariant 0 <= j <= |idents|
        invariant ReloadIdentities(map[], idents) == ReloadIdentities(ie, idents[j..])
      {
        assert idents[j..][0] == idents[j] && idents[j..][1..] == idents[j + 1..];
        if idents[j].Err? {
          identitiesExcerpts := ie;
          return Fail(idents[j].msg);
        }
        ie := ie[idents[j].value.id := ExcerptOf(idents[j].value)];
        j := j + 1;
      }
      assert idents[j..] == [];
      identitiesExcerpts := ie;
      var ex: map<Id, BugExcerpt> := map[];
      var i := 0;
      while i < |bs|
        invariant 0 <= i <= |bs|
        invariant BuildBugs(map[], bs) == BuildBugs(ex, bs[i..])
        invariant identitiesExcerpts == ie && bugs == old(bugs) && identities == old(identities)
        invariant userIdentityId == old(userIdentityId)
      {
        assert bs[i..][0] == bs[i] && bs[i..][1..] == bs[i + 1..];
        if bs[i].Err? {
          bugExcerpts := ex;
          return Fail(bs[i].msg);
        }
        ex := ex[bs[i].value.id := bs[i].value];
        i := i + 1;
      }
      assert bs[i..] == [];
      bugExcerpts := ex;
      return Pass;
    }

    /** NewNamedRepoCache: locks the repository, then loads the cache files. A file of an
        unknown version is an error and nothing is rebuilt; any other loading error
        rebuilds the cache from the repository and writes it. A failed lock returns an
        empty cache with the error. */
    static method NewNamedRepoCache(lock: Outcome, bugFile: CacheFile<BugExcerpt>, identityFile: CacheFile<IdentityExcerpt>,
                                    idents: seq<Result<Identity>>, bs: seq<Result<BugExcerpt>>, write: Outcome)
      returns (c: LegacyRepoCache?, r: Outcome)
      ensures c != null ==> fresh(c) && c.bugs == map[] && c.identities == map[] && c.userIdentityId == ""
      ensures lock.Fail? ==> r == lock && c != null && c.bugExcerpts == map[] && c.identitiesExcerpts == map[]
      ensures lock.Pass? && LoadBoth(bugFile, identityFile).LoadedFromDisk? ==>
        r == Pass && c != null && c.bugExcerpts == bugFile.excerpts && c.identitiesExcerpts == identityFile.excerpts
      ensures lock.Pass? && LoadBoth(bugFile, identityFile).InvalidFormat? ==>
        r == Fail(LoadBoth(bugFile, identityFile).msg) && c == null
      ensures lock.Pass? && LoadBoth(bugFile, identityFile).LoadFailed? ==>
        && (ReloadIdentities(map[], idents).Err? ==> r == Fail(ReloadIdentities(map[], idents).msg) && c == null)
        && (ReloadIdentities(map[], idents).Ok? && BuildBugs(map[], bs).Err? ==> r == Fail(BuildBugs(map[], bs).msg) && c == null)
        && (ReloadIdentities(map[], idents).Ok? && BuildBugs(map[], bs).Ok? ==>
              r == write && c != null && c.identitiesExcerpts == ReloadIdentities(map[], idents).value
              && c.bugExcerpts == BuildBugs(map[], bs).value)
    {
      c := new LegacyRepoCache();
      if lock.Fail? {
        return c, lock;
      }
      var loaded := c.LoadBugCache(bugFile);
      if loaded.LoadedFromDisk? {
        loaded := c.LoadIdentityCache(identityFile);
      }
      if loaded.LoadedFromDisk? {
        return c, Pass;
      }
      if loaded.InvalidFormat? {
        return null, Fail(loaded.msg);
      }
      var built := c.BuildCache(idents, bs);
      if built.Fail? {
        return null, built;
      }
      return c, write;
    }

    /** Close: drops every loaded ticket and identity and both excerpt maps; `remove` is the
        outcome of removing the lock file. */
    method Close(remove: Outcome) returns (r: Outcome)
      modifies this
      ensures bugs == map[] && identities == map[] && bugExcerpts == map[] && identitiesExcerpts == map[]
      ensures userIdentityId == old(userIdentityId)
      ensures r == remove
    {
      identities := map[];
      identitiesExcerpts := map[];
      bugs := map[];
      bugExcerpts := map[];
      return remove;
    }

    /** QueryBugs: without a query, every id; otherwise the ids of the excerpts the query
        matches, in visiting order, ordered by the query's key and reversed when it asks
        for descending order. An unknown key is the "missing sort type" panic. */
    method QueryBugs(q: Option<QueryState>, matches: BugExcerpt -> bool) returns (r: Result<seq<Id>>, ghost order: seq<Id>)
      ensures Distinct(order) && forall k :: k in order <==> k in bugExcerpts
      ensures q.None? ==> r.Ok? && r.value == CacheResolve.IdsOf(bugExcerpts, order, RepoCaches.ExcerptId)
      ensures q.Some? ==> r == Ordered(Kept(bugExcerpts, order, matches), LegacyOrder(q.value))
    {
      if q.None? {
        var ids;
        ids, order := CacheResolve.AllIds(bugExcerpts, RepoCaches.ExcerptId);
        return Ok(ids), order;
      }
      var keys := bugExcerpts.Keys;
      var filtered: seq<BugExcerpt> := [];
      order := [];
      while keys != {}
        invariant keys <= bugExcerpts.Keys
        invariant Distinct(order) && forall k :: k in order <==> k in bugExcerpts && k !in keys
        invariant filtered == Kept(bugExcerpts, order, matches)
        decreases |keys|
      {
        var k :| k in keys;
        assert (order + [k])[..|order|] == order;
        order := order + [k];
        if matches(bugExcerpts[k]) {
          filtered := filtered + [bugExcerpts[k]];
        }
        keys := keys - {k};
      }
      r := Ordered(filtered, LegacyOrder(q.value));
    }

    /** ValidLabels: every label some ticket carries, once, in string order. */
    method ValidLabels() returns (r: seq<string>)
      ensures SortedStrings(r) && Distinct(r)
      ensures forall l :: l in r <==> l in UsedLabels(bugExcerpts)
    {
      var used: set<string> := {};
      var keys := bugExcerpts.Keys;
      while keys != {}
        invariant keys <= bugExcerpts.Keys
        invariant used == set k, l | k in bugExcerpts && k !in keys && l in bugExcerpts[k].labels :: l
        decreases |keys|
      {
        var k :| k in keys;
        used := used + set l | l in bugExcerpts[k].labels;
        keys := keys - {k};
      }
      var listed := RepoCaches.RepoCache.Listed(used);
      r := SortStrings(listed);
      SortStringsSorted(listed);
      DistinctPermutation(listed, r);
      RepoCaches.RepoCache.SameElements(listed, r);
    }

    /** NewBugRaw: creates and commits the ticket (`created` is its excerpt once committed,
        or the error), refuses one whose id is already loaded, loads it and writes its
        excerpt; `write` is the outcome of writing the cache file. */
    method NewBugRaw(created: Result<BugExcerpt>, write: Outcome) returns (r: Result<BugExcerpt>)
      modifies this
      ensures identitiesExcerpts == old(identitiesExcerpts) && identities == old(identities)
      ensures userIdentityId == old(userIdentityId)
      ensures created.Err? ==> r == Err(created.msg) && bugs == old(bugs) && bugExcerpts == old(bugExcerpts)
      ensures created.Ok? && created.value.id in old(bugs) ==>
        r == Err("bug " + created.value.id + " already exist in the cache") && bugs == old(bugs) && bugExcerpts == old(bugExcerpts)
      ensures created.Ok? && created.value.id !in old(bugs) ==>
        && bugs == old(bugs)[created.value.id := created.value]
        && bugExcerpts == old(bugExcerpts)[created.value.id := created.value]
        && r == (if write.Fail? then Err(write.msg) else Ok(created.value))
    {
      if created.Err? {
        return Err(created.msg);
      }
      var b := created.value;
      if b.id in bugs {
        return Err("bug " + b.id + " already exist in the cache");
      }
      bugs := bugs[b.id := b];
      bugExcerpts := bugExcerpts[b.id := bugs[b.id]];
      if write.Fail? {
        return Err(write.msg);
      }
      return Ok(b);
    }

    /** One fetched configuration ref of MergeConfigs: the decision taken, and the refs it
        leaves. */
    static method MergeOne(repo: Repo, spec: string, remoteRef: string) returns (d: LegacySync)
      modifies repo
      ensures d == LegacyDecide(old(repo.refs), repo.commits, spec, remoteRef)
      ensures repo.blobs == old(repo.blobs) && repo.trees == old(repo.trees) && repo.commits == old(repo.commits)
      ensures d.SyncError? ==> repo.refs == old(repo.refs)
      ensures !d.SyncError? ==> remoteRef in old(repo.refs) && repo.refs == LegacySynced(old(repo.refs), spec, remoteRef, d)
    {
      ghost var refs0 := repo.refs;
      var refName := NameOf(spec, remoteRef);
      var localRef := ConfigRefPrefix + refName;
      var exist := repo.RefExist(localRef);
      if !exist {
        var copied := repo.CopyRef(remoteRef, localRef);
        if copied.Fail? {
          return SyncError("cache: failed to copy " + remoteRef + " to " + localRef + ": " + copied.msg);
        }
        return Copy;
      }
      var localCommit := repo.ResolveRef(localRef);
      var remoteCommit := repo.ResolveRef(remoteRef);
      if remoteCommit.Err? {
        return SyncError("cache: failed to resolve " + remoteRef + ": " + remoteCommit.msg);
      }
      var l := localCommit.value;
      var rc := remoteCommit.value;
      if l == rc {
        return LegacySync.Same;
      }
      var ancestor := repo.FindCommonAncestor(l, rc);
      if ancestor.Err? {
        return SyncError("cache: failed to get common ancestor of merge commits for " + refName + ": " + ancestor.msg);
      }
      if ancestor.value == rc {
        return LegacySync.LocalAhead;
      }
      var localBak := ConflictRef(refName, l);
      var backedUp := repo.CopyRef(localRef, localBak);
      repo.UpdateRef(localRef, rc);
      return LegacySync.Replace;
    }

    /** MergeConfigs: syncs every fetched configuration ref of `remote`, in the store's
        (arbitrary) order, which `order` exposes. As written it returns right after copying
        the first configuration that has no local ref; `asWritten` chooses between that and
        going on with the remaining refs. */
    method MergeConfigs(repo: Repo, remote: string, asWritten: bool) returns (r: Outcome, ghost order: seq<string>)
      modifies repo
      ensures repo.blobs == old(repo.blobs) && repo.trees == old(repo.trees) && repo.commits == old(repo.commits)
      ensures forall k :: k in order <==> k in old(repo.refs) && HasPrefix(k, RemoteRefPrefix(remote))
      ensures var m := LegacyMergeAll(old(repo.refs), repo.commits, RemoteRefPrefix(remote), order, asWritten);
        repo.refs == m.0 && r == (if m.1.None? then Pass else Fail(m.1.value))
    {
      var spec := RemoteRefPrefix(remote);
      var remoteRefs := repo.ListRefs(spec);
      order := remoteRefs;
      var i := 0;
      while i < |remoteRefs|
        invariant 0 <= i <= |remoteRefs|
        invariant repo.blobs == old(repo.blobs) && repo.trees == old(repo.trees) && repo.commits == old(repo.commits)
        invariant LegacyMergeAll(old(repo.refs), repo.commits, spec, remoteRefs, asWritten)
          == LegacyMergeAll(repo.refs, repo.commits, spec, remoteRefs[i..], asWritten)
      {
        assert remoteRefs[i..][0] == remoteRefs[i] && remoteRefs[i..][1..] == remoteRefs[i + 1..];
        LegacyMergeStep(repo.refs, repo.commits, spec, remoteRefs[i..], asWritten);
        var d := MergeOne(repo, spec, remoteRefs[i]);
        if d.SyncError? {
          return Fail(d.msg), order;
        }
        if asWritten && d == Copy {
          return Pass, order;
        }
        i := i + 1;
      }
      assert remoteRefs[i..] == [];
      return Pass, order;
    }
  }
}
