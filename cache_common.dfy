/** The rules behind cache/repo_cache_common.go: how saved searches from three places are
    merged, when RefreshCache re-reads a ticket, and where Pull stops. */
module CacheCommon {
  import opened Wrappers
  import opened Entity
  import opened StrUtil
  import opened CacheExcerpts
  import opened Identities

  // ---------------------------------------------------------------- saved searches

  /** The git-config section under which users keep their own searches. */
  const SearchPrefix: string := "git-ticket.search."

  /** strings.CutPrefix: the search name a git-config key stands for. */
  function SearchName(key: string): (q: string)
    ensures HasPrefix(key, SearchPrefix) ==> SearchPrefix + q == key
    ensures !HasPrefix(key, SearchPrefix) ==> q == key
  {
    TrimPrefix(key, SearchPrefix)
  }

  /** Config.ReadAll(prefix): the entries of a git configuration whose key starts with the
      prefix. */
  function Listing(cfg: map<string, string>, prefix: string): (r: map<string, string>)
    ensures forall k :: k in r <==> k in cfg && HasPrefix(k, prefix)
    ensures forall k :: k in r ==> r[k] == cfg[k]
  {
    map k | k in cfg && HasPrefix(k, prefix) :: cfg[k]
  }

  /** Writing the entries of a git-config listing over the searches, in the order the
      listing is visited. */
  function Overlay(m: map<string, string>, c: map<string, string>, order: seq<string>): map<string, string>
    requires forall k :: k in order ==> k in c
    decreases |order|
  {
    if order == [] then m
    else Overlay(m[SearchName(order[0]) := c[order[0]]], c, order[1..])
  }

  /** One more listed key is written over the searches after those before it. */
  lemma {:induction false} OverlayAppend(m: map<string, string>, c: map<string, string>, order: seq<string>, k: string)
    requires forall x :: x in order ==> x in c
    requires k in c
    ensures Overlay(m, c, order + [k]) == Overlay(m, c, order)[SearchName(k) := c[k]]
    decreases |order|
  {
    if order == [] {
      assert [k][1..] == [];
    } else {
      assert (order + [k])[1..] == order[1..] + [k];
      OverlayAppend(m[SearchName(order[0]) := c[order[0]]], c, order[1..], k);
    }
  }

  /** When every key of the listing carries the prefix (as a listing by prefix does), the
      overlay holds the earlier searches plus one search per listed key, and a listed key
      wins over the earlier value of its search, whatever the visiting order. */
  lemma {:induction false} OverlayMeaning(m: map<string, string>, c: map<string, string>, order: seq<string>)
    requires forall k :: k in order ==> k in c && HasPrefix(k, SearchPrefix)
    ensures var r := Overlay(m, c, order);
      && (forall q :: q in r <==> q in m || SearchPrefix + q in order)
      && (forall q :: q in r ==> r[q] == if SearchPrefix + q in order then c[SearchPrefix + q] else m[q])
    decreases |order|
  {
    if order != [] {
      var k := order[0];
      var m' := m[SearchName(k) := c[k]];
      OverlayMeaning(m', c, order[1..]);
      forall q ensures SearchPrefix + q == k <==> q == SearchName(k) {
        if SearchPrefix + q == k {
          assert (SearchPrefix + q)[|SearchPrefix|..] == q;
          assert SearchPrefix + SearchName(k) == k;
          assert (SearchPrefix + SearchName(k))[|SearchPrefix|..] == SearchName(k);
        }
      }
      assert forall x :: x in order <==> x == k || x in order[1..];
    }
  }

  /** The value a search takes: the repository's git configuration wins over the user's,
      which wins over the stored searches. */
  function LayeredValue(m: map<string, string>, g: map<string, string>, l: map<string, string>, q: string): string
    requires q in m || SearchPrefix + q in g || SearchPrefix + q in l
  {
    if SearchPrefix + q in l then l[SearchPrefix + q]
    else if SearchPrefix + q in g then g[SearchPrefix + q]
    else m[q]
  }

  /** The searches GetSearches assembles: the stored ones, overwritten by the user's global
      git configuration, overwritten by the repository's own. Listings hold only keys under
      the search prefix, as Config.ReadAll returns them. */
  lemma SearchLayers(m: map<string, string>, g: map<string, string>, gOrder: seq<string>,
                     l: map<string, string>, lOrder: seq<string>)
    requires forall k :: k in g ==> HasPrefix(k, SearchPrefix)
    requires forall k :: k in l ==> HasPrefix(k, SearchPrefix)
    requires forall k :: k in gOrder <==> k in g
    requires forall k :: k in lOrder <==> k in l
    ensures var r := Overlay(Overlay(m, g, gOrder), l, lOrder);
      && (forall q :: q in r <==> q in m || SearchPrefix + q in g || SearchPrefix + q in l)
      && (forall q :: q in r ==> r[q] == LayeredValue(m, g, l, q))
  {
    OverlayMeaning(m, g, gOrder);
    OverlayMeaning(Overlay(m, g, gOrder), l, lOrder);
  }

  /** The error for a search name holding a space. */
  function SpaceError(q: string): string {
    "search query \"" + q + "\" contains a space"
  }

  // ---------------------------------------------------------------- refresh

  /** RefreshResult: a re-read ticket; an updated one carries its old and new edit times, a
      ticket the cache did not hold carries none (Go's zero times). */
  datatype RefreshResult = RefreshResult(id: Id, fromTo: Option<(int, int)>)

  /** NewIdentityExcerpt: the fields of an identity that its excerpt copies. */
  function ExcerptOf(i: Identity): (e: IdentityExcerpt)
    ensures e.id == i.id && e.name == i.name && e.login == i.login && e.phabId == i.phabId && e.giteaId == i.giteaId
  {
    IdentityExcerpt(i.id, i.name, i.login, i.phabId, i.giteaId)
  }

  /** The ticket half of RefreshCache, over the local ticket ids in listing order: a ticket
      the cache lacks is read; for one it holds, the repository's edit time is peeked, and
      the ticket is read again when the cached edit time is strictly earlier. Each re-read
      ticket is reported after those before it; the first failure ends the refresh. */
  function RefreshBugs(ex: map<Id, BugExcerpt>, ids: seq<Id>, peek: Id -> Result<int>,
                       read: Id -> Result<BugExcerpt>, acc: seq<RefreshResult>)
    : Result<(map<Id, BugExcerpt>, seq<RefreshResult>)>
    decreases |ids|
  {
    if ids == [] then Ok((ex, acc))
    else
      var id := ids[0];
      if id !in ex then
        if read(id).Err? then Err(read(id).msg)
        else RefreshBugs(ex[id := read(id).value], ids[1..], peek, read, acc + [RefreshResult(id, None)])
      else if peek(id).Err? then Err(peek(id).msg)
      else if ex[id].editTime < peek(id).value then
        if read(id).Err? then Err(read(id).msg)
        else RefreshBugs(ex[id := read(id).value], ids[1..], peek, read, acc + [RefreshResult(id, Some((ex[id].editTime, peek(id).value)))])
      else RefreshBugs(ex, ids[1..], peek, read, acc)
  }

  /** A successful refresh touches only the listed tickets, leaves every one of them cached,
      keeps the earlier reports, and reports only listed tickets, each update going from an
      earlier to a later edit time. */
  lemma {:induction false} RefreshBugsMeaning(ex: map<Id, BugExcerpt>, ids: seq<Id>, peek: Id -> Result<int>,
                                              read: Id -> Result<BugExcerpt>, acc: seq<RefreshResult>)
    requires RefreshBugs(ex, ids, peek, read, acc).Ok?
    ensures var (ex', rs) := RefreshBugs(ex, ids, peek, read, acc).value;
      && (forall k :: k !in ids ==> (k in ex' <==> k in ex) && (k in ex ==> ex'[k] == ex[k]))
      && (forall k :: k in ids ==> k in ex')
      && |rs| >= |acc| && rs[..|acc|] == acc
      && (forall j :: |acc| <= j < |rs| ==> rs[j].id in ids)
      && (forall j :: |acc| <= j < |rs| && rs[j].fromTo.Some? ==> rs[j].fromTo.value.0 < rs[j].fromTo.value.1)
    decreases |ids|
  {
    if ids != [] {
      var id := ids[0];
      var ex1 := if id !in ex || ex[id].editTime < peek(id).value then ex[id := read(id).value] else ex;
      var acc1 :=
        if id !in ex then acc + [RefreshResult(id, None)]
        else if ex[id].editTime < peek(id).value then acc + [RefreshResult(id, Some((ex[id].editTime, peek(id).value)))]
        else acc;
      assert RefreshBugs(ex, ids, peek, read, acc) == RefreshBugs(ex1, ids[1..], peek, read, acc1);
      RefreshBugsMeaning(ex1, ids[1..], peek, read, acc1);
      var rs := RefreshBugs(ex1, ids[1..], peek, read, acc1).value.1;
      assert acc1[..|acc|] == acc;
      assert rs[..|acc|] == rs[..|acc1|][..|acc|];
      assert forall k :: k in ids ==> k == id || k in ids[1..];
    }
  }

  /** The ticket excerpts as RefreshBugs leaves them when it stops: Go writes each re-read
      ticket into the live map as it goes, so a failing peek or read keeps the tickets
      refreshed before it. Only listed tickets change. */
  function RefreshedMap(ex: map<Id, BugExcerpt>, ids: seq<Id>, peek: Id -> Result<int>,
                        read: Id -> Result<BugExcerpt>): (r: map<Id, BugExcerpt>)
    ensures forall k :: k !in ids ==> (k in r <==> k in ex) && (k in ex ==> r[k] == ex[k])
    decreases |ids|
  {
    if ids == [] then ex
    else
      var id := ids[0];
      if id !in ex then
        if read(id).Err? then ex
        else RefreshedMap(ex[id := read(id).value], ids[1..], peek, read)
      else if peek(id).Err? then ex
      else if ex[id].editTime < peek(id).value then
        if read(id).Err? then ex
        else RefreshedMap(ex[id := read(id).value], ids[1..], peek, read)
      else RefreshedMap(ex, ids[1..], peek, read)
  }

  /** When the refresh succeeds, the map it stops with is the one it returns. */
  lemma {:induction false} RefreshedMapOnSuccess(ex: map<Id, BugExcerpt>, ids: seq<Id>, peek: Id -> Result<int>,
                                                 read: Id -> Result<BugExcerpt>, acc: seq<RefreshResult>)
    requires RefreshBugs(ex, ids, peek, read, acc).Ok?
    ensures RefreshedMap(ex, ids, peek, read) == RefreshBugs(ex, ids, peek, read, acc).value.0
    decreases |ids|
  {
    if ids != [] {
      var id := ids[0];
      if id !in ex {
        RefreshedMapOnSuccess(ex[id := read(id).value], ids[1..], peek, read, acc + [RefreshResult(id, None)]);
      } else if ex[id].editTime < peek(id).value {
        RefreshedMapOnSuccess(ex[id := read(id).value], ids[1..], peek, read,
                              acc + [RefreshResult(id, Some((ex[id].editTime, peek(id).value)))]);
      } else {
        RefreshedMapOnSuccess(ex, ids[1..], peek, read, acc);
      }
    }
  }

  /** A ticket is re-read when the cache lacks it or holds an edit time strictly before the
      one in the repository. */
  predicate Stale(excerpts: map<Id, BugExcerpt>, id: Id, editTime: int) {
    id !in excerpts || excerpts[id].editTime < editTime
  }

  /** The identity half of RefreshCache: every identity read from the repository replaces
      its excerpt, in reading order; the first failure ends it. */
  function ReloadIdentities(ie: map<Id, IdentityExcerpt>, rs: seq<Result<Identity>>): Result<map<Id, IdentityExcerpt>>
    decreases |rs|
  {
    if rs == [] then Ok(ie)
    else if rs[0].Err? then Err(rs[0].msg)
    else ReloadIdentities(ie[rs[0].value.id := ExcerptOf(rs[0].value)], rs[1..])
  }

  /** The identity excerpts as ReloadIdentities leaves them when it stops: the identities
      read before the first failure keep their new excerpts, and no other excerpt changes. */
  function ReloadedMap(ie: map<Id, IdentityExcerpt>, rs: seq<Result<Identity>>): (r: map<Id, IdentityExcerpt>)
    ensures ReloadIdentities(ie, rs).Ok? ==> r == ReloadIdentities(ie, rs).value
    ensures forall k :: (forall j :: 0 <= j < |rs| && rs[j].Ok? ==> rs[j].value.id != k) ==>
      (k in r <==> k in ie) && (k in ie ==> r[k] == ie[k])
    decreases |rs|
  {
    if rs == [] then ie
    else if rs[0].Err? then ie
    else
      var r := ReloadedMap(ie[rs[0].value.id := ExcerptOf(rs[0].value)], rs[1..]);
      assert forall j :: 1 <= j < |rs| ==> rs[j] == rs[1..][j - 1];
      r
  }

  /** Reloading succeeds exactly when every read succeeds; it then holds an excerpt for every
      identity read and changes no other. */
  lemma {:induction false} ReloadIdentitiesMeaning(ie: map<Id, IdentityExcerpt>, rs: seq<Result<Identity>>)
    ensures ReloadIdentities(ie, rs).Ok? <==> forall j :: 0 <= j < |rs| ==> rs[j].Ok?
    ensures ReloadIdentities(ie, rs).Ok? ==> var ie' := ReloadIdentities(ie, rs).value;
      && (forall j :: 0 <= j < |rs| ==> rs[j].value.id in ie')
      && (forall k :: (forall j :: 0 <= j < |rs| ==> rs[j].value.id != k) ==> (k in ie' <==> k in ie) && (k in ie ==> ie'[k] == ie[k]))
    decreases |rs|
  {
    if rs != [] && rs[0].Ok? {
      ReloadIdentitiesMeaning(ie[rs[0].value.id := ExcerptOf(rs[0].value)], rs[1..]);
      assert forall j :: 1 <= j < |rs| ==> rs[j] == rs[1..][j - 1];
    }
  }

  /** The ticket loop of refreshCache: each listed ticket missing from the cache or older
      there than in the repository is read again and written into the excerpts at once, so
      `ex` is the map as the loop leaves it, whether it finishes or stops at a failure. */
  method RefreshExcerpts(ex0: map<Id, BugExcerpt>, list: seq<Id>, peek: Id -> Result<int>, read: Id -> Result<BugExcerpt>)
    returns (ex: map<Id, BugExcerpt>, r: Result<seq<RefreshResult>>)
    ensures ex == RefreshedMap(ex0, list, peek, read)
    ensures RefreshBugs(ex0, list, peek, read, []).Err? ==> r == Err(RefreshBugs(ex0, list, peek, read, []).msg)
    ensures RefreshBugs(ex0, list, peek, read, []).Ok? ==>
      r == Ok(RefreshBugs(ex0, list, peek, read, []).value.1) && ex == RefreshBugs(ex0, list, peek, read, []).value.0
  {
    ex := ex0;
    var results: seq<RefreshResult> := [];
    var i := 0;
    while i < |list|
      invariant 0 <= i <= |list|
      invariant RefreshBugs(ex0, list, peek, read, []) == RefreshBugs(ex, list[i..], peek, read, results)
      invariant RefreshedMap(ex0, list, peek, read) == RefreshedMap(ex, list[i..], peek, read)
    {
      var id := list[i];
      assert list[i..][0] == id && list[i..][1..] == list[i + 1..];
      var update := false;
      var result := RefreshResult(id, None);
      if id !in ex {
        update := true;
      } else {
        var editTime := peek(id);
        if editTime.Err? {
          return ex, Err(editTime.msg);
        }
        if ex[id].editTime < editTime.value {
          result := RefreshResult(id, Some((ex[id].editTime, editTime.value)));
          update := true;
        }
      }
      if update {
        var b := read(id);
        if b.Err? {
          return ex, Err(b.msg);
        }
        ex := ex[id := b.value];
        results := results + [result];
      }
      i := i + 1;
    }
    assert list[i..] == [];
    RefreshedMapOnSuccess(ex0, list, peek, read, []);
    r := Ok(results);
  }

  /** The identity loop of refreshCache: every identity read replaces its excerpt at once,
      so `ie` is the map as the loop leaves it; the first failed read is returned. */
  method ReloadExcerpts(ie0: map<Id, IdentityExcerpt>, idents: seq<Result<Identity>>)
    returns (ie: map<Id, IdentityExcerpt>, r: Outcome)
    ensures ie == ReloadedMap(ie0, idents)
    ensures ReloadIdentities(ie0, idents).Err? ==> r == Fail(ReloadIdentities(ie0, idents).msg)
    ensures ReloadIdentities(ie0, idents).Ok? ==> r == Pass && ie == ReloadIdentities(ie0, idents).value
  {
    ie := ie0;
    var j := 0;
    while j < |idents|
      invariant 0 <= j <= |idents|
      invariant ReloadIdentities(ie0, idents) == ReloadIdentities(ie, idents[j..])
      invariant ReloadedMap(ie0, idents) == ReloadedMap(ie, idents[j..])
    {
      assert idents[j..][0] == idents[j] && idents[j..][1..] == idents[j + 1..];
      if idents[j].Err? {
        return ie, Fail(idents[j].msg);
      }
      ie := ie[idents[j].value.id := ExcerptOf(idents[j].value)];
      j := j + 1;
    }
    assert idents[j..] == [];
    r := Pass;
  }

  /** Fetch: identities, then tickets, then configurations are fetched; the first failure
      returns its own output, otherwise the three outputs are joined. */
  function Fetch(identities: (string, Outcome), bugs: (string, Outcome), configs: (string, Outcome)): (r: (string, Outcome))
    ensures r.1.Pass? <==> identities.1.Pass? && bugs.1.Pass? && configs.1.Pass?
    ensures r.1.Pass? ==> r.0 == identities.0 + bugs.0 + configs.0
    ensures identities.1.Fail? ==> r == identities
  {
    if identities.1.Fail? then identities
    else if bugs.1.Fail? then bugs
    else if configs.1.Fail? then configs
    else (identities.0 + bugs.0 + configs.0, Pass)
  }

  // ---------------------------------------------------------------- pull

  /** entity.MergeStatus. */
  datatype MergeStatus = MergeNew | MergeInvalid | MergeUpdated | MergeNothing | MergeError

  /** What a merged entity contributes to the cache: the new excerpt of an identity or a
      ticket (compiling the entity is not part of this model). */
  datatype Merged = IdentityMerged(identity: IdentityExcerpt) | BugMerged(bug: BugExcerpt)

  /** entity.MergeResult. */
  datatype MergeResult = MergeResult(err: Option<string>, id: Id, status: MergeStatus, reason: string, entity: Merged)

  /** Pull's verdict on one merge result: a carried error, or an invalid merge, stops it. */
  function MergeFailure(m: MergeResult): (r: Option<string>)
    ensures r.None? <==> m.err.None? && m.status != MergeInvalid
  {
    if m.err.Some? then Some(m.err.value)
    else if m.status == MergeInvalid then Some("merge failure for ticket " + HumanId(m.id) + ": " + m.reason)
    else None
  }

  /** How many merge results Pull reads before stopping: all of them, or up to and including
      the first that fails. */
  function Consumed(ms: seq<MergeResult>): (n: nat)
    ensures n <= |ms|
    ensures n < |ms| ==> MergeFailure(ms[n]).Some?
    ensures forall i :: 0 <= i < n ==> MergeFailure(ms[i]).None?
    decreases |ms|
  {
    if ms == [] || MergeFailure(ms[0]).Some? then 0 else 1 + Consumed(ms[1..])
  }

  /** The tickets and identities Pull reports, by their short id: every merge it read that
      changed something. */
  function Reported(ms: seq<MergeResult>): (r: seq<string>)
    ensures |r| <= |ms|
    decreases |ms|
  {
    if ms == [] then []
    else (if ms[0].status != MergeNothing then [HumanId(ms[0].id)] else []) + Reported(ms[1..])
  }

  /** What MergeAll does with one merge result: a new or updated entity replaces its
      excerpt; anything else changes nothing. */
  function ApplyMerge(m: MergeResult, bugs: map<Id, BugExcerpt>, idents: map<Id, IdentityExcerpt>)
    : (r: (map<Id, BugExcerpt>, map<Id, IdentityExcerpt>))
    ensures m.err.Some? || m.status !in {MergeNew, MergeUpdated} ==> r == (bugs, idents)
    ensures m.err.None? && m.status in {MergeNew, MergeUpdated} && m.entity.BugMerged? ==> r == (bugs[m.id := m.entity.bug], idents)
    ensures m.err.None? && m.status in {MergeNew, MergeUpdated} && m.entity.IdentityMerged? ==> r == (bugs, idents[m.id := m.entity.identity])
  {
    var changes := m.err.None? && m.status in {MergeNew, MergeUpdated};
    (if changes && m.entity.BugMerged? then bugs[m.id := m.entity.bug] else bugs,
     if changes && m.entity.IdentityMerged? then idents[m.id := m.entity.identity] else idents)
  }

  /** Applying the merge results to the excerpt maps in the order they arrive. */
  function ApplyMerges(ms: seq<MergeResult>, bugs: map<Id, BugExcerpt>, idents: map<Id, IdentityExcerpt>)
    : (r: (map<Id, BugExcerpt>, map<Id, IdentityExcerpt>))
    decreases |ms|
  {
    if ms == [] then (bugs, idents)
    else
      var (bugs', idents') := ApplyMerge(ms[0], bugs, idents);
      ApplyMerges(ms[1..], bugs', idents')
  }

  /** One more merge result is applied on top of those before it. */
  lemma {:induction false} ApplyMergesAppend(ms: seq<MergeResult>, m: MergeResult, bugs: map<Id, BugExcerpt>, idents: map<Id, IdentityExcerpt>)
    ensures var (b, i) := ApplyMerges(ms, bugs, idents);
      ApplyMerges(ms + [m], bugs, idents) == ApplyMerge(m, b, i)
    decreases |ms|
  {
    if ms == [] {
      assert [m][1..] == [];
    } else {
      assert (ms + [m])[1..] == ms[1..] + [m];
      var (b1, i1) := ApplyMerge(ms[0], bugs, idents);
      ApplyMergesAppend(ms[1..], m, b1, i1);
    }
  }

  /** One more merge result adds its short id to the report when it changed something. */
  lemma {:induction false} ReportedAppend(ms: seq<MergeResult>, m: MergeResult)
    ensures Reported(ms + [m]) == Reported(ms) + (if m.status != MergeNothing then [HumanId(m.id)] else [])
    decreases |ms|
  {
    if ms == [] {
      assert [m][1..] == [];
    } else {
      assert (ms + [m])[1..] == ms[1..] + [m];
      assert (ms + [m])[0] == ms[0];
      ReportedAppend(ms[1..], m);
      var head := if ms[0].status != MergeNothing then [HumanId(ms[0].id)] else [];
      var tail := if m.status != MergeNothing then [HumanId(m.id)] else [];
      assert Reported(ms + [m]) == head + (Reported(ms[1..]) + tail);
      assert head + (Reported(ms[1..]) + tail) == (head + Reported(ms[1..])) + tail;
    }
  }

  /** Only new and updated entities touch the excerpts, and each such entity's excerpt is
      the one the last merge of that id carried. */
  lemma {:induction false} ApplyMergesFrame(ms: seq<MergeResult>, bugs: map<Id, BugExcerpt>, idents: map<Id, IdentityExcerpt>, id: Id)
    requires forall i :: 0 <= i < |ms| ==> ms[i].id != id || ms[i].err.Some? || ms[i].status !in {MergeNew, MergeUpdated}
    ensures id in ApplyMerges(ms, bugs, idents).0 <==> id in bugs
    ensures id in bugs ==> ApplyMerges(ms, bugs, idents).0[id] == bugs[id]
    ensures id in ApplyMerges(ms, bugs, idents).1 <==> id in idents
    ensures id in idents ==> ApplyMerges(ms, bugs, idents).1[id] == idents[id]
    decreases |ms|
  {
    if ms != [] {
      var (bugs', idents') := ApplyMerge(ms[0], bugs, idents);
      assert forall i :: 0 <= i < |ms[1..]| ==> ms[1..][i] == ms[i + 1];
      ApplyMergesFrame(ms[1..], bugs', idents', id);
    }
  }
}
