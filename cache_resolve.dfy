/** Looking entries up by a predicate in the cache's excerpt maps (resolveBugMatcher in
    cache/repo_cache_bug.go, resolveIdentityMatcher in cache/repo_cache_identity.go, and the
    same functions in cache/repo_cache.go) and listing their ids. Go visits a map in an
    unspecified order; the loops below pick the next key arbitrarily, and their contracts
    hold for every order. */
module CacheResolve {
  import opened Entity
  import opened Sorting

  /** The outcome of a lookup: the single match, none (ErrBugNotExist /
      ErrIdentityNotExist), or several (the multiple-match error, which lists them). */
  datatype Resolved = Found(id: Id) | NotFound | Ambiguous(matching: seq<Id>)

  /** The keys whose entry satisfies the predicate. */
  function Matching<T>(m: map<Id, T>, f: T -> bool): set<Id> {
    set k | k in m && f(m[k])
  }

  /** The ids a list of keys stands for, in order. */
  function IdsOf<T>(m: map<Id, T>, keys: seq<Id>, idOf: T -> Id): (r: seq<Id>)
    requires forall k :: k in keys ==> k in m
    ensures |r| == |keys| && forall i :: 0 <= i < |keys| ==> r[i] == idOf(m[keys[i]])
  {
    seq(|keys|, i requires 0 <= i < |keys| => idOf(m[keys[i]]))
  }

  /** A list without repetitions is exactly as long as the set of its elements. */
  lemma {:induction false} DistinctCard<T>(xs: seq<T>)
    requires Distinct(xs)
    ensures |set x | x in xs| == |xs|
  {
    if xs != [] {
      var tail := xs[1..];
      assert Distinct(tail) by {
        forall i, j | 0 <= i < j < |tail| ensures tail[i] != tail[j] {
          assert tail[i] == xs[i + 1] && tail[j] == xs[j + 1];
        }
      }
      DistinctCard(tail);
      assert xs[0] !in tail by {
        forall i | 0 <= i < |tail| ensures tail[i] != xs[0] {
          assert tail[i] == xs[i + 1];
        }
      }
      assert (set x | x in xs) == (set x | x in tail) + {xs[0]};
    }
  }

  /** resolveBugMatcher / resolveIdentityMatcher: collects the id of every entry the
      predicate accepts, then fails on several matches, fails on none, and otherwise returns
      the one. `order` is the order in which the map was visited. */
  method ResolveMatcher<T>(m: map<Id, T>, f: T -> bool, idOf: T -> Id) returns (r: Resolved, ghost order: seq<Id>)
    ensures Distinct(order) && forall k :: k in order <==> k in Matching(m, f)
    ensures |order| == |Matching(m, f)|
    ensures r.NotFound? <==> Matching(m, f) == {}
    ensures r.Found? <==> |Matching(m, f)| == 1
    ensures r.Found? ==> exists k :: Matching(m, f) == {k} && r.id == idOf(m[k])
    ensures r.Ambiguous? ==> |r.matching| >= 2 && r.matching == IdsOf(m, order, idOf)
  {
    var keys := m.Keys;
    var matching: seq<Id> := [];
    order := [];
    while keys != {}
      invariant keys <= m.Keys
      invariant Distinct(order)
      invariant forall k :: k in order <==> k in m && k !in keys && f(m[k])
      invariant matching == IdsOf(m, order, idOf)
      decreases |keys|
    {
      var k :| k in keys;
      if f(m[k]) {
        order := order + [k];
        matching := matching + [idOf(m[k])];
      }
      keys := keys - {k};
    }
    assert (set x | x in order) == Matching(m, f);
    DistinctCard(order);
    if |matching| > 1 {
      return Ambiguous(matching), order;
    }
    if |matching| == 0 {
      return NotFound, order;
    }
    assert Matching(m, f) == {order[0]};
    return Found(matching[0]), order;
  }

  /** AllBugsIds / AllIdentityIds: the id of every entry, each entry once. `order` is the
      order in which the map was visited. */
  method AllIds<T>(m: map<Id, T>, idOf: T -> Id) returns (r: seq<Id>, ghost order: seq<Id>)
    ensures Distinct(order) && forall k :: k in order <==> k in m
    ensures |r| == |m| && r == IdsOf(m, order, idOf)
  {
    var keys := m.Keys;
    r := [];
    order := [];
    while keys != {}
      invariant keys <= m.Keys
      invariant Distinct(order)
      invariant forall k :: k in order <==> k in m && k !in keys
      invariant r == IdsOf(m, order, idOf)
      decreases |keys|
    {
      var k :| k in keys;
      order := order + [k];
      r := r + [idOf(m[k])];
      keys := keys - {k};
    }
    assert (set x | x in order) == m.Keys;
    DistinctCard(order);
  }

  /** AllIdentityExcerpts: every entry once. */
  method AllValues<T>(m: map<Id, T>) returns (r: seq<T>, ghost order: seq<Id>)
    ensures Distinct(order) && forall k :: k in order <==> k in m
    ensures |r| == |m| == |order| && forall i :: 0 <= i < |r| ==> r[i] == m[order[i]]
  {
    var keys := m.Keys;
    r := [];
    order := [];
    while keys != {}
      invariant keys <= m.Keys
      invariant Distinct(order)
      invariant forall k :: k in order <==> k in m && k !in keys
      invariant |r| == |order| && forall i :: 0 <= i < |r| ==> r[i] == m[order[i]]
      decreases |keys|
    {
      var k :| k in keys;
      order := order + [k];
      r := r + [m[k]];
      keys := keys - {k};
    }
    assert (set x | x in order) == m.Keys;
    DistinctCard(order);
  }
}
