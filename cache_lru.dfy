/** The order in which the cache keeps its loaded tickets (the `loadedBugs` LRU of
    cache/repo_cache_bug.go), oldest first, and the eviction rule of evictIfNeeded. The LRU
    type itself is not part of this model; its Get, Add and Remove are described here by the
    order they leave behind. */
module LoadedBugs {
  import opened Entity
  import opened Sorting

  /** Remove: the order without `id`. */
  function Without(lru: seq<Id>, id: Id): (r: seq<Id>)
    ensures forall x :: x in r <==> x in lru && x != id
    ensures |r| <= |lru|
    ensures id !in lru ==> r == lru
    decreases |lru|
  {
    if lru == [] then []
    else if lru[0] == id then Without(lru[1..], id)
    else [lru[0]] + Without(lru[1..], id)
  }

  lemma {:induction false} WithoutDistinct(lru: seq<Id>, id: Id)
    requires Distinct(lru)
    ensures Distinct(Without(lru, id))
    ensures id in lru ==> |Without(lru, id)| == |lru| - 1
    decreases |lru|
  {
    if lru != [] {
      var tail := lru[1..];
      assert Distinct(tail) by {
        forall i, j | 0 <= i < j < |tail| ensures tail[i] != tail[j] {
          assert tail[i] == lru[i + 1] && tail[j] == lru[j + 1];
        }
      }
      assert lru[0] !in tail by {
        forall i | 0 <= i < |tail| ensures tail[i] != lru[0] {
          assert tail[i] == lru[i + 1];
        }
      }
      WithoutDistinct(tail, id);
      if lru[0] != id {
        var r := [lru[0]] + Without(tail, id);
        forall i, j | 0 <= i < j < |r| ensures r[i] != r[j] {
          if i == 0 {
            assert r[j] in Without(tail, id);
          }
        }
      }
    }
  }

  /** Removing an element found at a known place: the elements around it stay in order. */
  lemma {:induction false} WithoutAt(pre: seq<Id>, id: Id, post: seq<Id>)
    requires id !in pre && id !in post
    ensures Without(pre + [id] + post, id) == pre + post
    decreases |pre|
  {
    if pre == [] {
      assert ([id] + post)[1..] == post;
    } else {
      assert (pre + [id] + post)[1..] == pre[1..] + [id] + post;
      WithoutAt(pre[1..], id, post);
      assert pre == [pre[0]] + pre[1..];
    }
  }

  /** Get: a loaded id becomes the most recently used; other calls change nothing. */
  function Touch(lru: seq<Id>, id: Id): (r: seq<Id>)
    ensures forall x :: x in r <==> x in lru
    ensures id in lru ==> r[|r| - 1] == id
  {
    if id in lru then Without(lru, id) + [id] else lru
  }

  /** Add: the id becomes the most recently used, whether or not it was loaded. */
  function Add(lru: seq<Id>, id: Id): (r: seq<Id>)
    ensures forall x :: x in r <==> x in lru || x == id
    ensures |r| > 0 && r[|r| - 1] == id
  {
    Without(lru, id) + [id]
  }

  lemma TouchAddDistinct(lru: seq<Id>, id: Id)
    requires Distinct(lru)
    ensures Distinct(Touch(lru, id)) && Distinct(Add(lru, id))
    ensures |Touch(lru, id)| == |lru|
    ensures |Add(lru, id)| == if id in lru then |lru| else |lru| + 1
  {
    WithoutDistinct(lru, id);
  }

  /** The order left after evicting the `n` oldest entries that are not pinned (or all of
      them when there are fewer). */
  function EvictOldest(lru: seq<Id>, pinned: Id -> bool, n: int): (r: seq<Id>)
    ensures |r| <= |lru|
    decreases |lru|
  {
    if lru == [] || n <= 0 then lru
    else if pinned(lru[0]) then [lru[0]] + EvictOldest(lru[1..], pinned, n)
    else EvictOldest(lru[1..], pinned, n - 1)
  }

  /** How many entries are not pinned. */
  function Unpinned(lru: seq<Id>, pinned: Id -> bool): (k: nat)
    ensures k <= |lru|
    decreases |lru|
  {
    if lru == [] then 0 else (if pinned(lru[0]) then 0 else 1) + Unpinned(lru[1..], pinned)
  }

  /** A list with no entry that is not pinned is all pinned. */
  lemma {:induction false} NoneUnpinned(lru: seq<Id>, pinned: Id -> bool)
    requires Unpinned(lru, pinned) == 0
    ensures forall x :: x in lru ==> pinned(x)
    decreases |lru|
  {
    if lru != [] {
      NoneUnpinned(lru[1..], pinned);
      assert forall x :: x in lru ==> x == lru[0] || x in lru[1..];
    }
  }

  /** What eviction removes and keeps: it keeps every pinned entry, keeps the survivors in
      their order, removes exactly min(n, unpinned) entries, and removes an entry only when
      every older entry that is not pinned is removed too; with a budget covering every entry
      that is not pinned, only pinned entries remain. */
  lemma {:induction false} EvictOldestSpec(lru: seq<Id>, pinned: Id -> bool, n: int)
    requires Distinct(lru)
    ensures var r := EvictOldest(lru, pinned, n);
      && Distinct(r)
      && (forall x :: x in r ==> x in lru)
      && (forall x :: x in lru && pinned(x) ==> x in r)
      && |r| == |lru| - (if n <= 0 then 0 else if n < Unpinned(lru, pinned) then n else Unpinned(lru, pinned))
      && (forall i, j :: 0 <= i < j < |lru| && lru[j] !in r && !pinned(lru[i]) ==> lru[i] !in r)
      && (n >= Unpinned(lru, pinned) ==> forall x :: x in r ==> pinned(x))
    decreases |lru|
  {
    var r := EvictOldest(lru, pinned, n);
    if lru != [] && n <= 0 && n >= Unpinned(lru, pinned) {
      NoneUnpinned(lru, pinned);
    }
    if lru != [] && n > 0 {
      var tail := lru[1..];
      assert Distinct(tail) by {
        forall i, j | 0 <= i < j < |tail| ensures tail[i] != tail[j] {
          assert tail[i] == lru[i + 1] && tail[j] == lru[j + 1];
        }
      }
      assert lru[0] !in tail by {
        forall i | 0 <= i < |tail| ensures tail[i] != lru[0] {
          assert tail[i] == lru[i + 1];
        }
      }
      var n' := if pinned(lru[0]) then n else n - 1;
      EvictOldestSpec(tail, pinned, n');
      var rt := EvictOldest(tail, pinned, n');
      assert forall x :: x in lru <==> x == lru[0] || x in tail;
      if pinned(lru[0]) {
        assert r == [lru[0]] + rt;
        forall i, j | 0 <= i < j < |r| ensures r[i] != r[j] {
          if i == 0 {
            assert r[j] in rt;
          }
        }
      } else {
        assert r == rt;
        assert lru[0] !in r;
      }
      forall i, j | 0 <= i < j < |lru| && lru[j] !in r && !pinned(lru[i])
        ensures lru[i] !in r
      {
        if i > 0 {
          assert lru[i] == tail[i - 1] && lru[j] == tail[j - 1];
          assert lru[j] !in rt;
        }
      }
    }
  }

  /** One step of the eviction scan over a non-empty list with budget left. */
  lemma EvictOldestStep(xs: seq<Id>, pinned: Id -> bool, n: int)
    requires xs != [] && n > 0
    ensures EvictOldest(xs, pinned, n) ==
      (if pinned(xs[0]) then [xs[0]] else []) + EvictOldest(xs[1..], pinned, if pinned(xs[0]) then n else n - 1)
  {
    if !pinned(xs[0]) {
      assert [] + EvictOldest(xs[1..], pinned, n - 1) == EvictOldest(xs[1..], pinned, n - 1);
    }
  }

  /** The step of EvictOldestAppend for a non-empty first part, given the property for its tail. */
  lemma EvictOldestAppendCons(a: seq<Id>, b: seq<Id>, pinned: Id -> bool, n: int)
    requires a != [] && n > 0
    requires var m := if pinned(a[0]) then n else n - 1;
      EvictOldest(a[1..] + b, pinned, m) ==
        EvictOldest(a[1..], pinned, m) + EvictOldest(b, pinned, m - (|a[1..]| - |EvictOldest(a[1..], pinned, m)|))
    ensures EvictOldest(a + b, pinned, n) ==
      EvictOldest(a, pinned, n) + EvictOldest(b, pinned, n - (|a| - |EvictOldest(a, pinned, n)|))
  {
    var t := a[1..];
    assert (a + b)[0] == a[0] && (a + b)[1..] == t + b;
    var m := if pinned(a[0]) then n else n - 1;
    var et := EvictOldest(t, pinned, m);
    var rest := EvictOldest(b, pinned, m - (|t| - |et|));
    var head := if pinned(a[0]) then [a[0]] else [];
    EvictOldestStep(a, pinned, n);
    EvictOldestStep(a + b, pinned, n);
    assert EvictOldest(a, pinned, n) == head + et;
    assert EvictOldest(a + b, pinned, n) == head + (et + rest);
    assert n - (|a| - |head + et|) == m - (|t| - |et|);
  }

  /** Evicting from a list split in two: the first part is handled with the whole budget,
      the second with what the first part did not use. */
  lemma {:induction false} EvictOldestAppend(a: seq<Id>, b: seq<Id>, pinned: Id -> bool, n: int)
    ensures EvictOldest(a + b, pinned, n) ==
      EvictOldest(a, pinned, n) + EvictOldest(b, pinned, n - (|a| - |EvictOldest(a, pinned, n)|))
    decreases |a|
  {
    if a == [] {
      assert a + b == b;
    } else if n <= 0 {
      if b != [] {
        assert EvictOldest(b, pinned, n) == b;
      }
    } else {
      var m := if pinned(a[0]) then n else n - 1;
      EvictOldestAppend(a[1..], b, pinned, m);
      EvictOldestAppendCons(a, b, pinned, n);
    }
  }
}
