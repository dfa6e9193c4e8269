/** The orderings the Go code obtains from `sort.Slice` and `sort.Strings`, written as
    insertion sorts. Go's `sort.Slice` is not stable; the model settles ties by keeping input
    order, and every property proved below (sorted, a permutation) holds for any tie order. */
module Sorting {
  import opened StrUtil

  /** Ascending in Go's string order. */
  predicate SortedStrings(xs: seq<string>) {
    forall i, j :: 0 <= i < j < |xs| ==> LexLessEq(xs[i], xs[j])
  }

  function InsertString(x: string, xs: seq<string>): (r: seq<string>)
    ensures multiset(r) == multiset(xs) + multiset{x}
    ensures |r| == |xs| + 1
  {
    if xs == [] then [x]
    else if LexLessEq(x, xs[0]) then [x] + xs
    else
      assert xs == [xs[0]] + xs[1..];
      [xs[0]] + InsertString(x, xs[1..])
  }

  /** `sort.Strings`. */
  function SortStrings(xs: seq<string>): (r: seq<string>)
    ensures multiset(r) == multiset(xs)
    ensures |r| == |xs|
  {
    if xs == [] then []
    else
      assert xs == [xs[0]] + xs[1..];
      InsertString(xs[0], SortStrings(xs[1..]))
  }

  lemma LexLessEqTransitive(a: string, b: string, c: string)
    requires LexLessEq(a, b) && LexLessEq(b, c)
    ensures LexLessEq(a, c)
  {
    if a != b && b != c {
      LexLessTransitive(a, b, c);
    }
  }

  lemma {:induction false} InsertStringSorted(x: string, xs: seq<string>)
    requires SortedStrings(xs)
    ensures SortedStrings(InsertString(x, xs))
  {
    if xs != [] && !LexLessEq(x, xs[0]) {
      var rest := InsertString(x, xs[1..]);
      InsertStringSorted(x, xs[1..]);
      LexLessTotal(x, xs[0]);
      forall y | y in rest
        ensures LexLessEq(xs[0], y)
      {
        assert y in multiset(rest);
        if y != x {
          assert y in multiset(xs[1..]);
          var k :| 0 <= k < |xs[1..]| && xs[1..][k] == y;
          assert xs[k + 1] == y;
        }
      }
      var r := [xs[0]] + rest;
      forall i, j | 0 <= i < j < |r|
        ensures LexLessEq(r[i], r[j])
      {
        if i > 0 {
          assert r[i] == rest[i - 1] && r[j] == rest[j - 1];
        } else {
          assert r[j] == rest[j - 1] && rest[j - 1] in rest;
        }
      }
    } else if xs != [] {
      var r := [x] + xs;
      forall i, j | 0 <= i < j < |r|
        ensures LexLessEq(r[i], r[j])
      {
        if i == 0 && j > 1 {
          LexLessEqTransitive(x, xs[0], xs[j - 1]);
        }
      }
    }
  }

  /** `sort.Strings` sorts: its result is ascending and a permutation of its input. */
  lemma {:induction false} SortStringsSorted(xs: seq<string>)
    ensures SortedStrings(SortStrings(xs))
    ensures multiset(SortStrings(xs)) == multiset(xs)
  {
    if xs != [] {
      SortStringsSorted(xs[1..]);
      InsertStringSorted(xs[0], SortStrings(xs[1..]));
    }
  }

  /** Two ascending orderings of the same strings start with the same string. */
  lemma SortedHeads(a: seq<string>, b: seq<string>)
    requires SortedStrings(a) && SortedStrings(b) && multiset(a) == multiset(b) && a != []
    ensures b != [] && a[0] == b[0]
  {
    assert a[0] in multiset(b);
    var k :| 0 <= k < |b| && b[k] == a[0];
    assert b[0] in multiset(a);
    var j :| 0 <= j < |a| && a[j] == b[0];
    assert LexLessEq(b[0], a[0]) by { if k > 0 { assert LexLessEq(b[0], b[k]); } }
    assert LexLessEq(a[0], b[0]) by { if j > 0 { assert LexLessEq(a[0], a[j]); } }
    if a[0] != b[0] {
      LexLessAsym(a[0], b[0]);
    }
  }

  lemma MultisetTail<T>(a: seq<T>)
    requires a != []
    ensures multiset(a[1..]) == multiset(a) - multiset{a[0]}
  {
    assert a == [a[0]] + a[1..];
  }

  /** Two ascending orderings of the same strings are the same sequence: the result of
      `sort.Strings` does not depend on the order of its input. */
  lemma {:induction false} SortedUnique(a: seq<string>, b: seq<string>)
    requires SortedStrings(a) && SortedStrings(b) && multiset(a) == multiset(b)
    ensures a == b
    decreases |a|
  {
    if a != [] {
      SortedHeads(a, b);
      MultisetTail(a);
      MultisetTail(b);
      assert SortedStrings(a[1..]) && SortedStrings(b[1..]) by {
        forall i, j | 0 <= i < j < |a| - 1 ensures LexLessEq(a[1..][i], a[1..][j]) {
          assert a[1..][i] == a[i + 1] && a[1..][j] == a[j + 1];
        }
        forall i, j | 0 <= i < j < |b| - 1 ensures LexLessEq(b[1..][i], b[1..][j]) {
          assert b[1..][i] == b[i + 1] && b[1..][j] == b[j + 1];
        }
      }
      SortedUnique(a[1..], b[1..]);
      assert a == [a[0]] + a[1..] && b == [b[0]] + b[1..];
    }
  }

  /** Sorting a permutation gives the same sequence. */
  lemma SortStringsPermutation(xs: seq<string>, ys: seq<string>)
    requires multiset(xs) == multiset(ys)
    ensures SortStrings(xs) == SortStrings(ys)
  {
    SortStringsSorted(xs);
    SortStringsSorted(ys);
    SortedUnique(SortStrings(xs), SortStrings(ys));
  }

  /** Non-decreasing by an integer key. */
  predicate SortedBy<T>(xs: seq<T>, key: T -> int) {
    forall i, j :: 0 <= i < j < |xs| ==> key(xs[i]) <= key(xs[j])
  }

  /** The tail of a sorted list is sorted and its head is at most every later key. */
  lemma SortedByTail<T>(xs: seq<T>, key: T -> int)
    requires xs != [] && SortedBy(xs, key)
    ensures SortedBy(xs[1..], key) && forall t :: t in xs[1..] ==> key(xs[0]) <= key(t)
  {
    var tail := xs[1..];
    forall i, j | 0 <= i < j < |tail|
      ensures key(tail[i]) <= key(tail[j])
    {
      assert tail[i] == xs[i + 1] && tail[j] == xs[j + 1];
    }
    forall t | t in tail
      ensures key(xs[0]) <= key(t)
    {
      var m :| 0 <= m < |tail| && tail[m] == t;
      assert tail[m] == xs[m + 1];
    }
  }

  /** A key at most every key of a sorted list can go in front of it. */
  lemma SortedByCons<T>(x: T, xs: seq<T>, key: T -> int)
    requires SortedBy(xs, key) && forall t :: t in xs ==> key(x) <= key(t)
    ensures SortedBy([x] + xs, key)
  {
    var r := [x] + xs;
    forall i, j | 0 <= i < j < |r|
      ensures key(r[i]) <= key(r[j])
    {
      assert r[j] == xs[j - 1] && r[j] in xs;
      if i > 0 {
        assert r[i] == xs[i - 1];
      }
    }
  }

  function InsertBy<T(==)>(x: T, xs: seq<T>, key: T -> int): (r: seq<T>)
    ensures multiset(r) == multiset(xs) + multiset{x}
    ensures |r| == |xs| + 1
  {
    if xs == [] then [x]
    else if key(x) <= key(xs[0]) then [x] + xs
    else
      assert xs == [xs[0]] + xs[1..];
      [xs[0]] + InsertBy(x, xs[1..], key)
  }

  /** `sort.Slice` with `less(i, j) = key(xs[i]) < key(xs[j])`. */
  function SortBy<T(==)>(xs: seq<T>, key: T -> int): (r: seq<T>)
    ensures multiset(r) == multiset(xs)
    ensures |r| == |xs|
  {
    if xs == [] then []
    else
      assert xs == [xs[0]] + xs[1..];
      InsertBy(xs[0], SortBy(xs[1..], key), key)
  }

  /** Every element of an insertion is the inserted one or an element of the list. */
  lemma InsertByBound<T>(x: T, xs: seq<T>, key: T -> int, lo: int)
    requires lo <= key(x)
    requires forall k :: 0 <= k < |xs| ==> lo <= key(xs[k])
    ensures forall k :: 0 <= k < |InsertBy(x, xs, key)| ==> lo <= key(InsertBy(x, xs, key)[k])
  {
    var r := InsertBy(x, xs, key);
    forall k | 0 <= k < |r|
      ensures lo <= key(r[k])
    {
      assert r[k] in multiset(r);
      if r[k] != x {
        assert r[k] in multiset(xs);
        var m :| 0 <= m < |xs| && xs[m] == r[k];
      }
    }
  }

  lemma {:induction false} InsertBySorted<T>(x: T, xs: seq<T>, key: T -> int)
    requires SortedBy(xs, key)
    ensures SortedBy(InsertBy(x, xs, key), key)
  {
    if xs == [] {
    } else if key(x) <= key(xs[0]) {
      var r := [x] + xs;
      assert InsertBy(x, xs, key) == r;
      forall i, j | 0 <= i < j < |r|
        ensures key(r[i]) <= key(r[j])
      {
        if i == 0 {
          assert r[j] == xs[j - 1];
          assert key(xs[0]) <= key(xs[j - 1]);
        } else {
          assert r[i] == xs[i - 1] && r[j] == xs[j - 1];
        }
      }
    } else {
      var tail := xs[1..];
      var rest := InsertBy(x, tail, key);
      InsertBySorted(x, tail, key);
      assert forall k :: 0 <= k < |tail| ==> key(xs[0]) <= key(tail[k]) by {
        forall k | 0 <= k < |tail| ensures key(xs[0]) <= key(tail[k]) {
          assert tail[k] == xs[k + 1];
        }
      }
      InsertByBound(x, tail, key, key(xs[0]));
      var r := [xs[0]] + rest;
      assert InsertBy(x, xs, key) == r;
      forall i, j | 0 <= i < j < |r|
        ensures key(r[i]) <= key(r[j])
      {
        assert r[j] == rest[j - 1];
        if i > 0 {
          assert r[i] == rest[i - 1];
        }
      }
    }
  }

  /** `sort.Slice` by a key sorts: non-decreasing and a permutation of its input. */
  lemma {:induction false} SortBySorted<T>(xs: seq<T>, key: T -> int)
    ensures SortedBy(SortBy(xs, key), key)
    ensures multiset(SortBy(xs, key)) == multiset(xs)
  {
    if xs != [] {
      SortBySorted(xs[1..], key);
      InsertBySorted(xs[0], SortBy(xs[1..], key), key);
    }
  }

  /** No element occurs twice. */
  predicate Distinct<T(==)>(xs: seq<T>) {
    forall i, j :: 0 <= i < j < |xs| ==> xs[i] != xs[j]
  }

  lemma {:induction false} DistinctCount<T>(xs: seq<T>, x: T)
    requires Distinct(xs)
    ensures multiset(xs)[x] <= 1
  {
    if xs != [] {
      assert xs == [xs[0]] + xs[1..];
      DistinctCount(xs[1..], x);
      if xs[0] == x {
        assert x !in xs[1..];
      }
    }
  }

  lemma CountTwo<T>(xs: seq<T>, i: int, j: int)
    requires 0 <= i < j < |xs|
    ensures xs[i] == xs[j] ==> multiset(xs)[xs[i]] >= 2
  {
    if xs[i] == xs[j] {
      assert xs == xs[..i] + [xs[i]] + xs[i + 1..j] + [xs[j]] + xs[j + 1..];
    }
  }

  /** A permutation of a list without repetitions has none either. */
  lemma DistinctPermutation<T>(a: seq<T>, b: seq<T>)
    requires multiset(a) == multiset(b) && Distinct(a)
    ensures Distinct(b)
  {
    forall i, j | 0 <= i < j < |b|
      ensures b[i] != b[j]
    {
      DistinctCount(a, b[i]);
      CountTwo(b, i, j);
    }
  }

  /** A set of integers with no member is empty; this lets a loop pick an element of a
      non-empty set of integers. */
  lemma NoMemberEmpty(s: set<int>)
    ensures (forall x: int :: x !in s) ==> s == {}
  {
    if forall x: int :: x !in s {
      assert forall x: int :: x in s <==> x in {};
    }
  }
}
