/** What QueryBugs (cache/repo_cache_bug.go) computes: the excerpts a compiled query's filter
    keeps, in the order the excerpt map was visited, then ordered by the query's ordering
    node. The orderings of cache/bug_excerpt.go (not part of this model) are taken to be by
    id, by creation time and by edit time. */
module CacheQuery {
  import opened Wrappers
  import opened Entity
  import opened StrUtil
  import opened Sorting
  import opened QueryLexer
  import opened QueryAst
  import opened CacheExcerpts
  import CacheFilter

  /** The ordering QueryBugs writes into a query that has none: by edit time, newest first. */
  const DefaultOrder: OrderByNode := OrderByNode(OrderByEdit, OrderDescending, Span(0, 0))

  /** The filter's verdict on one excerpt; no filter keeps everything. */
  function Verdict(filter: Option<FilterNode>, env: CacheFilter.Env, e: BugExcerpt): (r: Result<bool>)
    ensures filter.None? ==> r == Ok(true)
  {
    if filter.None? then Ok(true) else CacheFilter.Execute(filter.value, env, e)
  }

  /** The filter's verdict on each visited excerpt, in visiting order; the first error
      stops the scan (the panics of executeFilter). */
  function Select(m: map<Id, BugExcerpt>, keys: seq<Id>, filter: Option<FilterNode>, env: CacheFilter.Env)
    : (r: Result<seq<BugExcerpt>>)
    requires forall k :: k in keys ==> k in m
    ensures r.Ok? ==> |r.value| <= |keys| && forall e :: e in r.value ==> exists k :: k in keys && m[k] == e
    ensures filter.None? ==> r.Ok? && |r.value| == |keys| && forall i :: 0 <= i < |keys| ==> r.value[i] == m[keys[i]]
    decreases |keys|
  {
    if keys == [] then Ok([])
    else
      var keep := Verdict(filter, env, m[keys[0]]);
      if keep.Err? then Err(keep.msg)
      else
        var rest := Select(m, keys[1..], filter, env);
        if rest.Err? then rest
        else if keep.value then Ok([m[keys[0]]] + rest.value)
        else rest
  }

  /** Selection keeps exactly the excerpts the filter accepts, when none fails. */
  lemma {:induction false} SelectMeaning(m: map<Id, BugExcerpt>, keys: seq<Id>, f: FilterNode, env: CacheFilter.Env)
    requires forall k :: k in keys ==> k in m
    requires forall k :: k in keys ==> CacheFilter.Execute(f, env, m[k]).Ok?
    ensures Select(m, keys, Some(f), env).Ok?
    ensures forall e :: e in Select(m, keys, Some(f), env).value <==>
      exists k :: k in keys && m[k] == e && CacheFilter.Execute(f, env, e) == Ok(true)
    decreases |keys|
  {
    if keys != [] {
      SelectMeaning(m, keys[1..], f, env);
      forall e ensures e in Select(m, keys, Some(f), env).value <==>
        exists k :: k in keys && m[k] == e && CacheFilter.Execute(f, env, e) == Ok(true)
      {
        if e in Select(m, keys, Some(f), env).value && e != m[keys[0]] {
          var k :| k in keys[1..] && m[k] == e && CacheFilter.Execute(f, env, e) == Ok(true);
          assert k in keys;
        }
        if exists k :: k in keys && m[k] == e && CacheFilter.Execute(f, env, e) == Ok(true) {
          var k :| k in keys && m[k] == e && CacheFilter.Execute(f, env, e) == Ok(true);
          if k != keys[0] {
            assert k in keys[1..];
          }
        }
      }
    }
  }

  /** Scanning one more excerpt after an error-free scan: a failing verdict ends the scan
      with its error, an accepted excerpt goes at the end. */
  lemma {:induction false} SelectAppend(m: map<Id, BugExcerpt>, keys: seq<Id>, k: Id, filter: Option<FilterNode>, env: CacheFilter.Env)
    requires forall x :: x in keys ==> x in m
    requires k in m && Select(m, keys, filter, env).Ok?
    ensures var v := Verdict(filter, env, m[k]);
      var prev := Select(m, keys, filter, env).value;
      Select(m, keys + [k], filter, env) ==
        if v.Err? then Err(v.msg) else if v.value then Ok(prev + [m[k]]) else Ok(prev)
    decreases |keys|
  {
    if keys == [] {
      assert keys + [k] == [k];
      assert [k][1..] == [];
      assert Select(m, [], filter, env) == Ok([]);
      assert [m[k]] + [] == [] + [m[k]];
    } else {
      assert (keys + [k])[0] == keys[0] && (keys + [k])[1..] == keys[1..] + [k];
      SelectAppend(m, keys[1..], k, filter, env);
      var v0 := Verdict(filter, env, m[keys[0]]);
      if v0.Ok? && v0.value {
        var prev := Select(m, keys[1..], filter, env).value;
        assert [m[keys[0]]] + (prev + [m[k]]) == ([m[keys[0]]] + prev) + [m[k]];
      }
    }
  }

  function IdsOf(xs: seq<BugExcerpt>): (r: seq<Id>)
    ensures |r| == |xs| && forall i :: 0 <= i < |xs| ==> r[i] == xs[i].id
    decreases |xs|
  {
    if xs == [] then [] else [xs[0].id] + IdsOf(xs[1..])
  }

  function Reversed<T>(xs: seq<T>): (r: seq<T>)
    ensures |r| == |xs| && forall i :: 0 <= i < |xs| ==> r[i] == xs[|xs| - 1 - i]
  {
    seq(|xs|, i requires 0 <= i < |xs| => xs[|xs| - 1 - i])
  }

  lemma {:induction false} ReversedMultiset<T>(xs: seq<T>)
    ensures multiset(Reversed(xs)) == multiset(xs)
    decreases |xs|
  {
    if xs != [] {
      var n := |xs|;
      ReversedMultiset(xs[1..]);
      assert Reversed(xs) == Reversed(xs[1..]) + [xs[0]];
      assert xs == [xs[0]] + xs[1..];
    }
  }

  function CreationKey(e: BugExcerpt): int { e.createTime }

  function EditKey(e: BugExcerpt): int { e.editTime }

  /** The ordering step: the sort key's switch, then the direction's switch (each panics on
      an unknown value), then the sort. */
  function Ordered(xs: seq<BugExcerpt>, o: OrderByNode): (r: Result<seq<Id>>)
    ensures r.Err? <==> (o.orderBy !in {OrderById, OrderByCreation, OrderByEdit}
      || o.orderDirection !in {OrderAscending, OrderDescending})
    ensures r.Ok? ==> |r.value| == |xs|
  {
    if o.orderBy !in {OrderById, OrderByCreation, OrderByEdit} then Err("missing sort type")
    else if o.orderDirection !in {OrderAscending, OrderDescending} then Err("missing sort direction")
    else
      var asc :=
        if o.orderBy == OrderById then SortStrings(IdsOf(xs))
        else if o.orderBy == OrderByCreation then IdsOf(SortBy(xs, CreationKey))
        else IdsOf(SortBy(xs, EditKey));
      Ok(if o.orderDirection == OrderDescending then Reversed(asc) else asc)
  }

  /** The ordered result holds each selected id as often as the selection does. */
  lemma OrderedPermutes(xs: seq<BugExcerpt>, o: OrderByNode)
    requires Ordered(xs, o).Ok?
    ensures multiset(Ordered(xs, o).value) == multiset(IdsOf(xs))
  {
    var asc :=
      if o.orderBy == OrderById then SortStrings(IdsOf(xs))
      else if o.orderBy == OrderByCreation then IdsOf(SortBy(xs, CreationKey))
      else IdsOf(SortBy(xs, EditKey));
    ReversedMultiset(asc);
    if o.orderBy == OrderByCreation {
      IdsSortBy(xs, CreationKey);
    } else if o.orderBy == OrderByEdit {
      IdsSortBy(xs, EditKey);
    }
  }

  /** Ordered by id: ascending or descending in string order. */
  lemma OrderedById(xs: seq<BugExcerpt>, o: OrderByNode)
    requires Ordered(xs, o).Ok? && o.orderBy == OrderById
    ensures var r := Ordered(xs, o).value;
      forall i, j :: 0 <= i < j < |r| ==>
        if o.orderDirection == OrderAscending then LexLessEq(r[i], r[j]) else LexLessEq(r[j], r[i])
  {
    SortStringsSorted(IdsOf(xs));
  }

  /** Ordered by a time: the ids of the excerpts sorted by that time, listed backwards for
      descending order. */
  lemma OrderedByTime(xs: seq<BugExcerpt>, o: OrderByNode)
    requires Ordered(xs, o).Ok? && o.orderBy != OrderById
    ensures var key := if o.orderBy == OrderByCreation then CreationKey else EditKey;
      var ys := SortBy(xs, key);
      && multiset(ys) == multiset(xs)
      && SortedBy(ys, key)
      && Ordered(xs, o).value == if o.orderDirection == OrderAscending then IdsOf(ys) else Reversed(IdsOf(ys))
  {
    SortBySorted(xs, if o.orderBy == OrderByCreation then CreationKey else EditKey);
  }

  /** Sorting moves excerpts around without changing which ids occur how often. */
  lemma {:induction false} IdsInsertBy(x: BugExcerpt, zs: seq<BugExcerpt>, key: BugExcerpt -> int)
    ensures multiset(IdsOf(InsertBy(x, zs, key))) == multiset(IdsOf(zs)) + multiset{x.id}
    decreases |zs|
  {
    if zs != [] && key(x) > key(zs[0]) {
      IdsInsertBy(x, zs[1..], key);
      var ins := InsertBy(x, zs, key);
      assert ins == [zs[0]] + InsertBy(x, zs[1..], key);
      assert ins[1..] == InsertBy(x, zs[1..], key);
    } else {
      var ins := InsertBy(x, zs, key);
      assert ins == [x] + zs;
      assert ins[1..] == zs;
    }
  }

  lemma {:induction false} IdsSortBy(xs: seq<BugExcerpt>, key: BugExcerpt -> int)
    ensures multiset(IdsOf(SortBy(xs, key))) == multiset(IdsOf(xs))
    decreases |xs|
  {
    if xs != [] {
      IdsSortBy(xs[1..], key);
      IdsInsertBy(xs[0], SortBy(xs[1..], key), key);
    }
  }
}
