/** Review aggregation shared by the review modules. "Latest per user": for each key (a
    reviewer's e-mail or Phabricator user) keep the newest of a list of events, scanning the
    list in order and replacing the recorded event only by a strictly newer one. "Overall
    verdict": approved when some latest review approves and none requests changes. */
module Latest {
  import opened StrUtil

  /** Index of the event recorded for each key after scanning `xs` in order. Events that
      `keep` rejects are skipped. */
  function LatestIndex<T>(xs: seq<T>, keep: T -> bool, key: T -> string, time: T -> int): (m: map<string, nat>)
    ensures forall k :: k in m ==> m[k] < |xs|
  {
    if xs == [] then map[]
    else
      var n := |xs| - 1;
      var m := LatestIndex(xs[..n], keep, key, time);
      var x := xs[n];
      if keep(x) && (key(x) !in m || time(xs[m[key(x)]]) < time(x)) then m[key(x) := n] else m
  }

  /** The events themselves, by key. */
  function LatestOf<T>(xs: seq<T>, keep: T -> bool, key: T -> string, time: T -> int): map<string, T> {
    var idx := LatestIndex(xs, keep, key, time);
    map k | k in idx :: xs[idx[k]]
  }

  predicate Candidate<T>(xs: seq<T>, keep: T -> bool, key: T -> string, k: string, i: int) {
    0 <= i < |xs| && keep(xs[i]) && key(xs[i]) == k
  }

  /** `xs[i]` is the first of the newest kept events with key `k`. */
  ghost predicate FirstNewest<T>(xs: seq<T>, keep: T -> bool, key: T -> string, time: T -> int, k: string, i: int) {
    Candidate(xs, keep, key, k, i)
    && (forall j :: Candidate(xs, keep, key, k, j) ==> time(xs[j]) <= time(xs[i]))
    && (forall j :: 0 <= j < i && Candidate(xs, keep, key, k, j) ==> time(xs[j]) < time(xs[i]))
  }

  lemma CandidatePrefix<T>(xs: seq<T>, keep: T -> bool, key: T -> string, k: string, j: int)
    requires 0 <= j < |xs| - 1
    ensures Candidate(xs[..|xs| - 1], keep, key, k, j) <==> Candidate(xs, keep, key, k, j)
  {
    assert xs[..|xs| - 1][j] == xs[j];
  }

  /** What the scan records: exactly the keys of kept events, each with its first newest event. */
  lemma {:induction false} LatestIndexSpec<T>(xs: seq<T>, keep: T -> bool, key: T -> string, time: T -> int)
    ensures forall k :: k in LatestIndex(xs, keep, key, time) <==> exists i :: Candidate(xs, keep, key, k, i)
    ensures forall k :: k in LatestIndex(xs, keep, key, time) ==>
      FirstNewest(xs, keep, key, time, k, LatestIndex(xs, keep, key, time)[k])
  {
    if xs != [] {
      var n := |xs| - 1;
      var pre := xs[..n];
      LatestIndexSpec(pre, keep, key, time);
      var m := LatestIndex(pre, keep, key, time);
      var r := LatestIndex(xs, keep, key, time);
      forall k
        ensures k in r <==> exists i :: Candidate(xs, keep, key, k, i)
        ensures k in r ==> FirstNewest(xs, keep, key, time, k, r[k])
      {
        forall j | 0 <= j < n
          ensures Candidate(pre, keep, key, k, j) <==> Candidate(xs, keep, key, k, j)
        {
          CandidatePrefix(xs, keep, key, k, j);
        }
        if k in m {
          assert pre[m[k]] == xs[m[k]];
          assert Candidate(xs, keep, key, k, m[k]);
        }
        if k in r && k !in m {
          assert Candidate(xs, keep, key, k, n);
        }
        if exists i :: Candidate(xs, keep, key, k, i) {
          var i :| Candidate(xs, keep, key, k, i);
          if i < n {
            assert Candidate(pre, keep, key, k, i);
          }
        }
      }
    }
  }

  /** One step of the scan over `xs[..i]`: the index and the events it records grow exactly as
      `LatestIndex` does for `xs[..i + 1]`. */
  lemma LatestScanStep<T>(xs: seq<T>, i: nat, keep: T -> bool, key: T -> string, time: T -> int,
                          idx: map<string, nat>, m: map<string, T>)
    requires i < |xs|
    requires idx == LatestIndex(xs[..i], keep, key, time)
    requires m == LatestOf(xs[..i], keep, key, time)
    ensures (keep(xs[i]) && (key(xs[i]) !in m || time(m[key(xs[i])]) < time(xs[i]))) ==>
      && idx[key(xs[i]) := i] == LatestIndex(xs[..i + 1], keep, key, time)
      && m[key(xs[i]) := xs[i]] == LatestOf(xs[..i + 1], keep, key, time)
    ensures !(keep(xs[i]) && (key(xs[i]) !in m || time(m[key(xs[i])]) < time(xs[i]))) ==>
      && idx == LatestIndex(xs[..i + 1], keep, key, time)
      && m == LatestOf(xs[..i + 1], keep, key, time)
  {
    assert xs[..i + 1][..i] == xs[..i];
    assert xs[..i + 1][i] == xs[i];
  }

  /** Only one event can be the first newest for a key, so the scan's choice does not depend on
      how it is computed. */
  lemma FirstNewestUnique<T>(xs: seq<T>, keep: T -> bool, key: T -> string, time: T -> int, k: string, i: int, i': int)
    requires FirstNewest(xs, keep, key, time, k, i) && FirstNewest(xs, keep, key, time, k, i')
    ensures i == i'
  {
  }

  /** Scanning more events never loses a key and never makes its recorded event older:
      merging an update into a review can only replace a reviewer's latest status by a newer one. */
  lemma LatestAppend<T>(xs: seq<T>, ys: seq<T>, keep: T -> bool, key: T -> string, time: T -> int, k: string)
    requires k in LatestIndex(xs, keep, key, time)
    ensures k in LatestIndex(xs + ys, keep, key, time)
    ensures time(xs[LatestIndex(xs, keep, key, time)[k]])
      <= time((xs + ys)[LatestIndex(xs + ys, keep, key, time)[k]])
  {
    LatestIndexSpec(xs, keep, key, time);
    LatestIndexSpec(xs + ys, keep, key, time);
    var i := LatestIndex(xs, keep, key, time)[k];
    assert (xs + ys)[i] == xs[i];
    assert Candidate(xs + ys, keep, key, k, i);
  }

  /** The comment count a review summary ends with: "[k comments] " for several, "[1 comment] "
      for one, nothing for none. */
  function CountText(k: nat): (s: string)
    ensures s == "" <==> k == 0
  {
    if k > 1 then "[" + Itoa(k) + " comments] "
    else if k > 0 then "[1 comment] "
    else ""
  }

  datatype Verdict = Approved | ChangesRequested | Pending

  /** The verdict over each reviewer's latest review, given which reviews approve and which
      request changes. */
  ghost function OverallVerdict<T>(m: map<string, T>, approves: T -> bool, rejects: T -> bool): Verdict {
    if (exists e :: e in m && approves(m[e])) && !(exists e :: e in m && rejects(m[e])) then Approved
    else if exists e :: e in m && rejects(m[e]) then ChangesRequested
    else Pending
  }
}
