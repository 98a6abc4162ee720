/** Ranks and percentiles: counting durations bucket by bucket finds the bucket
    of the exact nearest-rank value, whatever order the durations came in. */
module Ranks {
  import opened Events
  import opened Histogram

  /** How many durations fall in bucket i. */
  function CountAt(ds: seq<int64>, i: int): nat {
    if ds == [] then 0
    else CountAt(ds[..|ds| - 1], i) + (if BucketIndex(ds[|ds| - 1]) == i then 1 else 0)
  }

  /** How many fall in buckets up to i. */
  function UpTo(ds: seq<int64>, i: int): nat {
    if ds == [] then 0
    else UpTo(ds[..|ds| - 1], i) + (if BucketIndex(ds[|ds| - 1]) <= i then 1 else 0)
  }

  lemma {:induction false} UpToAddsUp(ds: seq<int64>, i: int)
    ensures UpTo(ds, i) == UpTo(ds, i - 1) + CountAt(ds, i)
    ensures i < 0 ==> UpTo(ds, i) == 0
    ensures i >= BUCKETS - 1 ==> UpTo(ds, i) == |ds|
    ensures UpTo(ds, i) <= |ds|
  {
    hide BucketIndex;
    if ds == [] {
    } else {
      UpToAddsUp(ds[..|ds| - 1], i);
      BucketsCoverInt64(ds[|ds| - 1]);
    }
  }

  lemma {:induction false} UpToGrows(ds: seq<int64>, i: int, j: int)
    requires i <= j
    ensures UpTo(ds, i) <= UpTo(ds, j)
  {
    if ds == [] {
    } else {
      UpToGrows(ds[..|ds| - 1], i, j);
    }
  }

  lemma {:induction false} UpToConcat(a: seq<int64>, b: seq<int64>, i: int)
    ensures UpTo(a + b, i) == UpTo(a, i) + UpTo(b, i)
  {
    if b == [] {
      assert a + b == a;
    } else {
      assert (a + b)[..|a + b| - 1] == a + b[..|b| - 1];
      UpToConcat(a, b[..|b| - 1], i);
    }
  }

  lemma DropOne(rest: seq<int64>, before: seq<int64>, after: seq<int64>, d: int64)
    requires multiset(rest + [d]) == multiset(before + [d] + after)
    ensures multiset(rest) == multiset(before + after)
  {
    assert multiset(rest) == multiset(rest + [d]) - multiset{d};
    assert multiset(before + after) == multiset(before + [d] + after) - multiset{d};
  }

  /** Counting does not see order. */
  lemma {:induction false} UpToIgnoresOrder(a: seq<int64>, b: seq<int64>, i: int)
    requires multiset(a) == multiset(b)
    ensures UpTo(a, i) == UpTo(b, i)
    decreases |a|
  {
    if a == [] {
      assert |multiset(b)| == 0;
    } else {
      var rest, d := a[..|a| - 1], a[|a| - 1];
      assert a == rest + [d];
      assert d in multiset(b);
      var k :| 0 <= k < |b| && b[k] == d;
      var before, after := b[..k], b[k + 1..];
      assert b == before + [d] + after;
      DropOne(rest, before, after, d);
      UpToIgnoresOrder(rest, before + after, i);
      UpToConcat(before, after, i);
      UpToConcat(before + [d], after, i);
      UpToConcat(before, [d], i);
      UpToConcat(rest, [d], i);
    }
  }

  ghost predicate Sorted(ds: seq<int64>) {
    forall i, j :: 0 <= i < j < |ds| ==> ds[i] <= ds[j]
  }

  /** The first bucket at which the running count reaches the rank. */
  predicate IsRankBucket(ds: seq<int64>, rank: nat, i: nat) {
    i < BUCKETS && UpTo(ds, i as int - 1) < rank <= UpTo(ds, i)
  }

  lemma RankBucketMonotone(ds: seq<int64>, r: nat, i: nat, q: nat, j: nat)
    requires IsRankBucket(ds, r, i) && IsRankBucket(ds, q, j) && r <= q
    ensures i <= j
  {
    if j < i { UpToGrows(ds, j, i as int - 1); }
  }

  lemma {:induction false} AllUpTo(ds: seq<int64>, i: int)
    requires forall k :: 0 <= k < |ds| ==> BucketIndex(ds[k]) <= i
    ensures UpTo(ds, i) == |ds|
  {
    if ds == [] {
    } else {
      AllUpTo(ds[..|ds| - 1], i);
    }
  }

  lemma {:induction false} NoneUpTo(ds: seq<int64>, i: int)
    requires forall k :: 0 <= k < |ds| ==> BucketIndex(ds[k]) > i
    ensures UpTo(ds, i) == 0
  {
    if ds == [] {
    } else {
      NoneUpTo(ds[..|ds| - 1], i);
    }
  }

  lemma RankReached(sorted: seq<int64>, rank: nat)
    requires Sorted(sorted) && 1 <= rank <= |sorted|
    ensures UpTo(sorted, BucketIndex(sorted[rank - 1])) >= rank
  {
    hide BucketIndex;
    var b: int, low := BucketIndex(sorted[rank - 1]), sorted[..rank];
    forall k | 0 <= k < |low|
      ensures BucketIndex(low[k]) <= b
    {
      IndexMonotone(low[k], sorted[rank - 1]);
    }
    AllUpTo(low, b);
    assert sorted == low + sorted[rank..];
    UpToConcat(low, sorted[rank..], b);
  }

  lemma RankNotBefore(sorted: seq<int64>, rank: nat)
    requires Sorted(sorted) && 1 <= rank <= |sorted|
    ensures UpTo(sorted, BucketIndex(sorted[rank - 1]) as int - 1) < rank
  {
    hide BucketIndex, UpTo;
    var b: int, before, high := BucketIndex(sorted[rank - 1]), sorted[..rank - 1], sorted[rank - 1..];
    forall k | 0 <= k < |high|
      ensures BucketIndex(high[k]) > b - 1
    {
      IndexMonotone(sorted[rank - 1], high[k]);
    }
    hide Sorted;
    NoneUpTo(high, b - 1);
    assert sorted == before + high;
    UpToConcat(before, high, b - 1);
    UpToAddsUp(before, b - 1);
  }

  /** The walk over the histogram stops in the bucket of the nearest-rank value:
      the rank-th smallest duration. */
  lemma RankBucketHoldsTheRank(ds: seq<int64>, sorted: seq<int64>, rank: nat, i: nat)
    requires Sorted(sorted) && multiset(sorted) == multiset(ds) && 1 <= rank <= |sorted|
    ensures IsRankBucket(ds, rank, i) <==> i == BucketIndex(sorted[rank - 1])
  {
    hide BucketIndex, UpTo;
    var b: int := BucketIndex(sorted[rank - 1]);
    RankReached(sorted, rank);
    RankNotBefore(sorted, rank);
    UpToIgnoresOrder(sorted, ds, b);
    UpToIgnoresOrder(sorted, ds, b - 1);
    BucketsCoverInt64(sorted[rank - 1]);
    assert IsRankBucket(ds, rank, b);
    if IsRankBucket(ds, rank, i) {
      RankBucketMonotone(ds, rank, i, rank, b);
      RankBucketMonotone(ds, rank, b, rank, i);
    }
  }

  function Clamp(value: int, low: int, high: int): int {
    if value < low then low else if value > high then high else value
  }

  /** The tolerance the summary promises: an eighth, or 1 ns where that is nothing. */
  ghost predicate Tolerable(reported: int, exact: int) {
    if exact >= 1 then 8 * Abs(reported - exact) <= exact else Abs(reported - exact) <= 1
  }

  /** End to end: the reported percentile is within an eighth of the exact
      nearest-rank value (within 1 ns of a zero one), for every rank of every
      nonempty set of recorded durations. */
  lemma PercentileIsAccurate(ds: seq<int64>, sorted: seq<int64>, rank: nat, i: nat, low: int, high: int)
    requires Sorted(sorted) && multiset(sorted) == multiset(ds) && 1 <= rank <= |sorted|
    requires forall k :: 0 <= k < |sorted| ==> 0 <= low <= sorted[k] <= high
    requires IsRankBucket(ds, rank, i)
    ensures Tolerable(Clamp(DurationForBucket(i), low, high), sorted[rank - 1])
  {
    RankBucketHoldsTheRank(ds, sorted, rank, i);
    var exact := sorted[rank - 1];
    if exact >= 1 { MidpointIsClose(exact); }
  }
}
