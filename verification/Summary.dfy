/** Per-name aggregates: one accumulator object per span name, fed by the writer
    with every End it dequeues. */
module Summary {
  import opened Events
  import opened Histogram
  import opened Ranks

  // ----- what an accumulator has seen -----------------------------------------

  /** 64-bit subtraction, and no negative durations: the time between start and
      end wherever an int64 can hold the difference, and 0 for an end before its
      start; differences out of range wrap. */
  function DurationOf(e: Event): (d: int64)
    requires e.End?
    ensures d >= 0
    ensures 0 <= e.endNS - e.startNS < TWO_63 ==> d == e.endNS - e.startNS
    ensures -TWO_63 <= e.endNS - e.startNS < 0 || e.endNS - e.startNS >= TWO_63 ==> d == 0
    ensures e.endNS - e.startNS < -TWO_63 ==> d == e.endNS - e.startNS + TWO_64
  {
    var d := Wrap64(e.endNS - e.startNS);
    if d < 0 then 0 else d
  }

  ghost predicate AllEnds(es: seq<Event>) {
    forall i :: 0 <= i < |es| ==> es[i].End?
  }

  ghost function Durations(es: seq<Event>): (ds: seq<int64>)
    requires AllEnds(es)
    ensures |ds| == |es| && forall i :: 0 <= i < |es| ==> ds[i] == DurationOf(es[i])
  {
    seq(|es|, i requires 0 <= i < |es| => DurationOf(es[i]))
  }

  /** No difference between end and start leaves int64. */
  ghost predicate InRange(es: seq<Event>) {
    forall i :: 0 <= i < |es| ==> es[i].End? && -TWO_63 <= es[i].endNS - es[i].startNS < TWO_63
  }

  /** How long each span took; an end before its start counts as no time at all. */
  ghost function Lengths(es: seq<Event>): (ls: seq<int64>)
    requires InRange(es)
  {
    seq(|es|, i requires 0 <= i < |es| => if es[i].endNS < es[i].startNS then 0 else es[i].endNS - es[i].startNS)
  }

  lemma DurationsAreLengths(es: seq<Event>)
    requires InRange(es)
    ensures AllEnds(es) && Durations(es) == Lengths(es)
  {
    assert forall i :: 0 <= i < |es| ==> Durations(es)[i] == DurationOf(es[i]) == Lengths(es)[i];
  }

  ghost function Sum(ds: seq<int64>): int {
    if ds == [] then 0 else Sum(ds[..|ds| - 1]) + ds[|ds| - 1]
  }

  ghost function WithStatus(es: seq<Event>, status: Status): nat
    requires AllEnds(es)
  {
    if es == [] then 0
    else WithStatus(es[..|es| - 1], status) + (if es[|es| - 1].status == status then 1 else 0)
  }

  /** low and high are the extreme elements; both 0 when there are none. */
  ghost predicate Extremes(ds: seq<int64>, low: int, high: int) {
    if ds == [] then low == 0 && high == 0
    else low in ds && high in ds && forall i :: 0 <= i < |ds| ==> low <= ds[i] <= high
  }

  lemma WrapAdds(x: int, d: int)
    ensures Wrap64(Wrap64(x) + d) == Wrap64(x + d)
  {
    var w := Wrap64(x);
    var k := (x - w) / TWO_64;
    assert x - w == k * TWO_64;
    assert (x + d + TWO_63) == (w + d + TWO_63) + k * TWO_64;
    ModShift(w + d + TWO_63, k);
  }

  lemma ModShift(a: int, k: int)
    ensures (a + k * TWO_64) % TWO_64 == a % TWO_64
  {
  }

  /** The mean is the exact average, rounded down, precisely as long as the total
      fits in an int64; past that the running total wraps and the mean is wrong. */
  lemma MeanIsExactIffTotalFits(total: nat, count: int)
    requires 0 < count < TWO_63
    ensures Quo(Wrap64(total), count) == total / count <==> total < TWO_63
  {
    if total >= TWO_63 {
      var w := Wrap64(total);
      assert w <= total - TWO_64 by {
        assert (w - total) % TWO_64 == 0;
        assert w != total;
      }
      QuotientAtLeast(total, count, 1);
      if w >= 0 {
        QuotientDrops(w, total, count);
      }
    }
  }

  lemma MulMonotone(x: int, y: int, b: nat)
    requires x <= y
    ensures x * b <= y * b
  {
    assert (y - x) * b >= 0;
  }

  lemma DivTimes(a: nat, b: nat)
    requires b > 0
    ensures a / b * b <= a < (a / b + 1) * b
  {
    assert a == a / b * b + a % b;
  }

  lemma QuotientAtLeast(a: nat, b: nat, q: nat)
    requires b > 0 && a >= q * b
    ensures a / b >= q
  {
    DivTimes(a, b);
    if a / b < q { MulMonotone(a / b + 1, q, b); }
  }

  lemma QuotientAtMost(a: nat, b: nat, q: nat)
    requires b > 0 && a < (q + 1) * b
    ensures a / b <= q
  {
    DivTimes(a, b);
    if a / b > q { MulMonotone(q + 1, a / b, b); }
  }

  lemma QuotientDrops(a: nat, total: nat, b: nat)
    requires b > 0 && a + b <= total
    ensures a / b < total / b
  {
    DivTimes(a, b);
    assert (a / b + 1) * b == a / b * b + b;
    QuotientAtLeast(total, b, a / b + 1);
  }

  /** A mean lies between the extremes. */
  lemma {:induction false} SumBetween(ds: seq<int64>, low: int, high: int)
    requires forall i :: 0 <= i < |ds| ==> low <= ds[i] <= high
    ensures low * |ds| <= Sum(ds) <= high * |ds|
  {
    if ds == [] {
    } else {
      SumBetween(ds[..|ds| - 1], low, high);
      assert low * |ds| == low * (|ds| - 1) + low && high * |ds| == high * (|ds| - 1) + high;
    }
  }

  lemma MeanBetween(ds: seq<int64>, low: int, high: int)
    requires ds != [] && 0 <= low && forall i :: 0 <= i < |ds| ==> low <= ds[i] <= high
    ensures Sum(ds) >= 0 && low <= Sum(ds) / |ds| <= high
  {
    SumBetween(ds, low, high);
    MulMonotone(0, low, |ds|);
    QuotientAtLeast(Sum(ds), |ds|, low);
    MulMonotone(high, high + 1, |ds|);
    assert (high + 1) * |ds| == high * |ds| + |ds|;
    assert low <= high by { assert low <= ds[0] <= high; }
    QuotientAtMost(Sum(ds), |ds|, high);
  }

  // ----- ranks -------------------------------------------------------------------

  /** Nearest rank: the least rank, from 1, that at least num/den of the count do
      not exceed. */
  ghost predicate IsNearestRank(num: nat, den: nat, count: nat, r: nat) {
    r >= 1 && num * count <= den * r && (r > 1 ==> den * (r - 1) < num * count)
  }

  function Rank(num: nat, den: nat, count: nat): (r: nat)
    requires den > 0
    ensures IsNearestRank(num, den, count, r)
  {
    RankIsNearest(num * count, den);
    var r := (num * count + den - 1) / den;
    if r < 1 then 1 else r
  }

  lemma RankIsNearest(n: nat, den: nat)
    requires den > 0
    ensures var r := (n + den - 1) / den; n <= den * r && (r > 1 ==> den * (r - 1) < n) && (r <= 1 ==> n <= den)
  {
    var r := (n + den - 1) / den;
    DivTimes(n + den - 1, den);
    assert den * r == r * den && (r + 1) * den == r * den + den && (r > 1 ==> den * (r - 1) == r * den - den);
    if r <= 1 { MulMonotone(r, 1, den); }
  }

  lemma NearestRankIsUnique(num: nat, den: nat, count: nat, r: nat, q: nat)
    requires den > 0 && IsNearestRank(num, den, count, r) && IsNearestRank(num, den, count, q)
    ensures r == q
  {
    if r < q {
      MulMonotone(r, q - 1, den);
    } else if q < r {
      MulMonotone(q, r - 1, den);
    }
  }

  lemma RankInRange(num: nat, den: nat, count: nat)
    requires 0 < num <= den && count > 0
    ensures 1 <= Rank(num, den, count) <= count
  {
    MulMonotone(num, den, count);
    assert (count + 1) * den == den * count + den;
    QuotientAtMost(num * count + den - 1, den, count);
  }

  lemma RankMonotone(num: nat, num': nat, den: nat, count: nat)
    requires num <= num' && den > 0
    ensures Rank(num, den, count) <= Rank(num', den, count)
  {
    MulMonotone(num, num', count);
    DivMonotone(num * count + den - 1, num' * count + den - 1, den);
  }

  lemma DivMonotone(a: nat, b: nat, d: nat)
    requires d > 0 && a <= b
    ensures a / d <= b / d
  {
    var q := a / d;
    assert q * d <= a by { DivTimes(a, d); }
    QuotientAtLeast(b, d, q);
  }

  /** p is close to the rank-th smallest of ds. */
  ghost predicate ReportsRank(ds: seq<int64>, rank: nat, p: int) {
    forall sorted: seq<int64> ::
      Sorted(sorted) && multiset(sorted) == multiset(ds) && 1 <= rank <= |sorted| ==> Tolerable(p, sorted[rank - 1])
  }

  /** Where a duration belongs in a sorted sequence. */
  lemma PlaceFor(sorted: seq<int64>, d: int64) returns (k: nat)
    requires Sorted(sorted)
    ensures k <= |sorted| && (forall i :: 0 <= i < k ==> sorted[i] <= d) && (k < |sorted| ==> d < sorted[k])
  {
    k := 0;
    while k < |sorted| && sorted[k] <= d
      invariant k <= |sorted| && forall i :: 0 <= i < k ==> sorted[i] <= d
    {
      k := k + 1;
    }
  }

  lemma InsertedIsSorted(sorted: seq<int64>, d: int64, k: nat)
    requires Sorted(sorted) && k <= |sorted|
    requires (forall i :: 0 <= i < k ==> sorted[i] <= d) && (k < |sorted| ==> d < sorted[k])
    ensures Sorted(sorted[..k] + [d] + sorted[k..])
  {
  }

  lemma InsertedIsPresent(rest: seq<int64>, sorted: seq<int64>, d: int64, k: nat)
    requires multiset(sorted) == multiset(rest) && k <= |sorted|
    ensures multiset(sorted[..k] + [d] + sorted[k..]) == multiset(rest + [d])
  {
    assert sorted == sorted[..k] + sorted[k..];
  }

  /** There is such an order for any durations. */
  lemma {:induction false} SortedOrderExists(ds: seq<int64>) returns (sorted: seq<int64>)
    ensures Sorted(sorted) && multiset(sorted) == multiset(ds)
  {
    if ds == [] {
      sorted := [];
    } else {
      hide Sorted;
      var rest, d := ds[..|ds| - 1], ds[|ds| - 1];
      var before := SortedOrderExists(rest);
      var k := PlaceFor(before, d);
      InsertedIsSorted(before, d, k);
      InsertedIsPresent(rest, before, d, k);
      sorted := before[..k] + [d] + before[k..];
      assert rest + [d] == ds;
    }
  }

  lemma ClampedMidpointReports(ds: seq<int64>, rank: nat, i: nat, low: int, high: int)
    requires IsRankBucket(ds, rank, i) && low >= 0 && forall k :: 0 <= k < |ds| ==> low <= ds[k] <= high
    ensures ReportsRank(ds, rank, Clamp(DurationForBucket(i), low, high))
  {
    forall sorted: seq<int64> | Sorted(sorted) && multiset(sorted) == multiset(ds) && 1 <= rank <= |sorted|
      ensures Tolerable(Clamp(DurationForBucket(i), low, high), sorted[rank - 1])
    {
      forall k | 0 <= k < |sorted|
        ensures 0 <= low <= sorted[k] <= high
      {
        assert sorted[k] in multiset(sorted);
        assert sorted[k] in multiset(ds);
      }
      PercentileIsAccurate(ds, sorted, rank, i, low, high);
    }
  }
}
