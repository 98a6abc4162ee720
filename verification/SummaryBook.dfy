/** The accumulator objects behind Summary(), and the writer's bounded book of
    them by span name. */
module SummaryBook {
  import opened Events
  import opened Histogram
  import opened Ranks
  import opened Summary

  const MAX_NAMES := 4096

  datatype SpanSummary = SpanSummary(count: nat, errors: nat, canceled: nat, min: int, max: int,
                                     mean: int, p50: int, p90: int, p99: int)

  /** An accumulator's fields as a value. */
  datatype Figures = Figures(count: nat, errors: nat, canceled: nat, minNanos: int64, maxNanos: int64,
                             totalNanos: int64, cells: seq<nat>)

  /** The fields are what the recorded Ends say they should be. */
  ghost predicate Tells(es: seq<Event>, f: Figures) {
    && AllEnds(es) && f.count == |es|
    && f.errors == WithStatus(es, Error) && f.canceled == WithStatus(es, Canceled)
    && Extremes(Durations(es), f.minNanos, f.maxNanos)
    && f.totalNanos == Wrap64(Sum(Durations(es)))
    && |f.cells| == BUCKETS && Cells(Durations(es), f.cells)
  }

  ghost predicate Cells(ds: seq<int64>, cells: seq<nat>) {
    forall i :: 0 <= i < |cells| ==> cells[i] == CountAt(ds, i)
  }

  ghost function Next(f: Figures, e: Event): Figures
    requires e.End? && |f.cells| == BUCKETS
  {
    var d := DurationOf(e);
    BucketsCoverInt64(d);
    Figures(f.count + 1, if e.status.Error? then f.errors + 1 else f.errors,
            if e.status.Canceled? then f.canceled + 1 else f.canceled,
            if f.count == 0 || d < f.minNanos then d else f.minNanos, if d > f.maxNanos then d else f.maxNanos,
            Wrap64(f.totalNanos + d), f.cells[BucketIndex(d) := f.cells[BucketIndex(d)] + 1])
  }

  lemma DurationsSnoc(es: seq<Event>, e: Event)
    requires AllEnds(es) && e.End?
    ensures AllEnds(es + [e]) && Durations(es + [e]) == Durations(es) + [DurationOf(e)]
  {
  }

  lemma ExtremesNext(ds: seq<int64>, d: int64, low: int, high: int)
    requires Extremes(ds, low, high) && d >= 0
    ensures Extremes(ds + [d], if ds == [] || d < low then d else low, if d > high then d else high)
  {
    var all := ds + [d];
    assert all[|ds|] == d;
    forall i | 0 <= i < |ds|
      ensures all[i] == ds[i] && ds[i] in all
    {
    }
  }

  lemma CellsNext(ds: seq<int64>, d: int64, cells: seq<nat>)
    requires |cells| == BUCKETS && Cells(ds, cells)
    ensures BucketIndex(d) < BUCKETS
    ensures Cells(ds + [d], cells[BucketIndex(d) := cells[BucketIndex(d)] + 1])
  {
    BucketsCoverInt64(d);
    assert (ds + [d])[..|ds|] == ds;
    hide BucketIndex;
  }

  lemma SumsNext(es: seq<Event>, e: Event)
    requires AllEnds(es) && e.End?
    ensures AllEnds(es + [e])
    ensures Wrap64(Sum(Durations(es) + [DurationOf(e)])) == Wrap64(Wrap64(Sum(Durations(es))) + DurationOf(e))
    ensures forall st :: WithStatus(es + [e], st) == WithStatus(es, st) + (if e.status == st then 1 else 0)
  {
    var ds, d := Durations(es), DurationOf(e);
    assert (ds + [d])[..|ds|] == ds && (es + [e])[..|es|] == es;
    WrapAdds(Sum(ds), d);
  }

  /** Updating the fields keeps them telling the truth. */
  lemma NextTells(es: seq<Event>, f: Figures, e: Event)
    requires Tells(es, f) && e.End?
    ensures Tells(es + [e], Next(f, e))
  {
    hide BucketIndex, Wrap64, Sum, WithStatus, Extremes, Cells, DurationOf;
    DurationsSnoc(es, e);
    SumsNext(es, e);
    ExtremesNext(Durations(es), DurationOf(e), f.minNanos, f.maxNanos);
    CellsNext(Durations(es), DurationOf(e), f.cells);
  }

  class Accumulator {
    var count: nat
    var errors: nat
    var canceled: nat
    var minNanos: int64
    var maxNanos: int64
    var totalNanos: int64
    const histogram: array<nat>
    ghost var seen: seq<Event>  // the Ends recorded, oldest first

    ghost function Now(): Figures
      reads this, histogram
    {
      Figures(count, errors, canceled, minNanos, maxNanos, totalNanos, histogram[..])
    }

    ghost predicate Valid()
      reads this, histogram
    {
      histogram.Length == BUCKETS && Tells(seen, Now())
    }

    constructor ()
      ensures Valid() && fresh(histogram) && seen == []
    {
      count, errors, canceled := 0, 0, 0;
      minNanos, maxNanos, totalNanos := 0, 0, 0;
      histogram := new nat[BUCKETS](_ => 0);
      seen := [];
      new;
      assert Wrap64(0) == 0;
    }

    method Record(event: Event)
      requires Valid() && event.End?
      modifies this, histogram
      ensures Valid() && seen == old(seen) + [event]
    {
      hide Tells, Next;
      NextTells(seen, Now(), event);
      AddFigures(event);
      seen := seen + [event];
    }

    method AddFigures(event: Event)
      requires event.End? && histogram.Length == BUCKETS
      modifies this, histogram
      ensures Now() == Next(old(Now()), event) && seen == old(seen)
    {
      hide BucketIndex, DurationOf, Wrap64;
      var durationNanos := DurationOf(event);
      BucketsCoverInt64(durationNanos);
      Widen(durationNanos);
      count := count + 1;
      totalNanos := Wrap64(totalNanos + durationNanos);
      CountBucket(BucketIndex(durationNanos));
      CountStatus(event.status);
    }

    method CountBucket(index: nat)
      requires index < histogram.Length
      modifies histogram
      ensures histogram[..] == old(histogram[..][index := histogram[index] + 1])
    {
      histogram[index] := histogram[index] + 1;
    }

    method Widen(durationNanos: int64)
      modifies this`minNanos, this`maxNanos
      ensures minNanos == if count == 0 || durationNanos < old(minNanos) then durationNanos else old(minNanos)
      ensures maxNanos == if durationNanos > old(maxNanos) then durationNanos else old(maxNanos)
    {
      if count == 0 || durationNanos < minNanos {
        minNanos := durationNanos;
      }
      if durationNanos > maxNanos {
        maxNanos := durationNanos;
      }
    }

    method CountStatus(status: Status)
      modifies this`errors, this`canceled
      ensures errors == old(errors) + (if status.Error? then 1 else 0)
      ensures canceled == old(canceled) + (if status.Canceled? then 1 else 0)
    {
      match status {
        case Error => errors := errors + 1;
        case Canceled => canceled := canceled + 1;
        case OK =>
      }
    }

    method Percentile(num: nat, den: nat) returns (p: int)
      requires Valid() && 0 < num <= den
      ensures count > 0 ==> Walked(Durations(seen), Rank(num, den, count), p)
      ensures count > 0 ==> forall r: nat :: IsNearestRank(num, den, count, r) ==> Walked(Durations(seen), r, p)
      ensures count == 0 ==> p == maxNanos
    {
      p := Walk(Rank(num, den, count));
      if count > 0 { RankInRange(num, den, count); }
      forall r: nat | IsNearestRank(num, den, count, r)
        ensures r == Rank(num, den, count)
      {
        NearestRankIsUnique(num, den, count, r, Rank(num, den, count));
      }
    }

    /** Stops in the bucket of the rank for every rank there is; the fallback behind
        the loop is for ranks beyond the count and for nothing else. */
    method Walk(targetRank: nat) returns (p: int)
      requires Valid() && targetRank >= 1
      ensures targetRank <= count ==> Walked(Durations(seen), targetRank, p)
      ensures targetRank > count ==> p == maxNanos
    {
      var cumulative := 0;
      ghost var ds := Durations(seen);
      UpToAddsUp(ds, -1);
      for index := 0 to BUCKETS
        invariant cumulative == UpTo(ds, index - 1) < targetRank
      {
        UpToAddsUp(ds, index);
        cumulative := cumulative + histogram[index];
        if cumulative >= targetRank {
          p := DurationForBucket(index);
          assert IsRankBucket(ds, targetRank, index);
          return;
        }
      }
      UpToAddsUp(ds, BUCKETS - 1);
      p := maxNanos;
    }

    /** Exact counts and extremes; a mean exact while the total fits; percentiles
        in order, inside the extremes and close to the exact ones. */
    method Snapshot() returns (s: SpanSummary)
      requires Valid() && count < TWO_63
      ensures s.count == |seen| && s.errors == WithStatus(seen, Error) && s.canceled == WithStatus(seen, Canceled)
      ensures Describes(Durations(seen), s)
      ensures InRange(seen) ==> Describes(Lengths(seen), s)
    {
      hide Sum, WithStatus, Walked, Describes, IsNearestRank, Clamp, Quo, Wrap64, Rank, Cells, DurationOf, InRange;
      s := SpanSummary(count, errors, canceled, minNanos, maxNanos, 0, 0, 0, 0);
      if count > 0 {
        var mean := Quo(totalNanos, count);
        var raw50 := Percentile(50, 100);
        var raw90 := Percentile(90, 100);
        var raw99 := Percentile(99, 100);
        s := s.(mean := mean, p50 := Clamp(raw50, minNanos, maxNanos),
                p90 := Clamp(raw90, minNanos, maxNanos), p99 := Clamp(raw99, minNanos, maxNanos));
        SnapshotDescribes(Durations(seen), minNanos, maxNanos, raw50, raw90, raw99, s);
      } else {
        NothingToDescribe(Durations(seen), s);
      }
      if InRange(seen) { DurationsAreLengths(seen); }
    }
  }

  /** What a summary says about the durations behind it: the exact extremes; a mean
      exact if and only if the total fits in an int64; percentiles in order, inside
      the extremes, each within an eighth of the exact nearest-rank value. */
  ghost predicate Describes(ds: seq<int64>, s: SpanSummary) {
    && Extremes(ds, s.min, s.max)
    && (ds != [] ==>
        && (s.mean == Sum(ds) / |ds| <==> Sum(ds) < TWO_63)
        && (Sum(ds) < TWO_63 ==> s.min <= s.mean <= s.max)
        && s.min <= s.p50 <= s.p90 <= s.p99 <= s.max
        && (forall r: nat :: r >= 1 && 100 * (r - 1) < 50 * |ds| <= 100 * r ==> ReportsRank(ds, r, s.p50))
        && (forall r: nat :: r >= 1 && 100 * (r - 1) < 90 * |ds| <= 100 * r ==> ReportsRank(ds, r, s.p90))
        && (forall r: nat :: r >= 1 && 100 * (r - 1) < 99 * |ds| <= 100 * r ==> ReportsRank(ds, r, s.p99)))
  }

  lemma SnapshotDescribes(ds: seq<int64>, low: int64, high: int64, a: int, b: int, c: int, s: SpanSummary)
    requires ds != [] && |ds| < TWO_63 && Extremes(ds, low, high) && low >= 0
    requires Walked(ds, Rank(50, 100, |ds|), a) && Walked(ds, Rank(90, 100, |ds|), b)
    requires Walked(ds, Rank(99, 100, |ds|), c)
    requires s.min == low && s.max == high && s.mean == Quo(Wrap64(Sum(ds)), |ds|)
    requires s.p50 == Clamp(a, low, high) && s.p90 == Clamp(b, low, high) && s.p99 == Clamp(c, low, high)
    ensures Describes(ds, s)
  {
    hide Walked, ReportsRank, Rank, Clamp, Sum, Quo, Wrap64;
    MeanBetween(ds, low, high);
    MeanIsExactIffTotalFits(Sum(ds), |ds|);
    MeanInside(ds, low, high, s.mean);
    PercentilesInOrder(ds, a, b, c, low, high);
    NearestRanks(ds, s);
  }

  lemma NothingToDescribe(ds: seq<int64>, s: SpanSummary)
    requires ds == [] && Extremes(ds, s.min, s.max)
    ensures Describes(ds, s)
  {
  }

  lemma MeanInside(ds: seq<int64>, low: int, high: int, mean: int)
    requires ds != [] && low <= Sum(ds) / |ds| <= high && (mean == Sum(ds) / |ds| <==> Sum(ds) < TWO_63)
    ensures Sum(ds) < TWO_63 ==> low <= mean <= high
  {
  }

  lemma NearestRanks(ds: seq<int64>, s: SpanSummary)
    requires ds != []
    requires ReportsRank(ds, Rank(50, 100, |ds|), s.p50) && ReportsRank(ds, Rank(90, 100, |ds|), s.p90)
    requires ReportsRank(ds, Rank(99, 100, |ds|), s.p99)
    ensures forall r: nat :: r >= 1 && 100 * (r - 1) < 50 * |ds| <= 100 * r ==> ReportsRank(ds, r, s.p50)
    ensures forall r: nat :: r >= 1 && 100 * (r - 1) < 90 * |ds| <= 100 * r ==> ReportsRank(ds, r, s.p90)
    ensures forall r: nat :: r >= 1 && 100 * (r - 1) < 99 * |ds| <= 100 * r ==> ReportsRank(ds, r, s.p99)
  {
    hide ReportsRank, Rank;
    var n := |ds|;
    forall r: nat | r >= 1 && 100 * (r - 1) < 50 * n <= 100 * r
      ensures r == Rank(50, 100, n)
    {
      OneInAHundred(50 * n, r, Rank(50, 100, n));
    }
    forall r: nat | r >= 1 && 100 * (r - 1) < 90 * n <= 100 * r
      ensures r == Rank(90, 100, n)
    {
      OneInAHundred(90 * n, r, Rank(90, 100, n));
    }
    forall r: nat | r >= 1 && 100 * (r - 1) < 99 * n <= 100 * r
      ensures r == Rank(99, 100, n)
    {
      OneInAHundred(99 * n, r, Rank(99, 100, n));
    }
  }

  lemma OneInAHundred(n: nat, r: nat, q: nat)
    requires r >= 1 && 100 * (r - 1) < n <= 100 * r
    requires q >= 1 && n <= 100 * q && (q > 1 ==> 100 * (q - 1) < n)
    ensures r == q
  {
  }

  /** A number the walk can return for a rank. */
  ghost predicate Walked(ds: seq<int64>, rank: nat, p: int) {
    exists i :: IsRankBucket(ds, rank, i) && p == DurationForBucket(i)
  }

  lemma PercentilesInOrder(ds: seq<int64>, a: int, b: int, c: int, low: int, high: int)
    requires ds != [] && 0 <= low && forall i :: 0 <= i < |ds| ==> low <= ds[i] <= high
    requires Walked(ds, Rank(50, 100, |ds|), a) && Walked(ds, Rank(90, 100, |ds|), b)
    requires Walked(ds, Rank(99, 100, |ds|), c)
    ensures low <= Clamp(a, low, high) <= Clamp(b, low, high) <= Clamp(c, low, high) <= high
    ensures ReportsRank(ds, Rank(50, 100, |ds|), Clamp(a, low, high))
    ensures ReportsRank(ds, Rank(90, 100, |ds|), Clamp(b, low, high))
    ensures ReportsRank(ds, Rank(99, 100, |ds|), Clamp(c, low, high))
  {
    hide DurationForBucket, ReportsRank, Rank;
    var r50, r90, r99 := Rank(50, 100, |ds|), Rank(90, 100, |ds|), Rank(99, 100, |ds|);
    var i :| IsRankBucket(ds, r50, i) && a == DurationForBucket(i);
    var j :| IsRankBucket(ds, r90, j) && b == DurationForBucket(j);
    var k :| IsRankBucket(ds, r99, k) && c == DurationForBucket(k);
    ClampedMidpointReports(ds, r50, i, low, high);
    ClampedMidpointReports(ds, r90, j, low, high);
    ClampedMidpointReports(ds, r99, k, low, high);
    RankMonotone(50, 90, 100, |ds|);
    RankMonotone(90, 99, 100, |ds|);
    RankBucketMonotone(ds, r50, i, r90, j);
    RankBucketMonotone(ds, r90, j, r99, k);
    MidpointMonotone(i, j);
    MidpointMonotone(j, k);
    assert low <= high by { assert low <= ds[0] <= high; }
  }

  // ----- the book ----------------------------------------------------------------

  /** The book as a value: per tracked name every End recorded under it. */
  datatype Ledger = Ledger(logs: map<string, seq<Event>>, dropped: nat)

  const BLANK := Ledger(map[], 0)

  function Enter(b: Ledger, e: Event): Ledger {
    if !e.End? then b
    else if e.name in b.logs then b.(logs := b.logs[e.name := b.logs[e.name] + [e]])
    else if |b.logs| >= MAX_NAMES then b.(dropped := b.dropped + 1)
    else b.(logs := b.logs[e.name := [e]])
  }

  function EnterAll(b: Ledger, es: seq<Event>): Ledger {
    if es == [] then b else Enter(EnterAll(b, es[..|es| - 1]), es[|es| - 1])
  }

  /** Cutting the stream into batches makes no difference. */
  lemma {:induction false} EnterAllConcat(b: Ledger, x: seq<Event>, y: seq<Event>)
    ensures EnterAll(b, x + y) == EnterAll(EnterAll(b, x), y)
  {
    if y == [] {
      assert x + y == x;
    } else {
      assert (x + y)[..|x + y| - 1] == x + y[..|y| - 1];
      EnterAllConcat(b, x, y[..|y| - 1]);
    }
  }

  function EndsOf(es: seq<Event>, name: string): seq<Event> {
    if es == [] then []
    else
      var before, e := EndsOf(es[..|es| - 1], name), es[|es| - 1];
      if e.End? && e.name == name then before + [e] else before
  }

  function CountEnds(es: seq<Event>): nat {
    if es == [] then 0 else CountEnds(es[..|es| - 1]) + (if es[|es| - 1].End? then 1 else 0)
  }

  ghost function Total(logs: map<string, seq<Event>>): nat
    decreases |logs|
  {
    if logs == map[] then 0
    else
      var k :| k in logs;
      |logs[k]| + Total(logs - {k})
  }

  lemma {:induction false} TotalTakesOut(logs: map<string, seq<Event>>, k: string)
    requires k in logs
    ensures Total(logs) == |logs[k]| + Total(logs - {k})
    decreases |logs|
  {
    var j :| j in logs && Total(logs) == |logs[j]| + Total(logs - {j});
    if j != k {
      TotalTakesOut(logs - {j}, k);
      TotalTakesOut(logs - {k}, j);
      assert logs - {j} - {k} == logs - {k} - {j};
    }
  }

  lemma TotalPuts(logs: map<string, seq<Event>>, k: string, log: seq<Event>)
    ensures Total(logs[k := log]) == Total(logs) + |log| - (if k in logs then |logs[k]| else 0)
  {
    var put := logs[k := log];
    TotalTakesOut(put, k);
    assert put - {k} == logs - {k};
    if k in logs { TotalTakesOut(logs, k); } else { assert logs - {k} == logs; }
  }

  /** All or nothing per name, and nothing uncounted: at most 4096 names; a
      tracked name has every End ever seen under it, an untracked one has none
      aggregated; and the counts plus the dropped counter make up every End. */
  ghost predicate AllOrNothing(b: Ledger, es: seq<Event>) {
    && |b.logs| <= 4096
    && (forall n :: n in b.logs ==> b.logs[n] == EndsOf(es, n) != [])
    && (|b.logs| < 4096 ==> forall n :: n !in b.logs ==> EndsOf(es, n) == [])
    && Total(b.logs) + b.dropped == CountEnds(es)
  }

  lemma {:induction false} LedgerIsAllOrNothing(es: seq<Event>)
    ensures AllOrNothing(EnterAll(BLANK, es), es)
  {
    if es == [] {
    } else {
      hide AllOrNothing, Enter;
      var rest, e := es[..|es| - 1], es[|es| - 1];
      LedgerIsAllOrNothing(rest);
      EnterIsAllOrNothing(rest, e, EnterAll(BLANK, rest));
      assert rest + [e] == es;
    }
  }

  lemma EnterIsAllOrNothing(rest: seq<Event>, e: Event, b: Ledger)
    requires AllOrNothing(b, rest)
    ensures AllOrNothing(Enter(b, e), rest + [e])
  {
    hide EndsOf, CountEnds, Total;
    EndsMore(rest, e);
    if e.End? {
      if e.name in b.logs {
        TotalPuts(b.logs, e.name, b.logs[e.name] + [e]);
      } else if |b.logs| < MAX_NAMES {
        assert EndsOf(rest, e.name) == [];
        TotalPuts(b.logs, e.name, [e]);
      }
    }
  }

  lemma EndsMore(rest: seq<Event>, e: Event)
    ensures CountEnds(rest + [e]) == CountEnds(rest) + (if e.End? then 1 else 0)
    ensures forall n :: EndsOf(rest + [e], n) == EndsOf(rest, n) + (if e.End? && e.name == n then [e] else [])
  {
    assert (rest + [e])[..|rest|] == rest;
  }

  method FirstRecord(event: Event) returns (accumulator: Accumulator)
    requires event.End?
    ensures fresh(accumulator) && fresh(accumulator.histogram)
    ensures accumulator.Valid() && accumulator.seen == [event]
  {
    accumulator := new Accumulator();
    accumulator.Record(event);
  }

  /** The accumulators and their histograms are objects of their own, all in repr. */
  ghost predicate Apart(summaries: map<string, Accumulator>, repr: set<object>) {
    && (forall n :: n in summaries ==> summaries[n] in repr && summaries[n].histogram in repr)
    && (forall n, m :: n in summaries && m in summaries && n != m ==>
          summaries[n] != summaries[m] && summaries[n].histogram != summaries[m].histogram)
  }

  /** Each accumulator is valid and has seen exactly its name's log. */
  ghost predicate Kept(summaries: map<string, Accumulator>, repr: set<object>, logs: map<string, seq<Event>>)
    requires Apart(summaries, repr)
    reads repr
  {
    && summaries.Keys == logs.Keys
    && forall n :: n in summaries ==> summaries[n].Valid() && summaries[n].seen == logs[n]
  }

  lemma OneMoreApart(summaries: map<string, Accumulator>, repr: set<object>, name: string, accumulator: Accumulator)
    requires Apart(summaries, repr) && {accumulator, accumulator.histogram} !! repr
    ensures Apart(summaries[name := accumulator], repr + {accumulator, accumulator.histogram})
  {
  }

  lemma OneMoreKept(summaries: map<string, Accumulator>, repr: set<object>, logs: map<string, seq<Event>>,
                    name: string, accumulator: Accumulator)
    requires Apart(summaries, repr) && Kept(summaries, repr, logs) && accumulator.Valid()
    requires Apart(summaries[name := accumulator], repr + {accumulator, accumulator.histogram})
    ensures Kept(summaries[name := accumulator], repr + {accumulator, accumulator.histogram},
                 logs[name := accumulator.seen])
  {
    hide Apart, Accumulator.Valid;
  }

  class Book {
    var summaries: map<string, Accumulator>
    var summaryDropped: nat
    ghost var ledger: Ledger
    ghost var Repr: set<object>

    ghost predicate Valid()
      reads this, Repr
    {
      && this !in Repr && summaryDropped == ledger.dropped
      && Apart(summaries, Repr) && Kept(summaries, Repr, ledger.logs)
    }

    constructor ()
      ensures Valid() && fresh(Repr) && ledger == BLANK
    {
      summaries, summaryDropped := map[], 0;
      ledger, Repr := BLANK, {};
    }

    method RecordCompletedSpans(batch: seq<Event>)
      requires Valid()
      modifies this, Repr
      ensures Valid() && fresh(Repr - old(Repr))
      ensures ledger == EnterAll(old(ledger), batch)
    {
      var hasEndEvent := false;
      var index := 0;
      while index < |batch| && !hasEndEvent
        invariant index <= |batch|
        invariant !hasEndEvent ==> forall i :: 0 <= i < index ==> !batch[i].End?
        decreases |batch| - index, !hasEndEvent
      {
        if batch[index].End? { hasEndEvent := true; } else { index := index + 1; }
      }
      if !hasEndEvent {
        NoEndsNoChange(ledger, batch);
        return;
      }
      for i := 0 to |batch|
        invariant Valid() && fresh(Repr - old(Repr))
        invariant ledger == EnterAll(old(ledger), batch[..i])
      {
        assert batch[..i + 1][..i] == batch[..i];
        if batch[i].End? { RecordOne(batch[i]); }
      }
      assert batch[..|batch|] == batch;
    }

    method RecordOne(event: Event)
      requires Valid() && event.End?
      modifies this, Repr
      ensures Valid() && fresh(Repr - old(Repr))
      ensures ledger == Enter(old(ledger), event)
    {
      hide Accumulator.Valid;
      if event.name in summaries {
        RecordKnown(event);
      } else if |summaries| >= MAX_NAMES {
        SameSize();
        summaryDropped := summaryDropped + 1;
        ledger := ledger.(dropped := ledger.dropped + 1);
      } else {
        RecordNew(event);
      }
    }

    method RecordKnown(event: Event)
      requires Valid() && event.End? && event.name in summaries
      modifies this, Repr
      ensures Valid() && Repr == old(Repr)
      ensures ledger == Enter(old(ledger), event)
    {
      hide Accumulator.Valid;
      var name := event.name;
      summaries[name].Record(event);
      ledger := ledger.(logs := ledger.logs[name := ledger.logs[name] + [event]]);
    }

    method RecordNew(event: Event)
      requires Valid() && event.End? && event.name !in summaries && |summaries| < MAX_NAMES
      modifies this
      ensures Valid() && fresh(Repr - old(Repr))
      ensures ledger == Enter(old(ledger), event)
    {
      hide Valid, Accumulator.Valid;
      SameSize();
      assert |ledger.logs| < MAX_NAMES && event.name !in ledger.logs;
      var accumulator := FirstRecord(event);
      assert accumulator !in Repr && accumulator.histogram !in Repr;
      Adopt(event.name, accumulator);
    }

    /** A fresh accumulator joins the book. */
    method Adopt(name: string, accumulator: Accumulator)
      requires Valid() && name !in summaries && accumulator.Valid()
      requires {accumulator, accumulator.histogram} !! Repr && accumulator.histogram as object != this
      modifies this`summaries, this`ledger, this`Repr
      ensures Valid() && Repr == old(Repr) + {accumulator, accumulator.histogram}
      ensures ledger == old(ledger).(logs := old(ledger).logs[name := accumulator.seen])
    {
      hide Accumulator.Valid, Apart, Kept;
      ghost var repr, logs := Repr + {accumulator, accumulator.histogram}, ledger.logs[name := accumulator.seen];
      var adopted := summaries[name := accumulator];
      OneMoreApart(summaries, Repr, name, accumulator);
      OneMoreKept(summaries, Repr, ledger.logs, name, accumulator);
      assert this !in repr;
      summaries, Repr, ledger := adopted, repr, ledger.(logs := logs);
    }

    lemma SameSize()
      requires Valid()
      ensures |summaries| == |ledger.logs| && summaries.Keys == ledger.logs.Keys
    {
      hide Accumulator.Valid;
      assert |summaries| == |summaries.Keys| && |ledger.logs| == |ledger.logs.Keys|;
    }
  }

  lemma {:induction false} NoEndsNoChange(b: Ledger, es: seq<Event>)
    requires forall i :: 0 <= i < |es| ==> !es[i].End?
    ensures EnterAll(b, es) == b
  {
    if es == [] {
    } else {
      NoEndsNoChange(b, es[..|es| - 1]);
    }
  }
}
