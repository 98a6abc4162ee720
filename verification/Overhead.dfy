/** The rolling average behind Stats().OverheadPerSpan: an integer moving average
    with weight 1/8, updated by a load and a store that other threads may come
    between. */
module Overhead {
  import opened Events

  function Fold(average: int64, nanos: int64): int64 {
    if average == 0 then nanos else Wrap64(average + Quo(Wrap64(nanos - average), 8))
  }

  class Gauge {
    var overheadNS: int64

    constructor ()
      ensures overheadNS == 0
    {
      overheadNS := 0;
    }

    /** The first sample is taken as it is. After that a sample moves the average
        toward it, never past it, by an eighth of the distance rounded down. */
    method RecordOverhead(nanos: int64)
      modifies this
      ensures overheadNS == Fold(old(overheadNS), nanos)
      ensures old(overheadNS) == 0 ==> overheadNS == nanos
      ensures old(overheadNS) > 0 && nanos >= 0 ==>
        && (if old(overheadNS) <= nanos then old(overheadNS) <= overheadNS <= nanos
            else nanos <= overheadNS <= old(overheadNS))
        && 8 * Abs(overheadNS - old(overheadNS)) <= Abs(nanos - old(overheadNS))
        && Abs(nanos - old(overheadNS)) < 8 * Abs(overheadNS - old(overheadNS)) + 8
    {
      var average := overheadNS;
      if average == 0 {
        overheadNS := nanos;
        return;
      }
      overheadNS := Wrap64(average + Quo(Wrap64(nanos - average), 8));
    }
  }

  // ----- one caller at a time ------------------------------------------------------

  /** A sample moves the average toward it without passing it, by an eighth of the
      distance rounded down: nothing at all once the distance is below 8, and
      nothing overflows. */
  lemma FoldMovesToward(average: int64, nanos: int64)
    requires average > 0 && nanos >= 0
    ensures var after := Fold(average, nanos);
            && 0 < after && (if average <= nanos then average <= after <= nanos else nanos <= after <= average)
            && (after == average <==> Abs(nanos - average) < 8)
            && 8 * Abs(nanos - after) <= 7 * Abs(nanos - average) + 7
            && 8 * Abs(after - average) <= Abs(nanos - average)
  {
  }

  /** The average after n more samples of the same size. */
  function FoldMany(average: int64, nanos: int64, n: nat): int64 {
    if n == 0 then average else Fold(FoldMany(average, nanos, n - 1), nanos)
  }

  lemma {:induction false} FoldManyFirst(average: int64, nanos: int64, n: nat)
    ensures FoldMany(average, nanos, n + 1) == FoldMany(Fold(average, nanos), nanos, n)
  {
    hide Fold;
    if n == 0 {
    } else {
      FoldManyFirst(average, nanos, n - 1);
    }
  }

  lemma {:induction false} StaysPut(average: int64, nanos: int64, m: nat)
    requires Fold(average, nanos) == average
    ensures FoldMany(average, nanos, m) == average
  {
    hide Fold;
    if m == 0 {
    } else {
      StaysPut(average, nanos, m - 1);
    }
  }

  /** A constant sample brings the average within 8 of it in at most as many
      samples as the distance, never passing it, and there it stays put. */
  lemma {:induction false} ConstantSampleConverges(average: int64, nanos: int64) returns (n: nat)
    requires average > 0 && nanos >= 0
    ensures n <= Abs(nanos - average) && Abs(nanos - FoldMany(average, nanos, n)) < 8
    ensures if average <= nanos then average <= FoldMany(average, nanos, n) <= nanos
            else nanos <= FoldMany(average, nanos, n) <= average
    ensures forall m: nat :: m >= n ==> FoldMany(average, nanos, m) == FoldMany(average, nanos, n)
    decreases Abs(nanos - average)
  {
    hide Fold;
    FoldMovesToward(average, nanos);
    if Abs(nanos - average) < 8 {
      n := 0;
      forall m: nat | m >= n
        ensures FoldMany(average, nanos, m) == average
      {
        StaysPut(average, nanos, m);
      }
    } else {
      hide FoldMany;
      var after := Fold(average, nanos);
      var k := ConstantSampleConverges(after, nanos);
      n := k + 1;
      FoldManyFirst(average, nanos, k);
      forall m: nat | m >= n
        ensures FoldMany(average, nanos, m) == FoldMany(average, nanos, n)
      {
        FoldManyFirst(average, nanos, m - 1);
      }
    }
  }

  // ----- racing callers ----------------------------------------------------------------

  type Tid = nat

  /** A caller before its load, and between its load and its store. */
  datatype Caller = Called(nanos: int64) | Loaded(nanos: int64, average: int64)

  /** `samples` is every sample any caller ever came with. */
  datatype State = State(stored: int64, callers: map<Tid, Caller>, samples: seq<int64>)

  const INIT := State(0, map[], [])

  datatype Action = Call(t: Tid, nanos: int64) | Load(t: Tid) | Store(t: Tid)

  function Step(s: State, a: Action): Option<State> {
    match a
    case Call(t, nanos) =>
      if t !in s.callers && nanos >= 0
      then Some(s.(callers := s.callers[t := Called(nanos)], samples := s.samples + [nanos])) else None
    case Load(t) =>
      if t in s.callers && s.callers[t].Called?
      then Some(s.(callers := s.callers[t := Loaded(s.callers[t].nanos, s.stored)])) else None
    case Store(t) =>
      if t in s.callers && s.callers[t].Loaded?
      then Some(s.(stored := Fold(s.callers[t].average, s.callers[t].nanos), callers := s.callers - {t})) else None
  }

  function Run(s: State, actions: seq<Action>): Option<State> {
    if actions == [] then Some(s)
    else
      var before := Run(s, actions[..|actions| - 1]);
      if before.Some? then Step(before.value, actions[|actions| - 1]) else None
  }

  /** Unset, or between two samples seen. */
  ghost predicate InHull(samples: seq<int64>, v: int64) {
    v == 0 || exists a, b :: a in samples && b in samples && 0 <= a <= v <= b
  }

  ghost predicate Hulled(s: State) {
    && InHull(s.samples, s.stored)
    && forall t :: t in s.callers ==>
      && s.callers[t].nanos in s.samples && s.callers[t].nanos >= 0
      && (s.callers[t].Loaded? ==> InHull(s.samples, s.callers[t].average))
  }

  lemma HullGrows(samples: seq<int64>, nanos: int64, v: int64)
    requires InHull(samples, v)
    ensures InHull(samples + [nanos], v)
  {
    if v != 0 {
      var a, b :| a in samples && b in samples && 0 <= a <= v <= b;
      assert a in samples + [nanos] && b in samples + [nanos];
    }
  }

  lemma FoldStaysInHull(samples: seq<int64>, average: int64, nanos: int64)
    requires InHull(samples, average) && nanos in samples && nanos >= 0
    ensures InHull(samples, Fold(average, nanos))
  {
    if average != 0 {
      var a, b :| a in samples && b in samples && 0 <= a <= average <= b;
      FoldMovesToward(average, nanos);
      hide Fold;
      var after := Fold(average, nanos);
      var low, high := if a <= after then a else nanos, if after <= b then b else nanos;
      assert low in samples && high in samples && 0 <= low <= after <= high;
    }
  }

  lemma StepStaysInHull(s: State, a: Action, s': State)
    requires Hulled(s) && Step(s, a) == Some(s')
    ensures Hulled(s')
  {
    hide Fold;
    match a {
      case Call(t, nanos) =>
        hide InHull;
        HullGrows(s.samples, nanos, s.stored);
        forall u | u in s'.callers
          ensures s'.callers[u].nanos in s'.samples && s'.callers[u].nanos >= 0
          ensures s'.callers[u].Loaded? ==> InHull(s'.samples, s'.callers[u].average)
        {
          if u == t { assert s'.samples[|s.samples|] == nanos; } else if s.callers[u].Loaded? {
            HullGrows(s.samples, nanos, s.callers[u].average);
          }
        }
      case Load(t) =>
      case Store(t) =>
        FoldStaysInHull(s.samples, s.callers[t].average, s.callers[t].nanos);
    }
  }

  /** However callers race, the average is unset or lies between two samples that
      were really taken. */
  lemma {:induction false} AverageStaysInHull(actions: seq<Action>, s: State)
    requires Run(INIT, actions) == Some(s)
    ensures Hulled(s)
  {
    if actions == [] {
    } else {
      hide Hulled;
      var before := Run(INIT, actions[..|actions| - 1]).value;
      AverageStaysInHull(actions[..|actions| - 1], before);
      StepStaysInHull(before, actions[|actions| - 1], s);
    }
  }
}
