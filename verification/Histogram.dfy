/** The duration histogram's buckets: 1..7 ns exactly, then four linear
    sub-buckets per power of two, and the midpoint each bucket is read at. */
module Histogram {
  import opened Events

  const BUCKETS: nat := 247

  function Pow2(n: nat): (p: nat)
    ensures p >= 1
  {
    if n == 0 then 1 else 2 * Pow2(n - 1)
  }

  /** bits.Len64. */
  function BitLen(v: nat): nat {
    if v == 0 then 0 else 1 + BitLen(v / 2)
  }

  lemma {:induction false} BitLenBounds(v: nat)
    requires v >= 1
    ensures BitLen(v) >= 1 && Pow2(BitLen(v) - 1) <= v < Pow2(BitLen(v))
  {
    if v == 1 {
    } else {
      BitLenBounds(v / 2);
    }
  }

  lemma {:induction false} Pow2Grows(m: nat, n: nat)
    requires m <= n
    ensures Pow2(m) <= Pow2(n)
    decreases n
  {
    if m == n {
    } else {
      Pow2Grows(m, n - 1);
    }
  }

  /** A shift right is a division by a power of two, a mask with 3 a remainder. */
  function BucketIndex(duration: int64): (index: nat) {
    if duration < 8 then (if duration < 1 then 1 else duration) - 1
    else
      var octave := BitLen(duration) - 1;
      BitLenAtLeast(duration);
      var subBucket := (duration / Pow2(octave - 2)) % 4;
      7 + (octave - 3) * 4 + subBucket
  }

  lemma BitLenAtLeast(v: nat)
    requires v >= 8
    ensures BitLen(v) >= 4
  {
    assert BitLen(v) == 1 + BitLen(v / 2) == 2 + BitLen(v / 2 / 2) == 3 + BitLen(v / 2 / 2 / 2);
  }

  function DurationForBucket(index: nat): nat {
    if index < 7 then index + 1
    else
      var adjusted := index - 7;
      var octave := adjusted / 4 + 3;
      var subBucket := adjusted % 4;
      var lowerBound := Pow2(octave) + subBucket * Pow2(octave - 2);
      var bucketWidth := Pow2(octave - 2);
      lowerBound + bucketWidth / 2
  }

  /** Where a bucket starts. */
  function Lower(index: nat): nat {
    if index < 7 then index + 1
    else Pow2((index - 7) / 4 + 3) + (index - 7) % 4 * Pow2((index - 7) / 4 + 1)
  }

  function Width(index: nat): nat {
    if index < 7 then 1 else Pow2((index - 7) / 4 + 1)
  }

  /** A bucket of octave o >= 3 in quarters of that octave's lower bound. */
  lemma LowerInQuarters(o: nat, s: nat)
    requires o >= 3 && s < 4
    ensures var i, w := 7 + (o - 3) * 4 + s, Pow2(o - 2);
            && Lower(i) == (if s == 0 then 4 * w else if s == 1 then 5 * w else if s == 2 then 6 * w else 7 * w)
            && Width(i) == w
  {
    var i, w := 7 + (o - 3) * 4 + s, Pow2(o - 2);
    assert (i - 7) / 4 == o - 3 && (i - 7) % 4 == s;
    assert Pow2(o) == 2 * Pow2(o - 1) == 4 * w;
    assert Lower(i) == 4 * w + s * w;
  }

  /** Buckets tile: each starts where the one before it ends. */
  lemma BucketsTile(index: nat)
    ensures Lower(index + 1) == Lower(index) + Width(index)
  {
    if index == 6 {
      assert Pow2(3) == 8;
    } else if index >= 7 {
      var o, s := (index - 7) / 4 + 3, (index - 7) % 4;
      LowerInQuarters(o, s);
      if s < 3 {
        LowerInQuarters(o, s + 1);
      } else {
        LowerInQuarters(o + 1, 0);
        assert Pow2(o - 1) == 2 * Pow2(o - 2);
      }
    }
  }

  lemma {:induction false} LowerGrows(i: nat, j: nat)
    requires i < j
    ensures Lower(i) + Width(i) <= Lower(j)
    decreases j
  {
    BucketsTile(j - 1);
    if i < j - 1 { LowerGrows(i, j - 1); }
  }

  lemma IndexedWithin(d: int64)
    requires d >= 1
    ensures Lower(BucketIndex(d)) <= d < Lower(BucketIndex(d)) + Width(BucketIndex(d))
  {
    if d >= 8 { IndexedWithinOctave(d); }
  }

  lemma IndexedWithinOctave(d: int64)
    requires d >= 8
    ensures Lower(BucketIndex(d)) <= d < Lower(BucketIndex(d)) + Width(BucketIndex(d))
  {
    hide BitLen, BucketIndex, Lower, Width, Pow2;
    OctaveSpan(d);
    IndexInOctave(d);
    var o := BitLen(d) - 1;
    DivBounds(d, Pow2(o - 2));
    LowerInQuarters(o, (d / Pow2(o - 2)) % 4);
  }

  lemma IndexInOctave(d: int64)
    requires d >= 8
    ensures BitLen(d) >= 4 && BucketIndex(d) == 7 + (BitLen(d) - 4) * 4 + (d / Pow2(BitLen(d) - 3)) % 4
  {
    BitLenAtLeast(d);
  }

  /** A duration lies in the four quarters of its octave. */
  lemma OctaveSpan(d: nat)
    requires d >= 8
    ensures BitLen(d) >= 4 && 4 * Pow2(BitLen(d) - 3) <= d < 8 * Pow2(BitLen(d) - 3)
  {
    BitLenBounds(d);
    BitLenAtLeast(d);
    var o := BitLen(d) - 1;
    assert Pow2(o) == 2 * Pow2(o - 1) == 4 * Pow2(o - 2) && Pow2(o + 1) == 2 * Pow2(o);
  }

  lemma DivBounds(d: nat, w: nat)
    requires w >= 1 && 4 * w <= d < 8 * w
    ensures (d / w) % 4 == (if d < 5 * w then 0 else if d < 6 * w then 1 else if d < 7 * w then 2 else 3)
  {
    Quotient(d, w, if d < 5 * w then 4 else if d < 6 * w then 5 else if d < 7 * w then 6 else 7);
  }

  lemma Quotient(d: nat, w: nat, q: nat)
    requires w >= 1 && q * w <= d < (q + 1) * w
    ensures d / w == q
  {
    var r := d / w;
    assert d == r * w + d % w;
    TimesGrows(r + 1, q, w);
    TimesGrows(q + 1, r, w);
  }

  lemma TimesGrows(a: nat, b: nat, w: nat)
    ensures a <= b ==> a * w <= b * w
  {
    if a <= b { assert b * w == a * w + (b - a) * w; }
  }

  /** The partition: a duration is counted in bucket i exactly if it lies in i's
      interval. */
  lemma IndexIff(d: int64, i: nat)
    requires d >= 1
    ensures BucketIndex(d) == i <==> Lower(i) <= d < Lower(i + 1)
  {
    IndexedWithin(d);
    BucketsTile(i);
    var j := BucketIndex(d);
    if j < i { LowerGrows(j, i); }
    if i < j { LowerGrows(i, j); }
  }

  lemma IndexMonotone(d: int64, e: int64)
    requires d <= e
    ensures BucketIndex(d) <= BucketIndex(e)
  {
    if d >= 1 {
      IndexedWithin(d);
      IndexedWithin(e);
      if BucketIndex(e) < BucketIndex(d) { LowerGrows(BucketIndex(e), BucketIndex(d)); }
    }
  }

  lemma Pow2Plus8(n: nat)
    ensures Pow2(n + 8) == 256 * Pow2(n)
  {
    assert Pow2(n + 8) == 2 * Pow2(n + 7) == 4 * Pow2(n + 6) == 8 * Pow2(n + 5) == 16 * Pow2(n + 4);
    assert Pow2(n + 4) == 2 * Pow2(n + 3) == 4 * Pow2(n + 2) == 8 * Pow2(n + 1) == 16 * Pow2(n);
  }

  lemma Pow2Of63()
    ensures Pow2(63) == TWO_63
  {
    Pow2Plus8(0); Pow2Plus8(8); Pow2Plus8(16); Pow2Plus8(24); Pow2Plus8(32); Pow2Plus8(40); Pow2Plus8(48);
    assert Pow2(63) == 2 * Pow2(62) == 4 * Pow2(61) == 8 * Pow2(60) == 16 * Pow2(59);
    assert Pow2(59) == 2 * Pow2(58) == 4 * Pow2(57) == 8 * Pow2(56);
  }

  /** The 247 buckets end exactly at 2^63, so every int64 finds one. */
  lemma BucketsCoverInt64(d: int64)
    ensures Lower(0) == 1 && Lower(BUCKETS) == TWO_63
    ensures BucketIndex(d) < BUCKETS
  {
    Pow2Of63();
    assert (BUCKETS - 7) / 4 == 60 && (BUCKETS - 7) % 4 == 0;
    if d >= 1 {
      IndexedWithin(d);
      var i := BucketIndex(d);
      if i > BUCKETS { LowerGrows(BUCKETS, i); }
    }
  }

  /** A midpoint lies in its own bucket: the reverse mapping is an inverse, and no
      sum on the way to it leaves int64. */
  lemma MidpointInverts(i: nat)
    requires i < BUCKETS
    ensures 1 <= DurationForBucket(i) < TWO_63 && Lower(i) <= DurationForBucket(i) < Lower(i + 1)
    ensures BucketIndex(DurationForBucket(i)) == i
  {
    BucketsTile(i);
    BucketsCoverInt64(0);
    if i + 1 < BUCKETS { LowerGrows(i + 1, BUCKETS); }
    IndexIff(DurationForBucket(i), i);
  }

  lemma MidpointMonotone(i: nat, j: nat)
    requires i <= j < BUCKETS
    ensures DurationForBucket(i) <= DurationForBucket(j)
  {
    MidpointInverts(i);
    MidpointInverts(j);
    BucketsTile(i);
    if i < j { LowerGrows(i, j); }
  }

  /** Reporting the midpoint costs at most an eighth of the duration: 12.5%. */
  lemma MidpointIsClose(d: int64)
    requires d >= 1
    ensures 8 * Abs(DurationForBucket(BucketIndex(d)) - d) <= d
  {
    var i := BucketIndex(d);
    IndexedWithin(d);
    if i >= 7 { MidpointWithinHalf(i, d); }
  }

  lemma MidpointWithinHalf(i: nat, d: nat)
    requires i >= 7 && Lower(i) <= d < Lower(i) + Width(i)
    ensures 8 * Abs(DurationForBucket(i) - d) <= d
  {
    var half, s := Pow2((i - 7) / 4), (i - 7) % 4;
    var w := Pow2((i - 7) / 4 + 1);
    assert w == 2 * half && w / 2 == half;
    assert Pow2((i - 7) / 4 + 3) == 2 * Pow2((i - 7) / 4 + 2) == 4 * w;
    assert s * w >= 0;
    assert Lower(i) == 4 * w + s * w && DurationForBucket(i) == Lower(i) + half;
  }
}
