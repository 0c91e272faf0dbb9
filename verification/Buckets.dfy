/** SEH1 bucket numbers: a positive value v goes to the bucket b with 1.1^b <= v < 1.1^(b+1).
    Floating point is taken as exact real arithmetic, so the quotient of logarithms in the program
    is the base-1.1 logarithm itself. */
module Buckets {
  import opened Reals

  /** The bucket of zero, math.MinInt16. */
  const ZERO_BUCKET: int := -32768

  /** 2^360, the largest value a distribution accepts. */
  const MAX_VALUE: real := 2348542582773833227889480596789337027375682548908319870707290971532209025114608443463698998384768703031934976.0

  /** 1.1 to an integer power. */
  ghost function Pow(b: int): (p: real)
    ensures p > 0.0
    decreases if b < 0 then -b else b
  {
    if b == 0 then 1.0 else if b > 0 then 1.1 * Pow(b - 1) else Pow(b + 1) / 1.1
  }

  ghost function Two(e: nat): (p: real)
    ensures p >= 1.0
  {
    if e == 0 then 1.0 else 2.0 * Two(e - 1)
  }

  /** Conversion to int64 truncates toward zero. */
  function Truncate(x: real): int {
    if x < 0.0 then -((-x).Floor) else x.Floor
  }

  /** The program's own floor, written to avoid math.Floor. */
  function Floor(x: real): (i: int)
    ensures i as real <= x < i as real + 1.0
  {
    var i := Truncate(x);
    if x < 0.0 && i as real != x then i - 1 else i
  }

  /** The floor of the base-1.1 logarithm. */
  function FloorLog(v: real): (b: int)
    requires v > 0.0
    ensures Pow(b) <= v < Pow(b + 1)
    decreases v < 1.0, if v < 1.0 then 11.0 / v else 10.0 * v
  {
    if v >= 1.1 then FloorLog(v / 1.1) + 1
    else if v >= 1.0 then 0
    else
      assert 11.0 / (v * 1.1) <= 11.0 / v - 1.0 by { Shrinks(v); }
      FloorLog(v * 1.1) - 1
  }

  lemma Shrinks(v: real)
    requires 0.0 < v < 1.0
    ensures 11.0 / (v * 1.1) <= 11.0 / v - 1.0
  {
    var q := 1.0 / v;
    assert q >= 1.0;
    assert 11.0 / v == 11.0 * q;
    assert 11.0 / (v * 1.1) == 10.0 * q;
  }

  /** Conversion to int16 keeps the low sixteen bits. */
  function Int16(x: int): (r: int)
    ensures -32768 <= r < 32768
    ensures -32768 <= x < 32768 ==> r == x
  {
    (x + 32768) % 65536 - 32768
  }

  function BucketNumber(v: real): int {
    if v > 0.0 then Int16(FloorLog(v)) else ZERO_BUCKET
  }

  /** What every non-negative float64 is: zero, or at least the smallest denormal 2^-1074. */
  ghost predicate Representable(v: real) {
    v == 0.0 || exists e: nat :: e <= 1074 && Times(v, Two(e)) >= 1.0
  }

  /** What every float64 is that is a number: not positive, or at least the smallest denormal and below 2^1024. */
  ghost predicate Finite(v: real) {
    v <= 0.0 || (Representable(v) && exists e: nat :: e <= 1024 && v < Two(e))
  }

  ghost predicate Supported(v: real) {
    0.0 <= v <= MAX_VALUE
  }

  lemma PowStep(b: int)
    ensures Pow(b + 1) == 1.1 * Pow(b)
  {}

  lemma {:induction false} PowIncreases(a: int, b: int)
    requires a < b
    ensures Pow(a) < Pow(b)
    decreases b - a
  {
    PowStep(a);
    if a + 1 < b {
      PowIncreases(a + 1, b);
    }
  }

  lemma {:induction false} PowAdd(a: int, b: int)
    ensures Pow(a + b) == Times(Pow(a), Pow(b))
    decreases if b < 0 then -b else b
  {
    if b > 0 {
      PowAdd(a, b - 1);
      PowStep(a + (b - 1));
      PowStep(b - 1);
      TimesScaled(1.1, Pow(a + (b - 1)), Pow(a), Pow(b - 1), Pow(b));
    } else if b < 0 {
      PowAdd(a, b + 1);
      PowStep(a + b);
      PowStep(b);
      TimesScaled(1.1, Times(Pow(a), Pow(b)), Pow(a), Pow(b), Pow(b + 1));
    }
  }

  lemma FloorLogUnique(v: real, b: int)
    requires v > 0.0 && Pow(b) <= v < Pow(b + 1)
    ensures b == FloorLog(v)
  {
    var c := FloorLog(v);
    if b < c {
      if b + 1 < c { PowIncreases(b + 1, c); }
    } else if c < b {
      if c + 1 < b { PowIncreases(c + 1, b); }
    }
  }

  /** What matters here of the base-1.1 logarithm, the quotient that the program computes: it lies on the same side of
      every whole number as the value does of that power of 1.1. */
  ghost predicate IsLog(x: real, v: real) {
    forall k: int :: k as real <= x <==> Pow(k) <= v
  }

  /** The program's floor of the logarithm is the index used here. */
  lemma FloorOfLog(x: real, v: real)
    requires v > 0.0 && IsLog(x, v)
    ensures Floor(x) == FloorLog(v)
    ensures BucketNumber(v) == Int16(Floor(x))
  {
    var b := Floor(x);
    assert Pow(b) <= v && !(Pow(b + 1) <= v);
    FloorLogUnique(v, b);
  }

  lemma FloorLogMonotone(v: real, w: real)
    requires 0.0 < v <= w
    ensures FloorLog(v) <= FloorLog(w)
  {
    var b, c := FloorLog(v), FloorLog(w);
    if c < b && c + 1 < b { PowIncreases(c + 1, b); }
  }

  lemma {:induction false} TwoBelowPow(e: nat)
    ensures Two(e) <= Pow(8 * e)
  {
    if e > 0 {
      TwoBelowPow(e - 1);
      PowAdd(8 * (e - 1), 8);
      assert Pow(8) > 2.0 by { assert Pow(4) == 1.4641; }
    }
  }

  lemma {:induction false} TwoAdd(a: nat, b: nat)
    ensures Two(a + b) == Times(Two(a), Two(b))
  {
    if b > 0 {
      TwoAdd(a, b - 1);
      TimesScaled(2.0, Two(a + b - 1), Two(a), Two(b - 1), Two(b));
    }
  }

  lemma MaxValueIsTwoTo(e: nat)
    requires e == 360
    ensures MAX_VALUE == Two(e)
  {
    assert Two(5) == 32.0;
    TwoAdd(5, 5);
    TwoAdd(10, 10);
    TwoAdd(20, 20);
    TwoAdd(40, 5);
    TwoAdd(45, 45);
    TwoAdd(90, 90);
    TwoAdd(180, 180);
  }

  lemma FloorLogRange(v: real)
    requires Representable(v) && Supported(v) && v > 0.0
    ensures -8592 <= FloorLog(v) <= 2880
  {
    MaxValueIsTwoTo(360);
    NotBelow(v);
    NotAbove(v, 360);
  }

  lemma NotBelow(v: real)
    requires Representable(v) && v > 0.0
    ensures FloorLog(v) >= -8592
  {
    var e: nat :| e <= 1074 && Times(v, Two(e)) >= 1.0;
    var b := FloorLog(v);
    if b < -8 * e {
      BelowDenormal(v, e, b);
    }
  }

  lemma NotAbove(v: real, e: nat)
    requires 0.0 < v <= Two(e)
    ensures FloorLog(v) <= 8 * e
  {
    TwoBelowPow(e);
    var b := FloorLog(v);
    if b > 8 * e { PowIncreases(8 * e, b); }
  }

  lemma SupportedFinite(v: real)
    requires Representable(v) && Supported(v)
    ensures Finite(v)
  {
    var e: nat := 360;
    MaxValueIsTwoTo(e);
    assert v < Two(e + 1);
  }

  lemma BelowDenormal(v: real, e: nat, b: int)
    requires v > 0.0 && b < -8 * e && v < Pow(b + 1)
    ensures Times(v, Two(e)) < 1.0
  {
    TwoBelowPow(e);
    PowAdd(-8 * e, 8 * e);
    if b + 1 < -8 * e { PowIncreases(b + 1, -8 * e); }
    BelowOne(v, Two(e), Pow(-8 * e), Pow(8 * e));
  }

  lemma BelowOne(v: real, t: real, s: real, p: real)
    requires 0.0 < v < s && 0.0 < t <= p && Times(s, p) == 1.0
    ensures Times(v, t) < 1.0
  {
    TimesLess(v, s, p);
    if t < p { TimesLess(t, p, v); }
  }

  /** Every accepted float64 has its own int16 bucket number; nothing wraps and nothing but zero
      lands in the bucket of zero. */
  lemma BucketNumberExact(v: real)
    requires Representable(v) && Supported(v)
    ensures v > 0.0 ==> Pow(BucketNumber(v)) <= v < Pow(BucketNumber(v) + 1)
    ensures v > 0.0 ==> -8592 <= BucketNumber(v) <= 2880
    ensures BucketNumber(v) == ZERO_BUCKET <==> v == 0.0
  {
    if v > 0.0 { FloorLogRange(v); }
  }

  /** No float64 wraps: the index is a valid int16 other than that of zero. */
  lemma FiniteNumber(v: real)
    requires Finite(v) && v > 0.0
    ensures -8592 <= FloorLog(v) == BucketNumber(v) <= 8192
  {
    NotBelow(v);
    var e: nat :| e <= 1024 && v < Two(e);
    NotAbove(v, e);
  }

  /** A larger float64 never gets a smaller number, whether a distribution accepts it or not. */
  lemma BucketNumberMonotone(v: real, w: real)
    requires Finite(v) && Finite(w) && v <= w
    ensures BucketNumber(v) <= BucketNumber(w)
  {
    if w > 0.0 { FiniteNumber(w); }
    if v > 0.0 {
      FiniteNumber(v);
      FloorLogMonotone(v, w);
    }
  }

  /** The value reported for a bucket, 1.1^(b + 1/2), given by its square. */
  ghost predicate IsMidpoint(r: real, b: int) {
    r > 0.0 && Times(r, r) == Pow(2 * b + 1)
  }

  /** The reported value is within a factor of the square root of 1.1 of every value in its bucket. */
  lemma MidpointError(v: real, r: real)
    requires Representable(v) && Supported(v) && v > 0.0
    requires IsMidpoint(r, BucketNumber(v))
    ensures Times(v, v) / 1.1 < Times(r, r) <= 1.1 * Times(v, v)
  {
    var b := BucketNumber(v);
    BucketNumberExact(v);
    PowStep(b);
    PowAdd(b, b + 1);
    assert 2 * b + 1 == b + (b + 1);
    BetweenSquares(Pow(b), v, Pow(b + 1), Times(r, r));
  }

  lemma BetweenSquares(p: real, v: real, q: real, s: real)
    requires 0.0 < p <= v < q && q == 1.1 * p && s == Times(p, q)
    ensures Times(v, v) / 1.1 < s <= 1.1 * Times(v, v)
  {
    TimesScaled(1.1, Times(p, p), p, p, q);
    TimesScaled(1.1, Times(q, p), q, p, q);
    assert Times(q, p) == Times(p, q);
    TimesLess(v, q, v);
    TimesLess(v, q, q);
    if p < v {
      TimesLess(p, v, p);
      TimesLess(p, v, v);
    }
  }
}
