/** The per-block price adjustment: a piecewise linear curve from fullness to relative price change. */
module PriceCurve {
  import opened Arithmetic
  import opened FixedPoint
  import opened CurveTable

  lemma {:induction false} PointsOrdered(p: seq<int>, i: int, j: int)
    requires Table(p) && 0 <= i <= j <= 100
    ensures p[i] <= p[j]
    decreases j - i
  {
    if i < j {
      assert 1 <= i < 99 ==> Rises(p, i);
      PointsOrdered(p, i + 1, j);
    }
  }

  lemma PointBounds(p: seq<int>, k: int)
    requires Table(p) && 0 <= k <= 100
    ensures LOWEST <= p[k] <= HIGHEST
  {
    PointsOrdered(p, 0, k);
    PointsOrdered(p, k, 100);
  }

  // ----- Interpolation -----

  /** The distance between points: a hundredth, rounded down. */
  const STEP: int := 184467440737095516

  function Bucket(usage: Fixed): (k: int)
    ensures 0 <= k <= 99
  {
    var u: int := usage;
    Max(0, Min(99, if u < 0 then -(-u / STEP) else u / STEP))
  }

  function Fraction(usage: Fixed): Fixed {
    FromU128Div(Max(0, usage - Bucket(usage) * STEP), STEP)
  }

  function Interpolate(b: Fixed, c: Fixed, frac: Fixed): Fixed {
    Add(Mul(b, Sub(ONE, frac)), Mul(c, frac))
  }

  /** The curve through a table of points, before division by the steepness parameter. */
  function Curve(p: seq<int>, usage: Fixed): Fixed
    requires Table(p)
  {
    PointBounds(p, Bucket(usage));
    PointBounds(p, Bucket(usage) + 1);
    Interpolate(p[Bucket(usage)], p[Bucket(usage) + 1], Fraction(usage))
  }

  /** The rounded fraction at distance `d` into a segment. */
  lemma FractionAt(d: int)
    requires 0 <= d <= STEP + 16
    ensures var f := CeilDiv(d * ONE, STEP);
            0 <= f <= ONE + 2000 && (d < STEP ==> f <= ONE - 100) && (d > 0 ==> f >= 100) && (d == 0 ==> f == 0)
  {}

  lemma FractionsApart(d: int, e: int)
    requires 0 <= d < e
    ensures CeilDiv(d * ONE, STEP) + 100 <= CeilDiv(e * ONE, STEP)
  {}

  /** Where a usage between zero and one falls. */
  lemma Locate(usage: Fixed) returns (k: int, d: int)
    requires 0 <= usage <= ONE
    ensures usage == k * STEP + d && 0 <= k <= 99 && 0 <= d <= STEP + 16 && (k < 99 ==> d < STEP)
    ensures Bucket(usage) == k && Fraction(usage) == CeilDiv(d * ONE, STEP)
  {
    k := Bucket(usage);
    d := usage - k * STEP;
    FractionAt(d);
    FromU128DivCases(d, STEP);
  }

  /** Interpolation is the exact weighted sum less at most the two roundings. */
  lemma InterpolateBounds(b: Fixed, c: Fixed, f: Fixed)
    requires LOWEST <= b <= HIGHEST && LOWEST <= c <= HIGHEST && 0 <= f <= ONE + 2000
    ensures var v, e := Interpolate(b, c, f), b * ONE + (c - b) * f;
            v * ONE <= e < (v + 2) * ONE
  {
    var g := ONE - f;
    assert -2000 <= g <= ONE;
    ProductRange(b, g);
    ProductRange(c, f);
    MulExactIff(b, g);
    MulExactIff(c, f);
    assert b * g + c * f == b * ONE + (c - b) * f;
  }

  lemma ProductRange(p: int, f: int)
    requires LOWEST <= p <= HIGHEST && -2000 <= f <= ONE + 2000
    ensures -100000000000000000000 * ONE <= p * f <= 100000000000000000000 * ONE
  {
    var a := Abs(p);
    MulMono(a, Abs(f), 84764999863455367168, ONE + 2000);
    assert p * f == a * Abs(f) || p * f == -(a * Abs(f));
  }

  // ----- Shape of the curve -----

  /** A hundred units of fraction weigh more than four roundings on a rising segment. */
  lemma WeightedRise(w: int, f: int)
    requires GAP <= w && 100 <= f
    ensures 4 * ONE < w * f
  {
    MulMono(GAP, 100, w, f);
  }

  lemma RisingStart(b: Fixed, c: Fixed, f: Fixed)
    requires LOWEST <= b && b + GAP <= c <= HIGHEST && (f == 0 || 100 <= f) && f <= ONE
    ensures b <= Interpolate(b, c, f)
    ensures f == 0 ==> Interpolate(b, c, f) == b
  {
    if f == 0 {
      MulByOne(b);
    } else {
      InterpolateBounds(b, c, f);
      WeightedRise(c - b, f);
    }
  }

  lemma WeightLeft(v: int, b: int, w: int, f: int)
    requires v * ONE <= b * ONE + w * f && GAP <= w && f <= ONE - 100
    ensures v < b + w
  {
    WeightedRise(w, ONE - f);
    assert w * f + w * (ONE - f) == w * ONE;
  }

  /** On a rising segment the curve stays strictly below the right point. */
  lemma RisingEnd(b: Fixed, c: Fixed, f: Fixed)
    requires LOWEST <= b && b + GAP <= c <= HIGHEST && 0 <= f <= ONE - 100
    ensures Interpolate(b, c, f) < c
  {
    InterpolateBounds(b, c, f);
    WeightLeft(Interpolate(b, c, f), b, c - b, f);
  }

  lemma RisingFractions(b: Fixed, c: Fixed, f: Fixed, g: Fixed)
    requires LOWEST <= b && b + GAP <= c <= HIGHEST && 0 <= f && f + 100 <= g <= ONE
    ensures Interpolate(b, c, f) < Interpolate(b, c, g)
  {
    InterpolateBounds(b, c, f);
    InterpolateBounds(b, c, g);
    var w := c - b;
    WeightedRise(w, g - f);
    assert w * g == w * f + w * (g - f);
  }

  /** On a flat segment the curve is the point or one unit below it. */
  lemma FlatSegment(b: Fixed, f: Fixed)
    requires LOWEST <= b <= HIGHEST && 0 <= f <= ONE + 2000
    ensures b - 1 <= Interpolate(b, b, f) <= b
    ensures f == 0 ==> Interpolate(b, b, f) == b
  {
    if f == 0 { MulByOne(b); } else { InterpolateBounds(b, b, f); }
  }

  // ----- Shape of the curve -----

  lemma InRisingSegment(p: seq<int>, usage: Fixed)
    requires Table(p) && 0 <= usage <= ONE && 1 <= Bucket(usage) < 99
    ensures p[Bucket(usage)] <= Curve(p, usage) < p[Bucket(usage) + 1]
  {
    var k, d := Locate(usage);
    FractionAt(d);
    PointBounds(p, k);
    PointBounds(p, k + 1);
    assert Rises(p, k);
    RisingStart(p[k], p[k + 1], Fraction(usage));
    RisingEnd(p[k], p[k + 1], Fraction(usage));
  }

  lemma InFlatEnd(p: seq<int>, usage: Fixed)
    requires Table(p) && 0 <= usage <= ONE && (Bucket(usage) == 0 || Bucket(usage) == 99)
    ensures p[Bucket(usage)] - 1 <= Curve(p, usage) <= p[Bucket(usage) + 1]
    ensures usage == 99 * STEP ==> Curve(p, usage) == p[99]
  {
    var k, d := Locate(usage);
    FractionAt(d);
    PointBounds(p, k);
    FlatSegment(p[k], Fraction(usage));
  }

  lemma BucketOf(usage: Fixed)
    requires 0 <= usage <= ONE
    ensures STEP <= usage <==> Bucket(usage) >= 1
    ensures usage < 99 * STEP <==> Bucket(usage) < 99
  {}

  /** Every usage lands between its left point, up to one unit on the flat ends, and its right point. */
  lemma CurveInSegment(p: seq<int>, usage: Fixed)
    requires Table(p) && 0 <= usage <= ONE
    ensures p[Bucket(usage)] - 1 <= Curve(p, usage) <= p[Bucket(usage) + 1]
    ensures STEP <= usage <= 99 * STEP ==> p[Bucket(usage)] <= Curve(p, usage)
    ensures STEP <= usage < 99 * STEP ==> Curve(p, usage) < p[Bucket(usage) + 1]
  {
    BucketOf(usage);
    if 1 <= Bucket(usage) < 99 { InRisingSegment(p, usage); } else { InFlatEnd(p, usage); }
  }

  /** The curve stays between one unit below its first point and its last point. */
  lemma CurveRange(p: seq<int>, usage: Fixed)
    requires Table(p) && 0 <= usage <= ONE
    ensures LOWEST - 1 <= Curve(p, usage) <= HIGHEST
  {
    CurveInSegment(p, usage);
    PointBounds(p, Bucket(usage));
    PointBounds(p, Bucket(usage) + 1);
  }

  lemma SameSegmentIncreasing(p: seq<int>, u: Fixed, v: Fixed)
    requires Table(p) && 0 <= u < v <= ONE && 1 <= Bucket(u) == Bucket(v) < 99
    ensures Curve(p, u) < Curve(p, v)
  {
    var k, d := Locate(u);
    var _, e := Locate(v);
    FractionsApart(d, e);
    FractionAt(d);
    FractionAt(e);
    PointBounds(p, k);
    PointBounds(p, k + 1);
    assert Rises(p, k);
    RisingFractions(p[k], p[k + 1], Fraction(u), Fraction(v));
  }

  lemma BucketsOrdered(u: Fixed, v: Fixed)
    requires 0 <= u <= v <= ONE
    ensures Bucket(u) <= Bucket(v)
    ensures STEP <= u && v <= 99 * STEP ==> 1 <= Bucket(u) && (u < v ==> Bucket(u) < 99)
  {}

  /** Between 1/100 and 99/100 a fuller block always gives a strictly higher value. */
  lemma CurveStrictlyIncreasing(p: seq<int>, u: Fixed, v: Fixed)
    requires Table(p) && STEP <= u < v <= 99 * STEP
    ensures Curve(p, u) < Curve(p, v)
  {
    BucketsOrdered(u, v);
    if Bucket(u) < Bucket(v) {
      CurveInSegment(p, u);
      CurveInSegment(p, v);
      PointsOrdered(p, Bucket(u) + 1, Bucket(v));
    } else {
      SameSegmentIncreasing(p, u, v);
    }
  }

  lemma FlatEndFraction(usage: Fixed, k: int, d: int, f: Fixed)
    requires (k == 0 || k == 99) && usage == k * STEP + d
    requires 0 <= d && (if k == 99 then d <= STEP + 16 else d < STEP) && (f - 1) * STEP < d * ONE <= f * STEP
    ensures Bucket(usage) == k && Fraction(usage) == f
  {
    var _, _ := Locate(usage);
    CeilDivUnique(d * ONE, STEP, f);
  }

  /** On the flat ends the curve is read off the rounded fraction. */
  lemma CurveOnFlatEnd(p: seq<int>, usage: Fixed, k: int, d: int, f: Fixed)
    requires Table(p) && (k == 0 || k == 99) && usage == k * STEP + d
    requires 0 <= d && (if k == 99 then d <= STEP + 16 else d < STEP) && (f - 1) * STEP < d * ONE <= f * STEP
    ensures Curve(p, usage) == Interpolate(p[k], p[k], f)
  {
    FlatEndFraction(usage, k, d, f);
  }

  lemma LowDip()
    ensures Interpolate(LOWEST, LOWEST, 101) == LOWEST - 1
  {
    MulExactIff(LOWEST, ONE - 101);
    MulExactIff(LOWEST, 101);
  }

  lemma HighDip()
    ensures Interpolate(HIGHEST, HIGHEST, ONE + 1601) == HIGHEST - 1
  {
    MulExactIff(HIGHEST, -1601);
    MulExactIff(HIGHEST, ONE + 1601);
  }

  /** The one-unit dip is real: the smallest positive usage is valued below zero usage, and full usage below 99/100. */
  lemma CurveDips(p: seq<int>)
    requires Table(p)
    ensures Curve(p, 1) == LOWEST - 1 < Curve(p, 0) == LOWEST
    ensures Curve(p, ONE) == HIGHEST - 1 < Curve(p, 99 * STEP) == HIGHEST
  {
    LowDip();
    HighDip();
    FlatSegment(LOWEST, 0);
    FlatSegment(HIGHEST, 0);
    CurveOnFlatEnd(p, 0, 0, 0, 0);
    CurveOnFlatEnd(p, 1, 0, 1, 101);
    CurveOnFlatEnd(p, 99 * STEP, 99, 0, 0);
    CurveOnFlatEnd(p, ONE, 99, STEP + 16, ONE + 1601);
  }

  /** On a flat segment the curve is the point, or one unit below it where the two products have to be rounded. */
  lemma FlatExact(b: Fixed, f: Fixed)
    requires LOWEST <= b <= HIGHEST && 0 <= f <= ONE + 2000
    ensures Interpolate(b, b, f) == if b * f % ONE == 0 then b else b - 1
  {
    var g := ONE - f;
    ProductRange(b, g);
    ProductRange(b, f);
    MulExactIff(b, g);
    MulExactIff(b, f);
    assert b * g == b * ONE - b * f;
    FlatFloors(b, b * f);
  }

  lemma FlatFloors(b: int, x: int)
    ensures (b * ONE - x) / ONE + x / ONE == if x % ONE == 0 then b else b - 1
  {}

  /** Where the curve is one unit below its flat end. */
  predicate Dipped(p: seq<int>, usage: Fixed)
    requires |p| == 101
  {
    (Bucket(usage) == 0 || Bucket(usage) == 99) && p[Bucket(usage)] * Fraction(usage) % ONE != 0
  }

  lemma CurveOnEnds(p: seq<int>, usage: Fixed)
    requires Table(p) && 0 <= usage <= ONE && (Bucket(usage) == 0 || Bucket(usage) == 99)
    ensures Curve(p, usage) == if Dipped(p, usage) then p[Bucket(usage)] - 1 else p[Bucket(usage)]
  {
    var k, d := Locate(usage);
    FractionAt(d);
    FlatExact(p[k], Fraction(usage));
  }

  lemma CurveAcrossBuckets(p: seq<int>, u: Fixed, v: Fixed)
    requires Table(p) && 0 <= u <= v <= ONE && Bucket(u) < Bucket(v)
    ensures Curve(p, u) <= Curve(p, v)
  {
    var k, l := Bucket(u), Bucket(v);
    CurveInSegment(p, u);
    CurveInSegment(p, v);
    PointsOrdered(p, k + 1, l);
    if l == 99 {
      if k < 98 { PointsOrdered(p, k + 1, 98); assert Rises(p, 98); }
      else { var _, _ := Locate(u); }
    }
  }

  /** The curve decreases between two usages exactly when they share a flat end and only the fuller one is dipped. */
  lemma CurveMonotoneIff(p: seq<int>, u: Fixed, v: Fixed)
    requires Table(p) && 0 <= u <= v <= ONE
    ensures Curve(p, u) <= Curve(p, v) <==> !(Bucket(u) == Bucket(v) && !Dipped(p, u) && Dipped(p, v))
  {
    BucketsOrdered(u, v);
    if Bucket(u) < Bucket(v) {
      CurveAcrossBuckets(p, u, v);
    } else if 1 <= Bucket(u) < 99 {
      if u < v { SameSegmentIncreasing(p, u, v); }
    } else {
      CurveOnEnds(p, u);
      CurveOnEnds(p, v);
    }
  }

  /** Over the whole range a fuller block never lowers the value by more than one unit. */
  lemma CurveAlmostIncreasing(p: seq<int>, u: Fixed, v: Fixed)
    requires Table(p) && 0 <= u <= v <= ONE
    ensures Curve(p, u) <= Curve(p, v) + 1
  {
    CurveMonotoneIff(p, u, v);
    if Curve(p, u) > Curve(p, v) {
      CurveOnEnds(p, u);
      CurveOnEnds(p, v);
    }
  }

  // ----- Straight lines between the points -----

  lemma StepIsHundredth()
    ensures STEP == ONE / 100
  {}

  lemma WeightUpper(v: int, b: int, w: int, f: int, d: int)
    requires 0 <= w <= ONE && v * ONE <= b * ONE + w * f && f * STEP <= d * ONE + STEP - 1
    ensures v * STEP <= b * STEP + w * d + STEP
  {
    MulLe(f * STEP, d * ONE + STEP - 1, w);
    assert (d * ONE + STEP - 1) * w <= (w * d) * ONE + STEP * ONE by { MulLe(w, ONE, STEP - 1); }
    assert (f * STEP) * w == (w * f) * STEP;
  }

  lemma WeightLower(v: int, b: int, w: int, f: int, d: int)
    requires 0 <= w && b * ONE + w * f < (v + 2) * ONE && d * ONE <= f * STEP
    ensures b * STEP + w * d < (v + 2) * STEP
  {
    MulLe(d * ONE, f * STEP, w);
    assert (f * STEP) * w == (w * f) * STEP && (d * ONE) * w == (w * d) * ONE;
  }

  lemma PointsClose(p: seq<int>, k: int)
    requires Table(p) && 0 <= k <= 99
    ensures 0 <= p[k + 1] - p[k] <= ONE
  {
    if 1 <= k < 99 { assert Rises(p, k); }
  }

  lemma InterpolatesLinearly(b: Fixed, c: Fixed, d: int, f: Fixed)
    requires LOWEST <= b <= c <= HIGHEST && c <= b + ONE && f == CeilDiv(d * ONE, STEP) && 0 <= f <= ONE + 2000
    ensures var v, w := Interpolate(b, c, f), b * STEP + (c - b) * d;
            (v - 1) * STEP <= w < (v + 2) * STEP
  {
    CeilDivAtMost(d * ONE, STEP, f);
    CeilDivAtMost(d * ONE, STEP, f - 1);
    InterpolateBounds(b, c, f);
    WeightUpper(Interpolate(b, c, f), b, c - b, f, d);
    WeightLower(Interpolate(b, c, f), b, c - b, f, d);
  }

  /** At a usage `d` past the `k`-th hundredth the curve is the weighted mean of the points around it, up to one unit
      above and two below. */
  lemma CurveIsLinear(p: seq<int>, k: int, d: int, usage: Fixed)
    requires Table(p) && 0 <= k <= 99 && usage == k * STEP + d <= ONE && 0 <= d && (k < 99 ==> d < STEP)
    ensures var v, w := Curve(p, usage), p[k] * STEP + (p[k + 1] - p[k]) * d;
            (v - 1) * STEP <= w < (v + 2) * STEP
  {
    var j, e := Locate(usage);
    assert j == k && e == d;
    FractionAt(d);
    PointBounds(p, k);
    PointBounds(p, k + 1);
    PointsClose(p, k);
    InterpolatesLinearly(p[k], p[k + 1], d, Fraction(usage));
  }

  /** Usages below zero count as zero. */
  lemma NegativeUsage(p: seq<int>, usage: Fixed)
    requires Table(p) && usage <= 0
    ensures Curve(p, usage) == LOWEST
  {
    NothingUsed(usage);
    FlatSegment(LOWEST, Fraction(usage));
  }

  lemma NothingUsed(usage: Fixed)
    requires usage <= 0
    ensures Bucket(usage) == 0 && Fraction(usage) == 0
  {
    NoBucket(usage);
    ZeroShare(Max(0, usage - Bucket(usage) * STEP));
  }

  lemma NoBucket(usage: Fixed)
    requires usage <= 0
    ensures Bucket(usage) == 0
  {
    var u: int := usage;
    FloorDivAtLeast(-u, STEP, 0);
  }

  lemma ZeroShare(d: U128)
    requires d == 0
    ensures FromU128Div(d, STEP) == 0
  {
    FromU128DivCases(d, STEP);
    CeilDivUnique(d * ONE, STEP, 0);
  }

  // ----- Adjustment and multiplier -----

  /** `price_adjustment_function`. */
  function PriceAdjustment(usage: Fixed, a: Fixed): Fixed {
    PointsAreTable();
    Div(Curve(Points(), usage), a)
  }

  /** The factor a price is multiplied by after a block. */
  function Multiplier(usage: Fixed, a: Fixed): Fixed { Add(PriceAdjustment(usage, a), ONE) }

  /** The least steepness parameter, in units of 2^-64, by which no value of the curve divides out of range. */
  const GENTLEST: int := 10

  lemma CurveQuotientFits(v: Fixed, a: Fixed)
    requires Abs(a) >= GENTLEST && LOWEST - 1 <= v <= HIGHEST
    ensures Quotient(v, a) <= I128_MAX - ONE && Div(v, a) == SignedQuotient(v, a)
  {
    MulLe(GENTLEST, Abs(a), I128_MAX - ONE);
    CeilDivAtMost(Abs(v) * ONE, Abs(a), I128_MAX - ONE);
    DivFits(v, a);
  }

  /** Raising a dividend by one unit raises the quotient by at most the reciprocal of the divisor, rounded up. */
  lemma DivByOneStep(x: Fixed, a: Fixed)
    requires a >= GENTLEST && LOWEST - 1 <= x < HIGHEST
    ensures Div(x + 1, a) <= Div(x, a) + CeilDiv(ONE, a)
  {
    CurveQuotientFits(x, a);
    CurveQuotientFits(x + 1, a);
    if x >= 0 {
      CeilDivSubadditive(x * ONE, ONE, a);
    } else {
      CeilDivSubadditive(-(x + 1) * ONE, ONE, a);
    }
  }

  lemma QuotientsOrdered(x: Fixed, y: Fixed, a: Fixed)
    requires a >= GENTLEST && LOWEST - 1 <= x <= y + 1 && LOWEST - 1 <= y && x <= HIGHEST && y <= HIGHEST
    ensures x <= y ==> Div(x, a) <= Div(y, a)
    ensures Div(x, a) <= Div(y, a) + CeilDiv(ONE, a)
  {
    CeilDivAtMost(ONE, a, 0);
    if x <= y {
      CurveQuotientFits(x, a);
      CurveQuotientFits(y, a);
      SignedQuotientMonotone(x, y, a);
    } else {
      DivByOneStep(y, a);
    }
  }

  lemma CurveQuotients(p: seq<int>, u: Fixed, v: Fixed, a: Fixed)
    requires Table(p) && 0 <= u <= v <= ONE && a >= GENTLEST
    ensures STEP <= u && v <= 99 * STEP ==> Div(Curve(p, u), a) <= Div(Curve(p, v), a)
    ensures Div(Curve(p, u), a) <= Div(Curve(p, v), a) + CeilDiv(ONE, a)
  {
    CurveRange(p, u);
    CurveRange(p, v);
    CurveAlmostIncreasing(p, u, v);
    if STEP <= u < v <= 99 * STEP { CurveStrictlyIncreasing(p, u, v); }
    QuotientsOrdered(Curve(p, u), Curve(p, v), a);
  }

  /** A fuller block never gets a smaller adjustment between 1/100 and 99/100, and elsewhere loses at most the
      reciprocal of the steepness parameter: one unit for a steepness of at least one. */
  lemma AdjustmentMonotone(u: Fixed, v: Fixed, a: Fixed)
    requires 0 <= u <= v <= ONE && a >= GENTLEST
    ensures STEP <= u && v <= 99 * STEP ==> PriceAdjustment(u, a) <= PriceAdjustment(v, a)
    ensures PriceAdjustment(u, a) <= PriceAdjustment(v, a) + CeilDiv(ONE, a)
    ensures a >= ONE ==> PriceAdjustment(u, a) <= PriceAdjustment(v, a) + 1
  {
    PointsAreTable();
    CurveQuotients(Points(), u, v, a);
    CeilDivAtMost(ONE, a, 1);
  }

  /** The smallest and largest factor any block can apply. */
  function LowestMultiplier(a: Fixed): int
    requires a >= GENTLEST
  {
    ONE - CeilDiv((1 - LOWEST) * ONE, a)
  }

  function HighestMultiplier(a: Fixed): int
    requires a >= GENTLEST
  {
    ONE + CeilDiv(HIGHEST * ONE, a)
  }

  lemma ScaledBounds(v: Fixed, a: Fixed)
    requires a >= GENTLEST && LOWEST - 1 <= v <= HIGHEST
    ensures LowestMultiplier(a) <= Add(Div(v, a), ONE) <= HighestMultiplier(a)
    ensures v == LOWEST - 1 ==> Add(Div(v, a), ONE) == LowestMultiplier(a)
    ensures v == HIGHEST ==> Add(Div(v, a), ONE) == HighestMultiplier(a)
  {
    CurveQuotientFits(LOWEST - 1, a);
    CurveQuotientFits(v, a);
    CurveQuotientFits(HIGHEST, a);
    SignedQuotientMonotone(LOWEST - 1, v, a);
    SignedQuotientMonotone(v, HIGHEST, a);
  }

  /** Every multiplier lies between the two extremes, and some block attains each of them. */
  lemma MultiplierBounds(usage: Fixed, a: Fixed)
    requires 0 <= usage <= ONE && a >= GENTLEST
    ensures LowestMultiplier(a) <= Multiplier(usage, a) <= HighestMultiplier(a)
    ensures Multiplier(1, a) == LowestMultiplier(a) && Multiplier(99 * STEP, a) == HighestMultiplier(a)
  {
    PointsAreTable();
    CurveRange(Points(), usage);
    CurveDips(Points());
    ScaledBounds(Curve(Points(), usage), a);
    ScaledBounds(LOWEST - 1, a);
    ScaledBounds(HIGHEST, a);
  }

  /** `max_price_adjustment`: the multiplier of a completely full block. */
  function MaxPriceAdjustment(a: Fixed): Fixed { Multiplier(ONE, a) }

  lemma FullBlockMultiplier(a: Fixed)
    requires a >= GENTLEST
    ensures MaxPriceAdjustment(a) == ONE + CeilDiv((HIGHEST - 1) * ONE, a)
  {
    PointsAreTable();
    CurveDips(Points());
    CurveQuotientFits(HIGHEST - 1, a);
  }

  lemma TopQuotients(a: Fixed)
    requires a >= GENTLEST
    ensures CeilDiv((HIGHEST - 1) * ONE, a) <= CeilDiv(HIGHEST * ONE, a)
            <= CeilDiv((HIGHEST - 1) * ONE, a) + CeilDiv(ONE, a)
    ensures a >= ONE ==> CeilDiv(ONE, a) == 1
  {
    CeilDivMono((HIGHEST - 1) * ONE, HIGHEST * ONE, a);
    CeilDivSubadditive((HIGHEST - 1) * ONE, ONE, a);
    CeilDivAtMost(ONE, a, 1);
    CeilDivAtMost(ONE, a, 0);
  }

  /** The advertised maximum is the true one up to the reciprocal of the steepness parameter, and exactly so when the
      last point and the value one unit below it divide to the same number. */
  lemma MaxPriceAdjustmentIsMax(a: Fixed)
    requires a >= GENTLEST
    ensures HighestMultiplier(a) - CeilDiv(ONE, a) <= MaxPriceAdjustment(a) <= HighestMultiplier(a)
    ensures a >= ONE ==> HighestMultiplier(a) - 1 <= MaxPriceAdjustment(a)
    ensures (forall usage: Fixed :: 0 <= usage <= ONE ==> Multiplier(usage, a) <= MaxPriceAdjustment(a))
            <==> CeilDiv(HIGHEST * ONE, a) == CeilDiv((HIGHEST - 1) * ONE, a)
  {
    FullBlockMultiplier(a);
    TopQuotients(a);
    MultiplierBounds(1, a);
    forall usage: Fixed | 0 <= usage <= ONE ensures Multiplier(usage, a) <= HighestMultiplier(a) {
      MultiplierBounds(usage, a);
    }
  }

  /** With a steepness parameter of one, blocks at 99/100 exceed the advertised maximum. */
  lemma MaxPriceAdjustmentMisses(a: Fixed)
    requires a == ONE
    ensures Multiplier(99 * STEP, a) == MaxPriceAdjustment(a) + 1
  {
    MultiplierBounds(1, a);
    FullBlockMultiplier(a);
    CeilDivUnique(HIGHEST * ONE, ONE, HIGHEST);
    CeilDivUnique((HIGHEST - 1) * ONE, ONE, HIGHEST - 1);
  }
}
