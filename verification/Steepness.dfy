/** Which steepness parameters keep the promises of the price curve, over every parameter the type admits. */
module Steepness {
  import opened Arithmetic
  import opened FixedPoint
  import opened CurveTable
  import opened LogitShape
  import opened PriceCurve

  // ----- The curve at its points -----

  lemma PointLocated(k: int, usage: Fixed)
    requires 1 <= k <= 98 && usage == k * STEP
    ensures Bucket(usage) == k && Fraction(usage) == 0
  {
    var _, d := Locate(usage);
    FractionAt(d);
  }

  lemma PointInterpolated(b: Fixed, c: Fixed, f: Fixed)
    requires LOWEST <= b && b + GAP <= c <= HIGHEST && f == 0
    ensures Interpolate(b, c, f) == b
  {
    RisingStart(b, c, f);
  }

  lemma PointValue(p: seq<int>, k: int, usage: Fixed)
    requires Table(p) && 1 <= k <= 98 && Bucket(usage) == k && Fraction(usage) == 0
    ensures Curve(p, usage) == p[k]
  {
    PointBounds(p, k);
    PointBounds(p, k + 1);
    assert Rises(p, k);
    PointInterpolated(p[k], p[k + 1], Fraction(usage));
  }

  /** The usage at an inner point, and the adjustment there. */
  lemma AdjustmentAt(k: int, v: Fixed, a: Fixed) returns (usage: Fixed)
    requires 1 <= k <= 98 && v == At(k)
    ensures usage == k * STEP && PriceAdjustment(usage, a) == Div(v, a)
  {
    usage := k * STEP;
    PointLocated(k, usage);
    PointsAreTable();
    PointValue(Points(), k, usage);
  }

  /** Usages at the lower dip, at 99/100 and at full usage. */
  lemma AdjustmentAtEnds(a: Fixed) returns (low: Fixed, high: Fixed, full: Fixed)
    ensures 0 <= low <= ONE && PriceAdjustment(low, a) == Div(LOWEST - 1, a)
    ensures 51 * STEP < high == 99 * STEP && PriceAdjustment(high, a) == Div(HIGHEST, a)
    ensures full == ONE && PriceAdjustment(full, a) == Div(HIGHEST - 1, a)
  {
    PointsAreTable();
    CurveDips(Points());
    low, high, full := 1, 99 * STEP, ONE;
  }

  /** Every adjustment divides a value between the ends of the curve. */
  lemma AdjustmentDivides(usage: Fixed, a: Fixed) returns (v: Fixed)
    requires 0 <= usage <= ONE
    ensures LOWEST - 1 <= v <= HIGHEST && PriceAdjustment(usage, a) == Div(v, a)
  {
    PointsAreTable();
    CurveRange(Points(), usage);
    v := Curve(Points(), usage);
  }

  // ----- Negative and tiny steepness -----

  const OVER_HALF: int := 737968169202024192

  lemma OverHalfDivides(a: Fixed)
    requires a < 0
    ensures Div(OVER_HALF, a) < 0
    ensures a > -GENTLEST ==> Div(OVER_HALF, a) < -ONE
  {
    var d := Abs(a);
    CeilDivAtMost(OVER_HALF * ONE, d, I128_MAX);
    CeilDivAtMost(OVER_HALF * ONE, d, 0);
    CeilDivAtMost(OVER_HALF * ONE, d, ONE);
    DivFits(OVER_HALF, a);
  }

  /** A positive value divides to a negative number. */
  lemma WrapsTo(v: Fixed, a: Fixed)
    requires 0 < v && 0 < a && a * I128_MAX < v * ONE <= a * U128_MAX
    ensures Div(v, a) < 0
  {
    CeilDivAtMost(v * ONE, a, I128_MAX);
    CeilDivAtMost(v * ONE, a, U128_MAX);
    DivPositive(v, a);
  }

  /** A point whose value wraps when divided by so few units. */
  function WrappingPoint(a: int): int { if a == 1 then 70 else if a == 2 then 80 else if a == 3 then 85 else 90 }

  lemma PointWraps(a: Fixed)
    requires 0 < a < 5
    ensures Div(At(WrappingPoint(a)), a) < 0
  {
    WrapsTo(At(WrappingPoint(a)), a);
  }

  /** A block above one half that is adjusted downwards. */
  lemma DownwardUsage(a: Fixed) returns (v: Fixed)
    requires a != 0 && a < GENTLEST
    ensures 50 * STEP < v <= 99 * STEP && PriceAdjustment(v, a) < 0
    ensures -GENTLEST < a < 0 ==> PriceAdjustment(v, a) < -ONE
  {
    if a < 0 {
      v := AdjustmentAt(51, OVER_HALF, a);
      OverHalfDivides(a);
    } else if a < 5 {
      var k := WrappingPoint(a);
      v := AdjustmentAt(k, At(k), a);
      PointWraps(a);
    } else {
      var _, high, _ := AdjustmentAtEnds(a);
      v := high;
      WrapsTo(HIGHEST, a);
    }
  }

  lemma HalfUsage(a: Fixed) returns (u: Fixed)
    requires a != 0
    ensures STEP <= u <= 50 * STEP && PriceAdjustment(u, a) == 0
  {
    u := AdjustmentAt(50, 0, a);
    DivCases(0, a);
  }

  // ----- Monotone adjustments -----

  /** Adjustments rise with fullness between 1/100 and 99/100. */
  ghost predicate Rising(a: Fixed) {
    forall u: Fixed, v: Fixed :: STEP <= u <= v <= 99 * STEP ==> PriceAdjustment(u, a) <= PriceAdjustment(v, a)
  }

  /** For every steepness: a fuller block never gets a smaller adjustment between 1/100 and 99/100 exactly when the
      steepness is zero, which maxes all of them out, or at least ten units. */
  lemma AdjustmentMonotoneIff(a: Fixed)
    ensures Rising(a) <==> a == 0 || a >= GENTLEST
  {
    if a != 0 && a < GENTLEST {
      var u := HalfUsage(a);
      var v := DownwardUsage(a);
      assert PriceAdjustment(u, a) > PriceAdjustment(v, a);
    } else {
      forall u: Fixed, v: Fixed | STEP <= u <= v <= 99 * STEP ensures PriceAdjustment(u, a) <= PriceAdjustment(v, a) {
        if a != 0 { AdjustmentMonotone(u, v, a); }
      }
    }
  }

  // ----- Positive multipliers -----

  /** No block can turn a price negative or zero. */
  ghost predicate Positive(a: Fixed) { forall usage: Fixed :: 0 <= usage <= ONE ==> Multiplier(usage, a) > 0 }

  /** The least positive and the greatest negative steepness with that property, apart from zero. */
  const STEEPEST: int := 84764999863455367174
  const STEEPEST_DOWN: int := -84764999863455252485

  lemma UpQuotient(v: Fixed, a: Fixed)
    requires a >= GENTLEST && LOWEST - 1 <= v <= HIGHEST
    ensures Div(v, a) >= -CeilDiv((1 - LOWEST) * ONE, a)
    ensures v == LOWEST - 1 ==> Div(v, a) == -CeilDiv((1 - LOWEST) * ONE, a)
  {
    CurveQuotientFits(LOWEST - 1, a);
    CurveQuotientFits(v, a);
    SignedQuotientMonotone(LOWEST - 1, v, a);
  }

  lemma DownQuotient(v: Fixed, a: Fixed)
    requires a <= -GENTLEST && LOWEST - 1 <= v <= HIGHEST
    ensures -CeilDiv(HIGHEST * ONE, Abs(a)) <= Div(v, a) <= CeilDiv((1 - LOWEST) * ONE, Abs(a)) <= I128_MAX - ONE
    ensures v == HIGHEST ==> Div(v, a) == -CeilDiv(HIGHEST * ONE, Abs(a))
    ensures v == LOWEST - 1 ==> Div(v, a) == CeilDiv((1 - LOWEST) * ONE, Abs(a))
  {
    CurveQuotientFits(v, a);
    CurveQuotientFits(LOWEST - 1, a);
    CeilDivAtMost(HIGHEST * ONE, Abs(a), -1);
    if v > 0 { CeilDivMono(v * ONE, HIGHEST * ONE, Abs(a)); }
    if v < 0 { CeilDivMono(Abs(v) * ONE, (1 - LOWEST) * ONE, Abs(a)); }
    if v == 0 { ZeroQuotient(a); }
  }

  /** Under a negative steepness the bounds of all multipliers are mirrored, and again attained. */
  lemma MirroredBounds(usage: Fixed, a: Fixed) returns (low: Fixed, high: Fixed)
    requires 0 <= usage <= ONE && a <= -GENTLEST
    ensures ONE - CeilDiv(HIGHEST * ONE, Abs(a)) <= Multiplier(usage, a) <= ONE + CeilDiv((1 - LOWEST) * ONE, Abs(a))
    ensures 0 <= low <= ONE && Multiplier(low, a) == ONE + CeilDiv((1 - LOWEST) * ONE, Abs(a))
    ensures 0 <= high <= ONE && Multiplier(high, a) == ONE - CeilDiv(HIGHEST * ONE, Abs(a))
  {
    var v := AdjustmentDivides(usage, a);
    DownQuotient(v, a);
    AddsOne(usage, a);
    low, high := MirroredEnds(a);
  }

  lemma MirroredEnds(a: Fixed) returns (low: Fixed, high: Fixed)
    requires a <= -GENTLEST
    ensures 0 <= low <= ONE && Multiplier(low, a) == ONE + CeilDiv((1 - LOWEST) * ONE, Abs(a))
    ensures 0 <= high <= ONE && Multiplier(high, a) == ONE - CeilDiv(HIGHEST * ONE, Abs(a))
  {
    var full;
    low, high, full := AdjustmentAtEnds(a);
    DownQuotient(LOWEST - 1, a);
    DownQuotient(HIGHEST, a);
    AddsOne(low, a);
    AddsOne(high, a);
  }

  lemma AddsOne(usage: Fixed, a: Fixed)
    requires PriceAdjustment(usage, a) <= I128_MAX - ONE
    ensures Multiplier(usage, a) == PriceAdjustment(usage, a) + ONE
  {}

  lemma LargeDivides(v: Fixed, a: Fixed)
    requires LOWEST - 1 <= v <= HIGHEST && (a >= STEEPEST || a <= STEEPEST_DOWN)
    ensures -ONE < Div(v, a)
  {
    if a > 0 {
      CeilDivAtMost((1 - LOWEST) * ONE, a, ONE - 1);
      UpQuotient(v, a);
    } else {
      CeilDivAtMost(HIGHEST * ONE, Abs(a), ONE - 1);
      DownQuotient(v, a);
    }
  }

  lemma PositiveAt(usage: Fixed, a: Fixed)
    ensures Multiplier(usage, a) > 0 <==> PriceAdjustment(usage, a) > -ONE
  {}

  lemma LargePositive(a: Fixed)
    requires a >= STEEPEST || a <= STEEPEST_DOWN
    ensures Positive(a)
  {
    forall usage: Fixed | 0 <= usage <= ONE ensures Multiplier(usage, a) > 0 {
      var v := AdjustmentDivides(usage, a);
      LargeDivides(v, a);
      PositiveAt(usage, a);
    }
  }

  lemma ZeroPositive(a: Fixed)
    requires a == 0
    ensures Positive(a)
  {
    forall usage: Fixed | 0 <= usage <= ONE ensures Multiplier(usage, a) > 0 { PositiveAt(usage, a); }
  }

  lemma SmallDivides(a: Fixed)
    ensures GENTLEST <= a < STEEPEST ==> Div(LOWEST - 1, a) <= -ONE
    ensures STEEPEST_DOWN < a <= -GENTLEST ==> Div(HIGHEST, a) <= -ONE
  {
    if GENTLEST <= a < STEEPEST {
      CeilDivAtMost((1 - LOWEST) * ONE, a, ONE - 1);
      UpQuotient(LOWEST - 1, a);
    }
    if STEEPEST_DOWN < a <= -GENTLEST {
      CeilDivAtMost(HIGHEST * ONE, Abs(a), ONE - 1);
      DownQuotient(HIGHEST, a);
    }
  }

  /** Full blocks wrap to a negative multiplier, or empty ones saturate at the bottom. */
  lemma TinyDivides(a: Fixed)
    requires 0 < a < GENTLEST
    ensures (if a >= 5 then Div(HIGHEST, a) else Div(LOWEST - 1, a)) < -ONE
  {
    if a >= 5 {
      CeilDivAtMost(HIGHEST * ONE, a, I128_MAX);
      CeilDivAtMost(HIGHEST * ONE, a, U128_MAX - ONE);
      MulLe(a, 9, I128_MAX);
      MulLe(5, a, U128_MAX - ONE);
      FromU128DivCases(HIGHEST, a);
      DivCases(HIGHEST, a);
    } else {
      CeilDivAtMost((1 - LOWEST) * ONE, a, U128_MAX);
      MulLe(a, 4, U128_MAX);
      FromU128DivCases(1 - LOWEST, a);
      DivCases(LOWEST - 1, a);
    }
  }

  /** A block that turns prices negative or zero. */
  lemma SmallSteepness(a: Fixed) returns (usage: Fixed)
    requires a != 0 && STEEPEST_DOWN < a < STEEPEST
    ensures 0 <= usage <= ONE && PriceAdjustment(usage, a) <= -ONE
  {
    if -GENTLEST < a < 0 {
      usage := DownwardUsage(a);
    } else {
      var low, high, _ := AdjustmentAtEnds(a);
      usage := if a < 0 || 5 <= a < GENTLEST then high else low;
      SmallDivides(a);
      if 0 < a < GENTLEST { TinyDivides(a); }
    }
  }

  lemma SmallNotPositive(a: Fixed)
    requires a != 0 && STEEPEST_DOWN < a < STEEPEST
    ensures !Positive(a)
  {
    var usage := SmallSteepness(a);
    PositiveAt(usage, a);
  }

  /** For every steepness: all multipliers are positive exactly when it is zero or large enough in magnitude. */
  lemma MultiplierPositiveIff(a: Fixed)
    ensures Positive(a) <==> a == 0 || a >= STEEPEST || a <= STEEPEST_DOWN
  {
    if a == 0 {
      ZeroPositive(a);
    } else if STEEPEST_DOWN < a < STEEPEST {
      SmallNotPositive(a);
    } else {
      LargePositive(a);
    }
  }

  // ----- The advertised maximum -----

  /** `max_price_adjustment` bounds the multiplier of every block. */
  ghost predicate IsMaximum(a: Fixed) {
    forall usage: Fixed :: 0 <= usage <= ONE ==> Multiplier(usage, a) <= MaxPriceAdjustment(a)
  }

  lemma NotMaximum(a: Fixed, full: Fixed, usage: Fixed)
    requires full == ONE && 0 <= usage <= ONE
    requires PriceAdjustment(full, a) < PriceAdjustment(usage, a) <= I128_MAX - ONE
    ensures !IsMaximum(a)
  {
    AboveAt(full, usage, a);
  }

  lemma AboveAt(u: Fixed, v: Fixed, a: Fixed)
    requires PriceAdjustment(u, a) < PriceAdjustment(v, a) <= I128_MAX - ONE
    ensures Multiplier(u, a) < Multiplier(v, a)
  {}

  /** Under very few units, or none, the advertised maximum is the largest number there is. */
  lemma SaturatedMaximum(a: Fixed)
    requires 0 <= a < 5
    ensures IsMaximum(a)
  {
    var _, _, full := AdjustmentAtEnds(a);
    if a > 0 { SaturatesAt(a); }
    assert MaxPriceAdjustment(a) == I128_MAX;
  }

  lemma SaturatesAt(a: Fixed)
    requires 0 < a < 5
    ensures Div(HIGHEST - 1, a) == I128_MAX
  {
    CeilDivAtMost((HIGHEST - 1) * ONE, a, U128_MAX);
    MulLe(a, 4, U128_MAX);
    DivPositive(HIGHEST - 1, a);
  }

  /** The top of the curve divides to a negative number. */
  lemma TopDividesBelow(a: Fixed)
    requires a <= -GENTLEST || -5 < a < 0 || 5 <= a < GENTLEST
    ensures Div(HIGHEST - 1, a) < 0
  {
    if a > 0 {
      WrapsTo(HIGHEST - 1, a);
    } else if a <= -GENTLEST {
      CurveQuotientFits(HIGHEST - 1, a);
      CeilDivAtMost((HIGHEST - 1) * ONE, Abs(a), 0);
    } else {
      CeilDivAtMost((HIGHEST - 1) * ONE, Abs(a), U128_MAX);
      MulLe(Abs(a), 4, U128_MAX);
      FromU128DivCases(HIGHEST - 1, Abs(a));
      DivCases(HIGHEST - 1, a);
    }
  }

  lemma BelowHalf(a: Fixed)
    requires a <= -GENTLEST || -5 < a < 0 || 5 <= a < GENTLEST
    ensures !IsMaximum(a)
  {
    var u := HalfUsage(a);
    var _, _, full := AdjustmentAtEnds(a);
    TopDividesBelow(a);
    NotMaximum(a, full, u);
  }

  /** Between five and nine units below zero the top wraps to a positive number. */
  lemma TopWraps(a: Fixed, d: int)
    requires -GENTLEST < a <= -5 && d == -a
    ensures Div(HIGHEST - 1, a) == U128_MAX + 1 - CeilDiv((HIGHEST - 1) * ONE, d)
  {
    CeilDivAtMost((HIGHEST - 1) * ONE, d, I128_MAX);
    CeilDivAtMost((HIGHEST - 1) * ONE, d, U128_MAX);
    FromU128DivCases(HIGHEST - 1, d);
    DivCases(HIGHEST - 1, a);
  }

  /** Some emptier block exceeds it. */
  lemma WrappedTop(v: Fixed, a: Fixed)
    requires -GENTLEST < a <= -5 && v < 0
    requires ONE * Abs(a) + 2 <= HIGHEST - v && Abs(v) * ONE <= (I128_MAX - ONE) * Abs(a)
    ensures Div(HIGHEST - 1, a) < Div(v, a) <= I128_MAX - ONE
  {
    var d, w: int := Abs(a), v;
    TopWraps(a, d);
    CeilDivAtMost(-w * ONE, d, I128_MAX - ONE);
    DivFits(v, a);
    WrappedSum(CeilDiv((HIGHEST - 1) * ONE, d), CeilDiv(-w * ONE, d), w, d);
  }

  lemma WrappedSum(c: int, q: int, w: int, d: int)
    requires 0 < d && ONE * d + 2 <= HIGHEST - w && c == CeilDiv((HIGHEST - 1) * ONE, d) && q == CeilDiv(-w * ONE, d)
    ensures U128_MAX + 1 < c + q
  {
    CeilDivAtMost((HIGHEST - 1) * ONE, d, c);
    CeilDivAtMost(-w * ONE, d, q);
    assert (c + q) * d == c * d + q * d;
    if c + q <= U128_MAX + 1 { MulLe(c + q, U128_MAX + 1, d); }
  }

  /** A fifth of the way from the first point to the second. */
  lemma AdjustmentAtFifth(a: Fixed) returns (usage: Fixed, v: Fixed)
    ensures 0 <= usage <= ONE && -82170282494787241590 <= v <= -82170282494787241587
    ensures PriceAdjustment(usage, a) == Div(v, a)
  {
    usage := STEP + 36893488147419103;
    FifthFraction(usage);
    PointsAreTable();
    assert Points()[1] == At(1) && Points()[2] == At(2);
    v := Interpolate(At(1), At(2), 3689348814741910304);
    InterpolateBounds(At(1), At(2), 3689348814741910304);
  }

  lemma FifthFraction(usage: Fixed)
    requires usage == STEP + 36893488147419103
    ensures Bucket(usage) == 1 && Fraction(usage) == 3689348814741910304
  {
    var _, d := Locate(usage);
    CeilDivUnique(d * ONE, STEP, 3689348814741910304);
  }

  lemma EmptierUsage(a: Fixed) returns (usage: Fixed, v: Fixed)
    requires -GENTLEST < a <= -5
    ensures 0 <= usage <= ONE && PriceAdjustment(usage, a) == Div(v, a)
    ensures v < 0 && ONE * Abs(a) + 2 <= HIGHEST - v && Abs(v) * ONE <= (I128_MAX - ONE) * Abs(a)
  {
    if a == -9 {
      usage, v := AdjustmentAtFifth(a);
    } else if a == -8 {
      v := -71791413020114739200;
      usage := AdjustmentAt(2, v, a);
    } else if a == -5 {
      v := -40531639450585882624;
      usage := AdjustmentAt(10, v, a);
    } else {
      v := -54315312289337933824;
      usage := AdjustmentAt(5, v, a);
    }
  }

  lemma BelowEmptier(a: Fixed)
    requires -GENTLEST < a <= -5
    ensures !IsMaximum(a)
  {
    var usage, v := EmptierUsage(a);
    WrappedTop(v, a);
    var _, _, full := AdjustmentAtEnds(a);
    NotMaximum(a, full, usage);
  }

  /** For every steepness: the advertised maximum is the true one exactly when the last point and the value one unit
      below it divide to the same number, or the steepness is so small that it saturates. */
  lemma MaxPriceAdjustmentIff(a: Fixed)
    ensures IsMaximum(a)
            <==> || 0 <= a < 5
                 || (a >= GENTLEST && CeilDiv(HIGHEST * ONE, a) == CeilDiv((HIGHEST - 1) * ONE, a))
  {
    if a >= GENTLEST {
      MaxPriceAdjustmentIsMax(a);
    } else if 0 <= a < 5 {
      SaturatedMaximum(a);
    } else if -GENTLEST < a <= -5 {
      BelowEmptier(a);
    } else {
      BelowHalf(a);
    }
  }

  // ----- Opposite adjustments -----

  lemma OppositeMagnitudes(x: int, y: int, a: int, d: int)
    requires 0 < a && 0 <= x && 0 <= y && x <= y + d && y <= x + d
    ensures -CeilDiv(d * ONE, a) <= CeilDiv(x * ONE, a) - CeilDiv(y * ONE, a) <= CeilDiv(d * ONE, a)
  {
    CeilDivSubadditive(y * ONE, d * ONE, a);
    CeilDivSubadditive(x * ONE, d * ONE, a);
    CeilDivMono(x * ONE, y * ONE + d * ONE, a);
    CeilDivMono(y * ONE, x * ONE + d * ONE, a);
  }

  lemma NearMagnitudes(x: int, y: int, a: int, d: int)
    requires 0 < a && 0 <= x && 0 <= y && x + y <= d
    ensures 0 <= CeilDiv(x * ONE, a) && 0 <= CeilDiv(y * ONE, a)
    ensures CeilDiv(x * ONE, a) + CeilDiv(y * ONE, a) <= 2 * CeilDiv(d * ONE, a)
  {
    CeilDivAtMost(x * ONE, a, -1);
    CeilDivAtMost(y * ONE, a, -1);
    CeilDivMono(x * ONE, d * ONE, a);
    CeilDivMono(y * ONE, d * ONE, a);
  }

  /** Values that nearly cancel divide to numbers that nearly cancel. */
  lemma QuotientsOpposite(x: Fixed, y: Fixed, a: Fixed)
    requires a >= GENTLEST && LOWEST <= x <= HIGHEST && LOWEST <= y <= HIGHEST && Cancel(x, y)
    ensures -2 * CeilDiv(SKEW * ONE, a) <= Div(x, a) + Div(y, a) <= 2 * CeilDiv(SKEW * ONE, a)
  {
    CurveQuotientFits(x, a);
    CurveQuotientFits(y, a);
    CeilDivAtMost(SKEW * ONE, a, -1);
    if (x < 0) == (y < 0) {
      NearMagnitudes(Abs(x), Abs(y), a, SKEW);
    } else {
      OppositeMagnitudes(Abs(x), Abs(y), a, SKEW);
    }
  }

  /** The adjustment at a hundredth from the first to the 99th, and the value it divides. */
  lemma AdjustmentAtPoint(k: int, a: Fixed) returns (usage: Fixed, v: Fixed)
    requires 1 <= k <= 99
    ensures usage == k * STEP && v == At(k) && LOWEST <= v <= HIGHEST && PriceAdjustment(usage, a) == Div(v, a)
  {
    PointsAreTable();
    PointBounds(Points(), k);
    assert Points()[k] == At(k);
    v := At(k);
    if k == 99 {
      var low, high, full := AdjustmentAtEnds(a);
      usage := high;
    } else {
      usage := AdjustmentAt(k, v, a);
    }
  }

  /** Blocks as far above one half as others are below it are adjusted by opposite amounts, up to the rounding of the
      table and of the division. */
  lemma AdjustmentsOpposite(k: int, a: Fixed) returns (u: Fixed, v: Fixed)
    requires 1 <= k <= 99 && a >= GENTLEST
    ensures u == k * STEP && v == (100 - k) * STEP
    ensures -2 * CeilDiv(SKEW * ONE, a) <= PriceAdjustment(u, a) + PriceAdjustment(v, a) <= 2 * CeilDiv(SKEW * ONE, a)
  {
    var x, y;
    u, x := AdjustmentAtPoint(k, a);
    v, y := AdjustmentAtPoint(100 - k, a);
    TableMirrors(k);
    QuotientsOpposite(x, y, a);
  }
}
