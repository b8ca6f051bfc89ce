/** The fee market in unbounded integers, which the fixed-width one follows over every run. */
module ExactMarket {
  import opened Arithmetic
  import opened FixedPoint
  import opened CurveTable
  import PriceCurve
  import opened FeeMarket
  import opened Renormalisation
  import opened FeeSteps
  import opened FeeRuns

  datatype Dims = Dims(r: int, c: int, b: int, w: int)
  {
    function Top(): int { Max(Max(r, c), Max(b, w)) }
  }

  function Unbounded(q: Quad): Dims { Dims(q.r, q.c, q.b, q.w) }

  /** Products are rounded down. */
  function ExactScaled(f: Dims, m: Dims): Dims {
    Dims(f.r * m.r / ONE, f.c * m.c / ONE, f.b * m.b / ONE, f.w * m.w / ONE)
  }

  function ExactFloored(s: Dims, minRatio: int): Dims {
    var floor := s.Top() * minRatio / ONE;
    Dims(Max(s.r, floor), Max(s.c, floor), Max(s.b, floor), Max(s.w, floor))
  }

  function ExactMean(t: Dims): int { CeilDiv(t.r + t.c + t.b + t.w, 4) }

  /** Quotients are rounded up. */
  function ExactShares(t: Dims): Dims {
    var mean := ExactMean(t);
    if mean <= 0 then t
    else Dims(CeilDiv(t.r * ONE, mean), CeilDiv(t.c * ONE, mean), CeilDiv(t.b * ONE, mean), CeilDiv(t.w * ONE, mean))
  }

  function ExactFactors(f: Dims, m: Dims, minRatio: int): Dims {
    ExactShares(ExactFloored(ExactScaled(f, m), minRatio))
  }

  function ExactPrice(price: int, multiplier: int): int { Max(Min(I128_MAX, price * multiplier / ONE), MIN_COST) }

  // ----- The price curve -----

  /** The segment a usage falls into, and how far it is into it, rounded up. */
  function ExactBucket(usage: int): int { Max(0, Min(99, usage / PriceCurve.STEP)) }

  function ExactFraction(usage: int): int {
    CeilDiv((usage - ExactBucket(usage) * PriceCurve.STEP) * ONE, PriceCurve.STEP)
  }

  /** Linear interpolation between two points, with both products rounded down. */
  function ExactInterpolate(b: int, c: int, f: int): int { b * (ONE - f) / ONE + c * f / ONE }

  function ExactCurve(p: seq<int>, usage: int): int
    requires |p| == 101
  {
    ExactInterpolate(p[ExactBucket(usage)], p[ExactBucket(usage) + 1], ExactFraction(usage))
  }

  /** One plus the quotient, rounded away from zero. */
  function ExactMultiplier(v: int, a: int): int
    requires a != 0
  {
    var q := CeilDiv(Abs(v) * ONE, Abs(a));
    ONE + if (v < 0) == (a < 0) then q else -q
  }

  const RANGE: int := 100000000000000000000

  lemma FloorInRange(x: int)
    requires -RANGE * ONE <= x <= RANGE * ONE
    ensures -RANGE <= x / ONE <= RANGE && AsI128(Min(I128_MAX, x / ONE)) == x / ONE
  {
    FloorDivAtLeast(x, ONE, -RANGE);
    FloorDivAtLeast(x, ONE, RANGE + 1);
    AsI128Cases(x / ONE);
  }

  lemma InterpolateFollows(b: Fixed, c: Fixed, f: Fixed)
    requires LOWEST <= b <= HIGHEST && LOWEST <= c <= HIGHEST && 0 <= f <= ONE + 2000
    ensures PriceCurve.Interpolate(b, c, f) == ExactInterpolate(b, c, f)
  {
    var g := ONE - f;
    PriceCurve.ProductRange(b, g);
    PriceCurve.ProductRange(c, f);
    FloorInRange(b * g);
    FloorInRange(c * f);
    assert Sub(ONE, f) == g;
  }

  lemma FractionFollows(usage: Fixed)
    requires 0 <= usage <= ONE
    ensures PriceCurve.Bucket(usage) == ExactBucket(usage) && PriceCurve.Fraction(usage) == ExactFraction(usage)
    ensures 0 <= ExactFraction(usage) <= ONE + 2000
  {
    var k, d := PriceCurve.Locate(usage);
    PriceCurve.FractionAt(d);
  }

  /** No product, sum or quotient inside the curve saturates or wraps. */
  lemma CurveFollows(p: seq<int>, usage: Fixed)
    requires Table(p) && 0 <= usage <= ONE
    ensures PriceCurve.Curve(p, usage) == ExactCurve(p, usage)
  {
    var k := PriceCurve.Bucket(usage);
    FractionFollows(usage);
    PriceCurve.PointBounds(p, k);
    PriceCurve.PointBounds(p, k + 1);
    InterpolateFollows(p[k], p[k + 1], PriceCurve.Fraction(usage));
  }

  lemma QuotientFollows(v: Fixed, a: Fixed)
    requires Abs(a) >= PriceCurve.GENTLEST && LOWEST - 1 <= v <= HIGHEST
    ensures Add(Div(v, a), ONE) == ExactMultiplier(v, a)
  {
    PriceCurve.CurveQuotientFits(v, a);
  }

  /** The multiplier of every block is the one computed in unbounded integers. */
  lemma MultiplierFollows(usage: Fixed, a: Fixed)
    requires 0 <= usage <= ONE && Abs(a) >= PriceCurve.GENTLEST
    ensures PriceCurve.Multiplier(usage, a) == ExactMultiplier(ExactCurve(Points(), usage), a)
  {
    PointsAreTable();
    PriceCurve.CurveRange(Points(), usage);
    CurveFollows(Points(), usage);
    QuotientFollows(PriceCurve.Curve(Points(), usage), a);
  }

  // ----- One update -----

  lemma ProductExact(f: Fixed, k: Fixed)
    requires 0 <= f <= 40 * ONE && 0 <= k <= 6 * ONE
    ensures Mul(f, k) == f * k / ONE
  {
    MulNonneg(f, k);
    ScaledAtLeast(f, f, k, k);
  }

  lemma ScaledExact(f: Quad, ms: Quad, m: int)
    requires f.AllAtLeast(0) && f.Sum() <= 40 * ONE && InRange(ms, m) && 0 < m
    ensures Unbounded(Scaled(f, ms)) == ExactScaled(Unbounded(f), Unbounded(ms))
  {
    ProductExact(f.r, ms.r);
    ProductExact(f.c, ms.c);
    ProductExact(f.b, ms.b);
    ProductExact(f.w, ms.w);
  }

  lemma FlooredFollows(s: Quad, minRatio: Fixed)
    requires s.AllAtLeast(0) && 0 < s.Top() <= 240 * ONE && 0 <= minRatio <= ONE
    ensures Unbounded(Floored(s, minRatio)) == ExactFloored(Unbounded(s), minRatio)
  {
    FlooredExact(s, minRatio);
  }

  lemma ShareIsCeiling(g: int, t: int, mean: int)
    requires IsShare(g, t, mean) && mean > 0
    ensures g == CeilDiv(t * ONE, mean)
  {
    assert (g - 1) * mean == g * mean - mean;
    CeilDivUnique(t * ONE, mean, g);
  }

  lemma SharesAreExact(g: Quad, t: Quad, mean: int)
    requires AreShares(g, t, mean) && IsMean(mean, t.Sum()) && mean > 0
    ensures Unbounded(g) == ExactShares(Unbounded(t))
  {
    CeilDivUnique(t.Sum(), 4, mean);
    ShareIsCeiling(g.r, t.r, mean);
    ShareIsCeiling(g.c, t.c, mean);
    ShareIsCeiling(g.b, t.b, mean);
    ShareIsCeiling(g.w, t.w, mean);
  }

  lemma SharesFollow(t: Quad)
    requires Moderate(t) && t.Sum() > 0
    ensures Unbounded(Renormalised(t)) == ExactShares(Unbounded(t))
  {
    RenormalisedExact(t);
    SharesAreExact(Renormalised(t), t, Mean(t));
  }

  /** No product, sum or quotient of an update saturates or wraps. */
  lemma StepFollows(f: Quad, ms: Quad, minRatio: Fixed, m: int, slack: int)
    requires Loose(f, slack) && InRange(ms, m) && Steady(m, slack) && 0 <= minRatio <= ONE
    ensures Unbounded(NextFactors(f, ms, minRatio)) == ExactFactors(Unbounded(f), Unbounded(ms), minRatio)
  {
    SteadyMean(m, slack);
    ScaledBounds(f, ms, m);
    ScaledTop(f, ms, m, slack);
    ScaledExact(f, ms, m);
    var s := Scaled(f, ms);
    FlooredFollows(s, minRatio);
    FlooredMean(s, minRatio, TopFloor(m, slack));
    SharesFollow(Floored(s, minRatio));
  }

  lemma PriceFollows(price: Fixed, multiplier: Fixed)
    requires 0 <= price && 0 <= multiplier
    ensures NextPrice(price, multiplier) == ExactPrice(price, multiplier)
  {
    MulNonneg(price, multiplier);
  }

  // ----- Whole runs -----

  datatype ExactPrices = ExactPrices(price: int, factors: Dims)

  type ExactScaling = int -> int

  function ExactMultipliers(b: Block, scaling: ExactScaling): Dims {
    var d := b.detailed;
    Dims(scaling(d.readTime), scaling(d.computeTime), scaling(d.blockUsage),
         scaling(Max(d.bytesWritten, d.bytesChurned)))
  }

  function ExactRun(p: ExactPrices, blocks: seq<Block>, minRatio: int, scaling: ExactScaling): ExactPrices {
    if blocks == [] then p
    else
      var n := |blocks| - 1;
      var q := ExactRun(p, blocks[..n], minRatio, scaling);
      ExactPrices(ExactPrice(q.price, scaling(blocks[n].overall)),
                  ExactFactors(q.factors, ExactMultipliers(blocks[n], scaling), minRatio))
  }

  /** The scaling by the price curve, in unbounded integers throughout. */
  function ExactCurveScaling(a: int): ExactScaling
    requires a != 0
  {
    (usage: int) => ExactMultiplier(ExactCurve(Points(), usage), a)
  }

  ghost predicate Agree(scaling: Scaling, exact: ExactScaling) {
    forall usage: Fixed :: IsFraction(usage) ==> scaling(usage) == exact(usage)
  }

  function Exactly(p: FeePrices): ExactPrices { ExactPrices(p.overallPrice, Unbounded(p.Factors())) }

  lemma MultipliersAgree(b: Block, scaling: Scaling, exact: ExactScaling)
    requires ValidBlock(b) && Agree(scaling, exact)
    ensures Unbounded(Multipliers(b, scaling)) == ExactMultipliers(b, exact)
    ensures scaling(b.overall) == exact(b.overall)
  {}

  /** Prices from which no update saturates or wraps, except that the price is capped. */
  predicate Startable(p: FeePrices, slack: int) { Loose(p.Factors(), slack) && p.overallPrice >= 0 }

  lemma {:induction false} RunFollows(p: FeePrices, blocks: seq<Block>, minRatio: Fixed, scaling: Scaling,
                                      exact: ExactScaling, m: int, slack: int)
    requires Startable(p, slack) && ValidBlocks(blocks) && IsFraction(minRatio)
    requires ScalesFrom(scaling, m) && Steady(m, slack)
    requires Agree(scaling, exact)
    ensures Startable(Run(p, blocks, minRatio, scaling), slack)
    ensures Exactly(Run(p, blocks, minRatio, scaling)) == ExactRun(Exactly(p), blocks, minRatio, exact)
    decreases |blocks|
  {
    if blocks != [] {
      var n := |blocks| - 1;
      var b := blocks[n];
      RunFollows(p, blocks[..n], minRatio, scaling, exact, m, slack);
      var q := Run(p, blocks[..n], minRatio, scaling);
      UpdateSound(q, b, minRatio, scaling, m, slack);
      MultipliersInRange(b, scaling, m);
      MultipliersAgree(b, scaling, exact);
      UpdatedParts(q, b, minRatio, scaling);
      StepFollows(q.Factors(), Multipliers(b, scaling), minRatio, m, slack);
      PriceFollows(q.overallPrice, scaling(b.overall));
    }
  }

  lemma CurvesAgree(a: Fixed)
    requires Abs(a) >= PriceCurve.GENTLEST
    ensures Agree(CurveScaling(a), ExactCurveScaling(a))
  {
    forall usage: Fixed | IsFraction(usage) ensures CurveScaling(a)(usage) == ExactCurveScaling(a)(usage) {
      MultiplierFollows(usage, a);
    }
  }

  lemma TopUsage(p: seq<int>) returns (usage: Fixed)
    requires Table(p)
    ensures IsFraction(usage) && ExactCurve(p, usage) == HIGHEST
  {
    usage := 99 * PriceCurve.STEP;
    PriceCurve.CurveDips(p);
    CurveFollows(p, usage);
  }

  /** Divided by fewer than ten units, the top of the curve is out of range. */
  lemma TopOutOfRange(a: Fixed)
    requires a != 0 && Abs(a) < PriceCurve.GENTLEST
    ensures !(I128_MIN <= ExactMultiplier(HIGHEST, a) <= I128_MAX)
  {
    CeilDivAtMost(HIGHEST * ONE, Abs(a), I128_MAX + ONE + 1);
    MulLe(Abs(a), 9, I128_MAX + ONE + 1);
  }

  /** Every multiplier is the one computed in unbounded integers exactly when the steepness is at least ten units in
      magnitude. */
  lemma MultiplierFollowsIff(a: Fixed)
    requires a != 0
    ensures Agree(CurveScaling(a), ExactCurveScaling(a)) <==> Abs(a) >= PriceCurve.GENTLEST
  {
    if Abs(a) >= PriceCurve.GENTLEST {
      CurvesAgree(a);
    } else {
      PointsAreTable();
      var usage := TopUsage(Points());
      TopOutOfRange(a);
      assert I128_MIN <= CurveScaling(a)(usage) <= I128_MAX;
      assert ExactCurveScaling(a)(usage) == ExactMultiplier(HIGHEST, a);
    }
  }

  /** Wherever runs keep some slack, every run of the market in wrapping and saturating 128-bit arithmetic equals the
      run in unbounded integers, price curve included, whatever the floor ratio. */
  lemma MarketFollowsExact(p: FeePrices, blocks: seq<Block>, minRatio: Fixed, a: Fixed, slack: int)
    requires Startable(p, slack) && ValidBlocks(blocks) && Stable(a, slack, minRatio)
    ensures Exactly(Run(p, blocks, minRatio, CurveScaling(a)))
            == ExactRun(Exactly(p), blocks, minRatio, ExactCurveScaling(a))
  {
    CurveScales(a);
    CurvesAgree(a);
    RunFollows(p, blocks, minRatio, CurveScaling(a), ExactCurveScaling(a), PriceCurve.LowestMultiplier(a), slack);
  }
}
