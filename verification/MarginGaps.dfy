/** Where a margin needs no surcharge for rising factors, and where it falls short without one. */
module MarginGaps {
  import opened Arithmetic
  import opened FixedPoint
  import CurveTable
  import PriceCurve
  import opened FeeMarket
  import opened Renormalisation
  import opened FeeSteps
  import opened FeeRuns
  import opened Powers
  import opened PriceRuns
  import opened FactorGrowth
  import opened ExactMarket
  import opened FeeMargins
  import Fees

  // ----- Where no growth is needed -----

  const ONES: Quad := Quad(ONE, ONE, ONE, ONE)

  /** With a minimum ratio of one, every update makes all factors exactly one. */
  lemma FlatStep(f: Quad, ms: Quad, minRatio: Fixed, m: int, slack: int)
    requires Loose(f, slack) && InRange(ms, m) && Steady(m, slack) && minRatio == ONE
    ensures NextFactors(f, ms, minRatio) == ONES
  {
    SteadyMean(m, slack);
    ScaledBounds(f, ms, m);
    ScaledTop(f, ms, m, slack);
    var top := Scaled(f, ms).Top();
    MulByOne(top);
    assert Floored(Scaled(f, ms), minRatio) == Quad(top, top, top, top);
    EqualDimensions(top);
  }

  lemma FlatUpdate(q: FeePrices, b: Block, minRatio: Fixed, scaling: Scaling, m: int, slack: int)
    requires Loose(q.Factors(), slack) && ValidBlock(b) && minRatio == ONE
    requires ScalesFrom(scaling, m) && Steady(m, slack)
    ensures Updated(q, b, minRatio, scaling).Factors() == ONES
  {
    MultipliersInRange(b, scaling, m);
    UpdatedParts(q, b, minRatio, scaling);
    FlatStep(q.Factors(), Multipliers(b, scaling), minRatio, m, slack);
  }

  lemma FlatRun(p: FeePrices, blocks: seq<Block>, minRatio: Fixed, scaling: Scaling, m: int, slack: int)
    requires Loose(p.Factors(), slack) && ValidBlocks(blocks) && minRatio == ONE
    requires ScalesFrom(scaling, m) && Steady(m, slack)
    ensures blocks != [] ==> Run(p, blocks, minRatio, scaling).Factors() == ONES
  {
    if blocks != [] {
      var n := |blocks| - 1;
      RunLoose(p, blocks[..n], minRatio, scaling, m, slack);
      FlatUpdate(Run(p, blocks[..n], minRatio, scaling), blocks[n], minRatio, scaling, m, slack);
    }
  }

  lemma FlatRises(q: FeePrices, p: FeePrices, power: Fixed, loss: real)
    requires q.Factors() == p.Factors() == ONES && 0 <= q.overallPrice && 0 <= p.overallPrice && 0 <= power
    requires 0.0 <= loss && (power == I128_MAX || PriceCovered(p.overallPrice, q.overallPrice, power, loss))
    ensures Rises(q, p, power, loss, 1.0, 0)
  {}

  /** With a minimum ratio of one, a quote from factors of one covers the fee after every run within the margin without
      any growth, up to rounding. */
  lemma FlatMarginCoversFee(p: FeePrices, blocks: seq<Block>, minRatio: Fixed, a: Fixed, slack: int,
                            n: NormalizedCost, margin: Exponent)
    returns (q: FeePrices, power: Fixed, loss: real)
    requires p.Factors() == ONES && p.overallPrice >= MIN_COST && minRatio == ONE && Stable(a, slack, minRatio)
    requires ValidBlocks(blocks) && |blocks| <= margin && Normalised(n)
    ensures q == Run(p, blocks, minRatio, CurveScaling(a)) && q.Factors() == ONES
    ensures power == Power(PriceCurve.MaxPriceAdjustment(a), margin) && loss == RealPow(SHRINK, 2 * margin)
    ensures CostWithMargin(p, n, a, margin) == Mul(Fees.OverallCost(p, n), power)
    ensures QuoteHolds(q, p, n, power, loss, 1.0, 0)
  {
    q := Run(p, blocks, minRatio, CurveScaling(a));
    power, loss := Power(PriceCurve.MaxPriceAdjustment(a), margin), RealPow(SHRINK, 2 * margin);
    CurveScales(a);
    CurveAdvertised(a);
    FlatRun(p, blocks, minRatio, CurveScaling(a), PriceCurve.LowestMultiplier(a), slack);
    RunPriceCovered(p, blocks, minRatio, CurveScaling(a), PriceCurve.MaxPriceAdjustment(a),
                    PriceCurve.HighestMultiplier(a), margin);
    LossNonneg(2 * margin);
    FlatRises(q, p, power, loss);
    QuoteFromRises(q, p, n, power, loss, 1.0, 0);
  }

  // ----- Where the margin falls short -----

  /** A block at 99/100 in reads and overall, and next to empty in every other dimension. */
  const READ_HEAVY: Block := Block(NormalizedCost(99 * PriceCurve.STEP, 1, 1, 1, 1), 99 * PriceCurve.STEP)

  /** A transaction that takes all the read time of a block and nothing else. */
  const READER: NormalizedCost := NormalizedCost(ONE, 0, 0, 0, 0)

  const HUNDRED: int := 100 * ONE

  lemma ScalingAtEnds(a: Fixed)
    requires a >= ONE
    ensures CurveScaling(a)(1) == PriceCurve.LowestMultiplier(a)
    ensures CurveScaling(a)(99 * PriceCurve.STEP) == PriceCurve.HighestMultiplier(a)
  {
    PriceCurve.MultiplierBounds(1, a);
  }

  lemma ReadHeavyMultipliers(scaling: Scaling, h: Fixed, l: Fixed)
    requires scaling(99 * PriceCurve.STEP) == h && scaling(1) == l
    ensures Multipliers(READ_HEAVY, scaling) == Quad(h, l, l, l)
  {}

  /** The minimum ratio leaves a read-heavy block's dimensions alone. */
  predicate Unbinding(h: int, l: int, minRatio: int) { h * minRatio / ONE <= l }

  lemma ReadHeavyShare(h: int, l: int, minRatio: Fixed)
    requires 0 < l <= ONE <= h && Unbinding(h, l, minRatio)
    ensures CeilDiv(h + 3 * l, 4) > 0
    ensures ExactFactors(Dims(ONE, ONE, ONE, ONE), Dims(h, l, l, l), minRatio).r
            == CeilDiv(h * ONE, CeilDiv(h + 3 * l, 4))
  {
    var d := Dims(h, l, l, l);
    assert ExactScaled(Dims(ONE, ONE, ONE, ONE), d) == d;
    assert ExactFloored(d, minRatio) == d;
    CeilDivAtMost(h + 3 * l, 4, 0);
  }

  lemma ReadFactorIs(ones: Quad, ms: Quad, h: Fixed, l: Fixed, minRatio: Fixed, slack: int)
    requires ones == ONES && ms == Quad(h, l, l, l) && IsFraction(minRatio)
    requires Steady(l, slack) && l <= ONE <= h <= 6 * ONE && Unbinding(h, l, minRatio)
    ensures CeilDiv(h + 3 * l, 4) > 0
    ensures NextFactors(ones, ms, minRatio).r == CeilDiv(h * ONE, CeilDiv(h + 3 * l, 4))
  {
    StepFollows(ones, ms, minRatio, l, slack);
    ReadHeavyShare(h, l, minRatio);
  }

  /** What the read factor gains: with `u` and `v` the distances of the multipliers from one, about 3/4 of their sum. */
  lemma ReadFactorGains(h: int, l: int, u: int, v: int, mean: int, g: int)
    requires h == ONE + u && l == ONE - v && 0 < u <= v < ONE
    requires mean == CeilDiv(h + 3 * l, 4) && mean > 0 && g == CeilDiv(h * ONE, mean)
    ensures 3 * (u + v) - 3 <= 4 * (g - ONE)
  {
    CeilDivAtMost(h + 3 * l, 4, ONE);
    CeilDivAtMost(h * ONE, mean, g);
    if g - ONE < h - mean { GainTooSmall(h, mean, g); }
  }

  lemma GainTooSmall(h: int, mean: int, g: int)
    requires 0 < mean <= ONE <= h && h * ONE <= g * mean
    ensures h - mean <= g - ONE
  {
    var d := h - mean;
    assert (g - ONE) * mean == g * mean - mean * ONE;
    MulLe(mean, ONE, d);
    assert h * ONE - mean * ONE == d * ONE;
    if g - ONE < d { MulLt(g - ONE, d, mean); }
  }

  /** For prices that are not too small for the steepness parameter, the gain is at least one unit of fee. */
  lemma GainCounts(price: int, a: int, u: int, v: int, gain: int)
    requires 0 < price && 0 < a <= I128_MAX && a <= 6 * ONE * price
    requires CurveTable.HIGHEST * ONE <= u * a && (1 - CurveTable.LOWEST) * ONE <= v * a
    requires 3 * (u + v) - 3 <= 4 * gain
    ensures ONE <= price * gain
  {
    MulLe(3 * (u + v) - 3, 4 * gain, a);
    GainSpread(u, v, gain, a);
    GainCancels(price, a, gain * a, gain);
  }

  lemma GainSpread(u: int, v: int, gain: int, a: int)
    ensures (3 * (u + v) - 3) * a == 3 * (u * a) + 3 * (v * a) - 3 * a && (4 * gain) * a == 4 * (gain * a)
  {}

  lemma GainCancels(price: int, a: int, scaled: int, gain: int)
    requires 0 < price && 0 < a <= 6 * ONE * price && scaled == gain * a && 6 * ONE * ONE <= scaled
    ensures ONE <= price * gain
  {
    MulLe(6 * ONE * ONE, scaled, price);
    SwapInts(gain, a, price);
    if price * gain < ONE { MulLt(price * gain, ONE, a); }
  }

  lemma MulByZero(x: Fixed)
    ensures Mul(x, 0) == 0
  {}

  lemma ReaderCharges(p: FeePrices)
    ensures Fees.ChargesFor(p, READER) == Fees.Charges(p.readFactor, 0, 0, 0, 0)
  {
    MulByOne(p.readFactor);
    MulByZero(p.computeFactor);
    MulByZero(p.blockUsageFactor);
    MulByZero(p.writeFactor);
  }

  lemma ReaderWeight(r: Fixed)
    requires r >= 0
    ensures Fees.Weight(Fees.Charges(r, 0, 0, 0, 0)) == r
  {}

  lemma ReaderCost(p: FeePrices)
    requires p.readFactor >= 0
    ensures Fees.OverallCost(p, READER) == Mul(p.overallPrice, p.readFactor)
  {
    ReaderCharges(p);
    ReaderWeight(p.readFactor);
  }

  lemma FirstPower(x: Fixed)
    ensures Power(x, 1) == x
  {
    MulByOne(x);
    assert PowerFrom(x, Mul(x, x), 0) == x;
  }

  lemma ReaderQuote(p: FeePrices, a: Fixed, h: Fixed)
    requires p.readFactor >= 0 && PriceCurve.MaxPriceAdjustment(a) == h
    ensures CostWithMargin(p, READER, a, 1) == Mul(Mul(p.overallPrice, p.readFactor), h)
  {
    ReaderCost(p);
    FirstPower(h);
  }

  lemma ReaderPays(price: Fixed, first: Fixed, g: Fixed)
    requires 0 < first <= price < I128_MAX && ONE <= g && ONE <= first * (g - ONE)
    ensures price < Mul(price, g)
  {
    MulNonneg(price, g);
    MulLe(first, price, g - ONE);
    assert price * g == price * ONE + price * (g - ONE);
    FloorDivAtLeast(price * g, ONE, price + 1);
  }

  lemma CurveGains(a: Fixed) returns (u: int, v: int)
    requires a >= ONE
    ensures PriceCurve.HighestMultiplier(a) == ONE + u && PriceCurve.LowestMultiplier(a) == ONE - v && 0 < u <= v
    ensures CurveTable.HIGHEST * ONE <= u * a && (1 - CurveTable.LOWEST) * ONE <= v * a
  {
    u, v := CeilDiv(CurveTable.HIGHEST * ONE, a), CeilDiv((1 - CurveTable.LOWEST) * ONE, a);
    CeilDivAtMost(CurveTable.HIGHEST * ONE, a, u);
    CeilDivAtMost((1 - CurveTable.LOWEST) * ONE, a, v);
    CeilDivAtMost(CurveTable.HIGHEST * ONE, a, 0);
    CeilDivMono(CurveTable.HIGHEST * ONE, (1 - CurveTable.LOWEST) * ONE, a);
  }

  /** What a read-heavy block makes of factors of one. */
  lemma ReadHeavyUpdate(p: FeePrices, minRatio: Fixed, scaling: Scaling, slack: int, h: Fixed, l: Fixed, u: int, v: int)
    returns (q: FeePrices)
    requires p.Factors() == ONES && IsFraction(minRatio) && Steady(l, slack) && Unbinding(h, l, minRatio)
    requires scaling(99 * PriceCurve.STEP) == h == ONE + u <= 6 * ONE && scaling(1) == l == ONE - v && 0 < u <= v
    ensures q == Updated(p, READ_HEAVY, minRatio, scaling)
    ensures q.overallPrice == NextPrice(p.overallPrice, h) && 3 * (u + v) - 3 <= 4 * (q.readFactor - ONE)
  {
    q := Updated(p, READ_HEAVY, minRatio, scaling);
    ReadHeavyMultipliers(scaling, h, l);
    UpdatedParts(p, READ_HEAVY, minRatio, scaling);
    ReadFactorIs(p.Factors(), Multipliers(READ_HEAVY, scaling), h, l, minRatio, slack);
    ReadFactorGains(h, l, u, v, CeilDiv(h + 3 * l, 4), q.readFactor);
  }

  lemma QuoteBelowPrice(first: Fixed, b: Fixed, h: Fixed)
    requires MIN_COST <= first && ONE <= b <= h
    ensures Mul(Mul(first, ONE), b) <= NextPrice(first, h) && first <= NextPrice(first, h)
  {
    MulByOne(first);
    MulMonotone(first, b, first, h);
    MulMonotone(first, ONE, first, h);
  }

  /** `a`, `u` and `v` as on the price curve, `b` the advertised multiplier. */
  lemma ReaderMissed(p: FeePrices, q: FeePrices, b: Fixed, h: Fixed, a: int, u: int, v: int)
    requires MIN_COST <= p.overallPrice && ONE <= b <= h && q.overallPrice == NextPrice(p.overallPrice, h) < I128_MAX
    requires 0 < a <= I128_MAX && a <= 6 * ONE * p.overallPrice && 0 < u <= v
    requires CurveTable.HIGHEST * ONE <= u * a && (1 - CurveTable.LOWEST) * ONE <= v * a
    requires 3 * (u + v) - 3 <= 4 * (q.readFactor - ONE)
    ensures Fees.OverallCost(q, READER) > Mul(Mul(p.overallPrice, ONE), b)
  {
    GainCounts(p.overallPrice, a, u, v, q.readFactor - ONE);
    QuoteBelowPrice(p.overallPrice, b, h);
    ReaderPays(q.overallPrice, p.overallPrice, q.readFactor);
    ReaderCost(q);
  }

  lemma PriceInRange(first: Fixed, h: Fixed)
    requires 0 <= first && 0 <= h && first * h < I128_MAX * ONE
    ensures NextPrice(first, h) < I128_MAX
  {
    MulNonneg(first, h);
    FloorDivAtLeast(first * h, ONE, I128_MAX);
  }

  /** A steepness parameter that keeps runs stable, factors of one, a minimum ratio that does not bind, and a price that
      is neither about to saturate nor tiny for the steepness. */
  predicate Vulnerable(p: FeePrices, minRatio: Fixed, a: Fixed, slack: int) {
    && p.Factors() == ONES && Stable(a, slack, minRatio) && MIN_COST <= p.overallPrice
    && Unbinding(PriceCurve.HighestMultiplier(a), PriceCurve.LowestMultiplier(a), minRatio)
    && a <= 6 * ONE * p.overallPrice
    && p.overallPrice * PriceCurve.HighestMultiplier(a) < I128_MAX * ONE
  }

  /** In all these cases one read-heavy block raises a reader's fee beyond a quote with one block of margin, because the
      read factor rises on top of the price. */
  lemma MarginMissesFactors(p: FeePrices, minRatio: Fixed, a: Fixed, slack: int)
    requires Vulnerable(p, minRatio, a, slack)
    ensures ValidBlock(READ_HEAVY)
    ensures Fees.OverallCost(Updated(p, READ_HEAVY, minRatio, CurveScaling(a)), READER)
            > CostWithMargin(p, READER, a, 1)
  {
    ScalingAtEnds(a);
    CurveScales(a);
    var u, v := CurveGains(a);
    var h, l: Fixed := CurveScaling(a)(99 * PriceCurve.STEP), CurveScaling(a)(1);
    var q := ReadHeavyUpdate(p, minRatio, CurveScaling(a), slack, h, l, u, v);
    PriceInRange(p.overallPrice, h);
    AdvertisedNear(a);
    ReaderMissed(p, q, PriceCurve.MaxPriceAdjustment(a), h, a, u, v);
    ReaderQuote(p, a, PriceCurve.MaxPriceAdjustment(a));
  }

  // ----- The initial parameters -----

  lemma EndsAtHundred(a: Fixed)
    requires a == HUNDRED
    ensures PriceCurve.HighestMultiplier(a) == 19294394072344104141
    ensures PriceCurve.LowestMultiplier(a) == 17599094075074997944
    ensures CurveMean(a, 152) == 17599094075074997907
  {}

  /** Under the initial parameters factors rise by less than 9.64 percent per block. */
  lemma InitialFactorRate(a: Fixed)
    requires a == HUNDRED
    ensures CurveMean(a, 152) > 0 && FactorRate(a, 152) <= 1.0964
  {
    EndsAtHundred(a);
  }

  lemma InitialUnbinding(h: int, l: int, minRatio: Fixed)
    requires h == 19294394072344104141 && l == 17599094075074997944 && minRatio == ONE / 4
    ensures Unbinding(h, l, minRatio)
  {}

  /** The initial parameters are such a case. */
  lemma InitialVulnerable(p: FeePrices, minRatio: Fixed, a: Fixed)
    requires p == INITIAL_PRICES && minRatio == ONE / 4 && a == HUNDRED
    ensures Vulnerable(p, minRatio, a, 152)
  {
    EndsAtHundred(a);
    SafeParameters(a, minRatio);
    InitialUnbinding(PriceCurve.HighestMultiplier(a), PriceCurve.LowestMultiplier(a), minRatio);
  }
}
