/** Fees quoted with a margin of blocks, against the fees after any such run. */
module FeeMargins {
  import opened Arithmetic
  import opened FixedPoint
  import CurveTable
  import PriceCurve
  import opened FeeMarket
  import opened Renormalisation
  import opened FeeSteps
  import opened FeeRuns
  import opened Powers
  import opened PriceRuns
  import opened FactorGrowth
  import opened ExactMarket
  import Fees

  /** `fees_with_margin`, before conversion to atomic units. */
  function CostWithMargin(p: FeePrices, n: NormalizedCost, a: Fixed, margin: Exponent): Fixed {
    Mul(Fees.OverallCost(p, n), Power(PriceCurve.MaxPriceAdjustment(a), margin))
  }

  /** Normalised costs are fractions of the block limits. */
  predicate Normalised(n: NormalizedCost) {
    && IsFraction(n.readTime) && IsFraction(n.computeTime) && IsFraction(n.blockUsage)
    && IsFraction(n.bytesWritten) && IsFraction(n.bytesChurned)
  }

  // ----- Charges under risen factors -----

  /** `c` is at most `d` and `roundings` units, times `growth`. */
  ghost predicate GrownFrom(c: int, d: int, growth: real, roundings: real) {
    c as real <= (d as real + roundings) * growth
  }

  lemma ChargeChain(c: real, f: real, r: real, x: real, d: real, k: real, w: real)
    requires c <= f * x && 0.0 <= x <= 1.0 && f <= (r + k) * w && r * x <= d + 1.0 && 1.0 <= w && 0.0 <= k
    ensures c <= (d + (1.0 + k)) * w
  {
    ScaleReals(f, (r + k) * w, x);
    Swap(r + k, w, x);
    Spread(r, k, x);
    ScaleReals(x, 1.0, k);
    ScaleReals((r + k) * x, d + (1.0 + k), w);
  }

  lemma GrownSelf(c: int, d: int, growth: real, roundings: real)
    requires 0 <= d && c <= d && 1.0 <= growth && 0.0 <= roundings
    ensures GrownFrom(c, d, growth, roundings)
  {
    RealMulMono(1.0, d as real, growth, d as real + roundings);
  }

  ghost predicate Below(product: Fixed, f: Fixed, x: Fixed) { product as real <= f as real * Value(x) }

  ghost predicate Above(product: Fixed, f: Fixed, x: Fixed) { f as real * Value(x) <= product as real + 1.0 }

  lemma ProductNear(f: Fixed, x: Fixed)
    requires 0 <= f && 0 <= x
    ensures 0 <= Mul(f, x) && Below(Mul(f, x), f, x) && (Mul(f, x) == I128_MAX || Above(Mul(f, x), f, x))
  {
    MulNonneg(f, x);
    MulAtMost(f, x);
    MulAtLeast(f, x);
  }

  lemma ChargeBetween(c: Fixed, d: Fixed, f: Fixed, r: Fixed, x: Fixed, growth: real, k: nat)
    requires IsFraction(x) && Below(c, f, x) && Above(d, r, x) && RisenAtMost(f, r, growth, k) && 1.0 <= growth
    ensures GrownFrom(c, d, growth, 1.0 + k as real)
  {
    ValueMono(0, x);
    ValueMono(x, ONE);
    ChargeChain(c as real, f as real, r as real, Value(x), d as real, k as real, growth);
  }

  lemma ChargeGrown(f: Fixed, r: Fixed, x: Fixed, growth: real, k: nat)
    requires 0 <= f && 0 <= r && IsFraction(x) && RisenAtMost(f, r, growth, k) && 1.0 <= growth
    ensures GrownFrom(Mul(f, x), Mul(r, x), growth, 1.0 + k as real)
  {
    ProductNear(f, x);
    ProductNear(r, x);
    if Mul(r, x) == I128_MAX {
      GrownSelf(Mul(f, x), Mul(r, x), growth, 1.0 + k as real);
    } else {
      ChargeBetween(Mul(f, x), Mul(r, x), f, r, x, growth, k);
    }
  }

  ghost predicate ChargesGrown(c: Fees.Charges, d: Fees.Charges, growth: real, roundings: real) {
    && GrownFrom(c.read, d.read, growth, roundings)
    && GrownFrom(c.compute, d.compute, growth, roundings)
    && GrownFrom(c.usage, d.usage, growth, roundings)
    && GrownFrom(c.write, d.write, growth, roundings)
    && GrownFrom(c.churn, d.churn, growth, roundings)
  }

  lemma GrownMono(c: int, d: int, e: int, growth: real, roundings: real)
    requires GrownFrom(c, d, growth, roundings) && d <= e && 0.0 <= growth
    ensures GrownFrom(c, e, growth, roundings)
  {
    ScaleReals(d as real + roundings, e as real + roundings, growth);
  }

  lemma UtilizationGrown(c: Fees.Charges, d: Fees.Charges, growth: real, roundings: real)
    requires ChargesGrown(c, d, growth, roundings) && 0.0 <= growth
    ensures GrownFrom(c.Utilization(), d.Utilization(), growth, roundings)
  {
    var top := d.Utilization();
    GrownMono(c.read, d.read, top, growth, roundings);
    GrownMono(c.compute, d.compute, top, growth, roundings);
    GrownMono(c.usage, d.usage, top, growth, roundings);
  }

  lemma GrownSum(a: int, b: int, c: int, x: int, y: int, z: int, growth: real, roundings: real)
    requires GrownFrom(a, x, growth, roundings) && GrownFrom(b, y, growth, roundings)
    requires GrownFrom(c, z, growth, roundings)
    ensures GrownFrom(a + b + c, x + y + z, growth, 3.0 * roundings)
  {
    var r := roundings;
    assert (x as real + r) * growth + (y as real + r) * growth + (z as real + r) * growth
           == ((x + y + z) as real + 3.0 * r) * growth;
  }

  lemma CappedGrown(a: int, b: int, growth: real, roundings: real)
    requires GrownFrom(a, b, growth, roundings) && 0 <= b && 1.0 <= growth && 0.0 <= roundings
    ensures GrownFrom(Min(I128_MAX, a), Min(I128_MAX, b), growth, roundings)
  {
    if b >= I128_MAX { GrownSelf(Min(I128_MAX, a), I128_MAX, growth, roundings); }
  }

  lemma WeightIsSum(c: Fees.Charges)
    requires Fees.ChargesAtMost(c, c)
    ensures Fees.Weight(c) == Min(I128_MAX, c.Utilization() + c.write + c.churn)
    ensures 0 <= c.Utilization() + c.write + c.churn
  {
    Fees.SaturatedSum(c.Utilization(), c.write, c.churn);
  }

  lemma WeightGrown(c: Fees.Charges, d: Fees.Charges, growth: real, roundings: real)
    requires ChargesGrown(c, d, growth, roundings) && Fees.ChargesAtMost(c, c) && Fees.ChargesAtMost(d, d)
    requires 1.0 <= growth && 0.0 <= roundings
    ensures 0 <= Fees.Weight(c) && 0 <= Fees.Weight(d)
    ensures GrownFrom(Fees.Weight(c), Fees.Weight(d), growth, 3.0 * roundings)
  {
    UtilizationGrown(c, d, growth, roundings);
    GrownSum(c.Utilization(), c.write, c.churn, d.Utilization(), d.write, d.churn, growth, roundings);
    WeightIsSum(c);
    WeightIsSum(d);
    CappedGrown(c.Utilization() + c.write + c.churn, d.Utilization() + d.write + d.churn, growth, 3.0 * roundings);
  }

  // ----- Fees under risen factors and prices -----

  /** Every factor of `q` has risen at most so far from that of `r`. */
  ghost predicate FactorsRisen(q: FeePrices, r: FeePrices, growth: real, k: nat) {
    && RisenAtMost(q.readFactor, r.readFactor, growth, k)
    && RisenAtMost(q.computeFactor, r.computeFactor, growth, k)
    && RisenAtMost(q.blockUsageFactor, r.blockUsageFactor, growth, k)
    && RisenAtMost(q.writeFactor, r.writeFactor, growth, k)
  }

  lemma ChargesNonneg(p: FeePrices, n: NormalizedCost)
    requires p.Factors().AllAtLeast(0) && Normalised(n)
    ensures Fees.ChargesAtMost(Fees.ChargesFor(p, n), Fees.ChargesFor(p, n))
  {
    MulNonneg(p.readFactor, n.readTime);
    MulNonneg(p.computeFactor, n.computeTime);
    MulNonneg(p.blockUsageFactor, n.blockUsage);
    MulNonneg(p.writeFactor, n.bytesWritten);
    MulNonneg(p.writeFactor, n.bytesChurned);
  }

  lemma FactorsWeight(q: FeePrices, r: FeePrices, n: NormalizedCost, growth: real, k: nat)
    requires q.Factors().AllAtLeast(0) && r.Factors().AllAtLeast(0) && Normalised(n)
    requires FactorsRisen(q, r, growth, k) && 1.0 <= growth
    ensures var w, v := Fees.Weight(Fees.ChargesFor(r, n)), Fees.Weight(Fees.ChargesFor(q, n));
            0 <= w && 0 <= v && GrownFrom(v, w, growth, 3.0 * (1.0 + k as real))
  {
    ChargeGrown(q.readFactor, r.readFactor, n.readTime, growth, k);
    ChargeGrown(q.computeFactor, r.computeFactor, n.computeTime, growth, k);
    ChargeGrown(q.blockUsageFactor, r.blockUsageFactor, n.blockUsage, growth, k);
    ChargeGrown(q.writeFactor, r.writeFactor, n.bytesWritten, growth, k);
    ChargeGrown(q.writeFactor, r.writeFactor, n.bytesChurned, growth, k);
    ChargesNonneg(q, n);
    ChargesNonneg(r, n);
    WeightGrown(Fees.ChargesFor(q, n), Fees.ChargesFor(r, n), growth, 1.0 + k as real);
  }

  /** The quote, a unit, and what the power makes of one unit and of `roundings` units of weight at the
      starting price. */
  function QuoteSlack(quoted: Fixed, power: Fixed, first: Fixed, roundings: real): real {
    quoted as real + 1.0 + Value(power) * (1.0 + roundings * Value(first))
  }

  /** `quoted` covers `fee`, less a relative loss, up to the growth of the factors and explicit rounding. */
  ghost predicate Covered(fee: Fixed, quoted: Fixed, power: Fixed, first: Fixed, loss: real, growth: real,
                          roundings: real)
  {
    fee as real * loss <= QuoteSlack(quoted, power, first, roundings) * growth
  }

  lemma FeeBelow(fee: real, q: real, v: real, loss: real, b: real)
    requires 0.0 <= v && 0.0 <= loss && fee <= q * v && q * loss <= b
    ensures fee * loss <= b * v
  {
    ScaleReals(fee, q * v, loss);
    Swap(q, v, loss);
    ScaleReals(q * loss, b, v);
  }

  /** In reals: `y <= x * p * v`, `v <= (w + s) * g`, `x * w <= cost + 1`, `cost * p <= quoted + 1`. */
  lemma FeeChain(y: real, v: real, x: real, p: real, w: real, s: real, g: real, cost: real, quoted: real, slack: real)
    requires 0.0 <= x && 0.0 <= p && 0.0 <= g && slack == s * x
    requires y <= (x * p) * v && v <= (w + s) * g && x * w <= cost + 1.0 && cost * p <= quoted + 1.0
    ensures y <= (quoted + 1.0 + p * (1.0 + slack)) * g
  {
    RealMulMono(0.0, 0.0, x, p);
    var b, u := x * p, (w + s) * g;
    ScaleBy(v, u, b);
    QuoteChain(x, p, w, s, g, cost, quoted, slack, b, u);
  }

  lemma QuoteChain(x: real, p: real, w: real, s: real, g: real, cost: real, quoted: real, slack: real, b: real, u: real)
    requires 0.0 <= p && 0.0 <= g && x * w <= cost + 1.0 && cost * p <= quoted + 1.0
    requires slack == s * x && b == x * p && u == (w + s) * g
    ensures b * u <= (quoted + 1.0 + p * (1.0 + slack)) * g
  {
    var y := x * w + slack;
    assert b * (w + s) == p * y;
    ScaleBy(y, cost + 1.0 + slack, p);
    assert p * (cost + 1.0 + slack) == cost * p + p * (1.0 + slack);
    ScaleReals(b * (w + s), quoted + 1.0 + p * (1.0 + slack), g);
    Reassociate(b, w + s, g);
  }

  lemma ValuesGrown(v: Fixed, w: Fixed, growth: real, roundings: real)
    requires GrownFrom(v, w, growth, roundings)
    ensures Value(v) <= (Value(w) + roundings * UNIT) * growth
  {
    ScaleReals(v as real, (w as real + roundings) * growth, UNIT);
    Swap(w as real + roundings, growth, UNIT);
  }

  lemma UnitsOf(roundings: real, first: Fixed)
    ensures (roundings * UNIT) * first as real == roundings * Value(first)
  {
    assert Value(first) == UNIT * first as real;
    Reassociate(roundings, UNIT, first as real);
  }

  /** `fee` times `loss` is at most `first * power * v`. */
  ghost predicate FeeScaled(fee: Fixed, loss: real, first: Fixed, power: Fixed, v: Fixed) {
    fee as real * loss <= (first as real * Value(power)) * Value(v)
  }

  lemma FeeScales(fee: Fixed, q: Fixed, v: Fixed, first: Fixed, power: Fixed, loss: real)
    requires 0 <= v && 0.0 <= loss && Below(fee, q, v) && PriceCovered(first, q, power, loss)
    ensures FeeScaled(fee, loss, first, power, v)
  {
    ValueMono(0, v);
    FeeBelow(fee as real, q as real, Value(v), loss, first as real * Value(power));
  }

  lemma FeeCovered(fee: Fixed, v: Fixed, first: Fixed, w: Fixed, power: Fixed, cost: Fixed, quoted: Fixed,
                   loss: real, growth: real, roundings: real)
    requires 0 <= first && 0 <= power && 0.0 <= growth && FeeScaled(fee, loss, first, power, v)
    requires GrownFrom(v, w, growth, roundings) && Above(cost, first, w) && Above(quoted, cost, power)
    ensures Covered(fee, quoted, power, first, loss, growth, roundings)
  {
    ValueMono(0, power);
    ValuesGrown(v, w, growth, roundings);
    UnitsOf(roundings, first);
    FeeChain(fee as real * loss, Value(v), first as real, Value(power), Value(w), roundings * UNIT, growth,
             cost as real, quoted as real, roundings * Value(first));
  }

  lemma QuoteCovers(q: Fixed, v: Fixed, first: Fixed, w: Fixed, power: Fixed, loss: real, growth: real, roundings: real)
    requires 0 <= q && 0 <= v && 0 <= first && 0 <= w && 0 <= power && 0.0 <= loss && 0.0 <= growth
    requires PriceCovered(first, q, power, loss) && GrownFrom(v, w, growth, roundings)
    requires Mul(first, w) != I128_MAX && Mul(Mul(first, w), power) != I128_MAX
    ensures Covered(Mul(q, v), Mul(Mul(first, w), power), power, first, loss, growth, roundings)
  {
    ProductNear(q, v);
    ProductNear(first, w);
    ProductNear(Mul(first, w), power);
    FeeScales(Mul(q, v), q, v, first, power, loss);
    FeeCovered(Mul(q, v), v, first, w, power, Mul(first, w), Mul(Mul(first, w), power), loss, growth, roundings);
  }

  // ----- Quotes against runs -----

  /** The quote, or one of the numbers it is made of, is at the maximum. */
  predicate Saturated(p: FeePrices, n: NormalizedCost, power: Fixed) {
    power == I128_MAX || Fees.OverallCost(p, n) == I128_MAX || Mul(Fees.OverallCost(p, n), power) == I128_MAX
  }

  /** After every run of blocks the factors have risen at most by the growth rate per block. */
  lemma RunFactorsRisen(p: FeePrices, blocks: seq<Block>, minRatio: Fixed, scaling: Scaling, m: int, h: int, slack: int,
                        c: nat, rho: real, growth: real, r: nat)
    requires r == c + |blocks|
    requires Contained(p, slack, minRatio, 0, (p.readFactor + c) as real)
    requires Contained(p, slack, minRatio, 1, (p.computeFactor + c) as real)
    requires Contained(p, slack, minRatio, 2, (p.blockUsageFactor + c) as real)
    requires Contained(p, slack, minRatio, 3, (p.writeFactor + c) as real)
    requires ValidBlocks(blocks) && Market(minRatio, scaling, m, h, slack, rho)
    requires Allows(growth, Least(p.Factors()), RealPow(rho, |blocks|))
    ensures Sound(Run(p, blocks, minRatio, scaling), slack)
    ensures FactorsRisen(Run(p, blocks, minRatio, scaling), p, growth, r)
  {
    FactorCeiling(p, blocks, minRatio, scaling, m, h, slack, p.readFactor + c, 0, rho, growth, r);
    FactorCeiling(p, blocks, minRatio, scaling, m, h, slack, p.computeFactor + c, 1, rho, growth, r);
    FactorCeiling(p, blocks, minRatio, scaling, m, h, slack, p.blockUsageFactor + c, 2, rho, growth, r);
    FactorCeiling(p, blocks, minRatio, scaling, m, h, slack, p.writeFactor + c, 3, rho, growth, r);
  }

  /** How far prices `q` can lie above prices `r`: factors by `growth`, the overall price by `power` less a loss. */
  ghost predicate Rises(q: FeePrices, r: FeePrices, power: Fixed, loss: real, growth: real, k: nat) {
    && 0 <= q.overallPrice && 0 <= r.overallPrice && 0 <= power && 0.0 <= loss && 1.0 <= growth
    && q.Factors().AllAtLeast(0) && r.Factors().AllAtLeast(0) && FactorsRisen(q, r, growth, k)
    && (power == I128_MAX || PriceCovered(r.overallPrice, q.overallPrice, power, loss))
  }

  /** The quote from prices `r` with `power` covers the fee at prices `q`, or saturates. */
  ghost predicate QuoteHolds(q: FeePrices, r: FeePrices, n: NormalizedCost, power: Fixed, loss: real, growth: real,
                             k: nat)
  {
    Saturated(r, n, power) || Covered(Fees.OverallCost(q, n), Mul(Fees.OverallCost(r, n), power), power,
                                      r.overallPrice, loss, growth, 3.0 * (1.0 + k as real))
  }

  /** From bounds on the price and the factors to a bound on the fee. */
  lemma QuoteFromRises(q: FeePrices, r: FeePrices, n: NormalizedCost, power: Fixed, loss: real, growth: real, k: nat)
    requires Rises(q, r, power, loss, growth, k) && Normalised(n)
    ensures QuoteHolds(q, r, n, power, loss, growth, k)
  {
    FactorsWeight(q, r, n, growth, k);
    if !Saturated(r, n, power) {
      QuoteCovers(q.overallPrice, Fees.Weight(Fees.ChargesFor(q, n)),
                  r.overallPrice, Fees.Weight(Fees.ChargesFor(r, n)), power, loss, growth, 3.0 * (1.0 + k as real));
    }
  }

  /** The advertised multiplier `b` is at most a unit below the largest one, `h`. */
  ghost predicate Advertised(scaling: Scaling, b: Fixed, h: int) {
    ScalesTo(scaling, h) && ONE <= b && ONE <= h <= b + 1 && h <= 6 * ONE
  }

  lemma RunPriceCovered(p: FeePrices, blocks: seq<Block>, minRatio: Fixed, scaling: Scaling, b: Fixed, h: int,
                        margin: Exponent)
    requires p.overallPrice >= MIN_COST && ValidBlocks(blocks) && |blocks| <= margin && Advertised(scaling, b, h)
    ensures var q, power := Run(p, blocks, minRatio, scaling), Power(b, margin);
            && 0 < power && 0 <= q.overallPrice
            && (power == I128_MAX || PriceCovered(p.overallPrice, q.overallPrice, power, RealPow(SHRINK, 2 * margin)))
  {
    RunPrice(p, blocks, minRatio, scaling);
    PriceWithinAdvertised(p.overallPrice, blocks, scaling, b, h, margin);
  }

  lemma RunRises(p: FeePrices, blocks: seq<Block>, minRatio: Fixed, scaling: Scaling, m: int, h: int, slack: int,
                 c: nat, rho: real, growth: real, b: Fixed, margin: Exponent, r: nat)
    returns (q: FeePrices, power: Fixed, loss: real)
    requires r == c + |blocks|
    requires Respectful(p, slack, minRatio, c) && ValidBlocks(blocks) && |blocks| <= margin
    requires Market(minRatio, scaling, m, h, slack, rho) && Advertised(scaling, b, h)
    requires Allows(growth, Least(p.Factors()), RealPow(rho, |blocks|))
    ensures q == Run(p, blocks, minRatio, scaling) && power == Power(b, margin)
    ensures loss == RealPow(SHRINK, 2 * margin)
    ensures Rises(q, p, power, loss, growth, r)
  {
    q, power, loss := Run(p, blocks, minRatio, scaling), Power(b, margin), RealPow(SHRINK, 2 * margin);
    RespectfulContained(p, slack, minRatio, c, 0);
    RespectfulContained(p, slack, minRatio, c, 1);
    RespectfulContained(p, slack, minRatio, c, 2);
    RespectfulContained(p, slack, minRatio, c, 3);
    RunFactorsRisen(p, blocks, minRatio, scaling, m, h, slack, c, rho, growth, r);
    RunPriceCovered(p, blocks, minRatio, scaling, b, h, margin);
    LossNonneg(2 * margin);
  }

  /** For any market whose multipliers exceed the advertised one by at most a unit: a quote from prices that respect the
      minimum ratio up to `c` units covers the fee after every run of at most `margin` blocks, compounded with the
      growth rate of the factors or with any rise the sum of the factors allows. */
  lemma QuoteCoversRun(p: FeePrices, blocks: seq<Block>, minRatio: Fixed, scaling: Scaling, m: int, h: int, slack: int,
                       c: nat, rho: real, growth: real, b: Fixed, n: NormalizedCost, margin: Exponent, r: nat)
    returns (q: FeePrices, power: Fixed, loss: real)
    requires r == c + |blocks|
    requires Respectful(p, slack, minRatio, c) && ValidBlocks(blocks) && |blocks| <= margin && Normalised(n)
    requires Market(minRatio, scaling, m, h, slack, rho) && Advertised(scaling, b, h)
    requires Allows(growth, Least(p.Factors()), RealPow(rho, |blocks|))
    ensures q == Run(p, blocks, minRatio, scaling) && power == Power(b, margin)
    ensures loss == RealPow(SHRINK, 2 * margin)
    ensures QuoteHolds(q, p, n, power, loss, growth, r)
  {
    q, power, loss := RunRises(p, blocks, minRatio, scaling, m, h, slack, c, rho, growth, b, margin, r);
    QuoteFromRises(q, p, n, power, loss, growth, r);
  }

  lemma LossNonneg(n: nat)
    ensures 0.0 <= RealPow(SHRINK, n)
  {
    RealPowNonneg(SHRINK, n);
  }

  /** The least mean an update with the price curve divides by. */
  function CurveMean(a: Fixed, slack: int): int
    requires a >= ONE
  {
    LowMean(PriceCurve.LowestMultiplier(a), slack)
  }

  /** How much faster than the price a factor can rise per block: the largest multiplier over the least mean. */
  ghost function FactorRate(a: Fixed, slack: int): real
    requires a >= ONE && CurveMean(a, slack) > 0
  {
    PriceCurve.HighestMultiplier(a) as real / CurveMean(a, slack) as real
  }

  lemma StableMean(a: Fixed, slack: int, minRatio: Fixed)
    requires Stable(a, slack, minRatio)
    ensures 0 < CurveMean(a, slack) <= ONE
  {
    var m := PriceCurve.LowestMultiplier(a);
    SteadyLowMean(m, slack);
    CeilDivAtMost((1 - CurveTable.LOWEST) * ONE, a, -1);
    MulMono(FOUR - slack, m, FOUR, ONE);
    FloorDivAtLeast((FOUR - slack) * m, ONE, FOUR + 1);
    CeilDivAtMost((FOUR - slack) * m / ONE - 3, 4, ONE);
  }

  lemma CurveAdvertised(a: Fixed)
    requires a >= ONE
    ensures Advertised(CurveScaling(a), PriceCurve.MaxPriceAdjustment(a), PriceCurve.HighestMultiplier(a))
  {
    CurveScalesTo(a);
    AdvertisedNear(a);
    HighestAtMost(a);
  }

  lemma CurveCaps(a: Fixed)
    requires a >= ONE
    ensures Caps(CurveScaling(a), PriceCurve.HighestMultiplier(a)) && ONE <= PriceCurve.HighestMultiplier(a) <= 6 * ONE
  {
    HighestAtMost(a);
    AdvertisedNear(a);
    forall usage: Fixed | IsFraction(usage) ensures CurveScaling(a)(usage) <= PriceCurve.HighestMultiplier(a) {
      PriceCurve.MultiplierBounds(usage, a);
    }
  }

  lemma CurveMarket(a: Fixed, slack: int, minRatio: Fixed)
    requires Stable(a, slack, minRatio)
    ensures 0 < CurveMean(a, slack)
    ensures Market(minRatio, CurveScaling(a), PriceCurve.LowestMultiplier(a), PriceCurve.HighestMultiplier(a), slack,
                   FactorRate(a, slack))
  {
    CurveScales(a);
    CurveCaps(a);
    StableMean(a, slack, minRatio);
    RateOf(PriceCurve.HighestMultiplier(a), CurveMean(a, slack));
  }

  lemma RateOf(h: int, low: int)
    requires 0 < low <= h
    ensures GrowthRate(h as real / low as real, h, low)
  {}

  lemma RunGrowth(p: FeePrices, slack: int, rho: real, k: nat) returns (growth: real)
    requires Sound(p, slack) && 1.0 <= rho
    ensures growth == CappedGrowth(Least(p.Factors()), RealPow(rho, k))
    ensures Allows(growth, Least(p.Factors()), RealPow(rho, k))
  {
    growth := CappedGrowth(Least(p.Factors()), RealPow(rho, k));
    LeastBounds(p.Factors(), 0);
    RealPowGrows(rho, k, k);
    CappedAllowed(Least(p.Factors()), RealPow(rho, k));
  }

  /** A quote with `margin` blocks at the advertised maximum covers, up to the growth rate of the factors per block and
      explicit rounding, the fee after every run of at most that many blocks. */
  lemma MarginCoversFee(p: FeePrices, blocks: seq<Block>, minRatio: Fixed, a: Fixed, slack: int, c: nat,
                        n: NormalizedCost, margin: Exponent, r: nat)
    returns (q: FeePrices, power: Fixed, loss: real, growth: real)
    requires Respectful(p, slack, minRatio, c) && ValidBlocks(blocks) && |blocks| <= margin && Normalised(n)
    requires Stable(a, slack, minRatio) && r == c + |blocks|
    ensures q == Run(p, blocks, minRatio, CurveScaling(a))
    ensures power == Power(PriceCurve.MaxPriceAdjustment(a), margin)
    ensures CostWithMargin(p, n, a, margin) == Mul(Fees.OverallCost(p, n), power)
    ensures loss == RealPow(SHRINK, 2 * margin) && 0 < CurveMean(a, slack)
    ensures growth == CappedGrowth(Least(p.Factors()), RealPow(FactorRate(a, slack), |blocks|))
    ensures QuoteHolds(q, p, n, power, loss, growth, r)
  {
    CurveMarket(a, slack, minRatio);
    CurveAdvertised(a);
    var rho := FactorRate(a, slack);
    growth := RunGrowth(p, slack, rho, |blocks|);
    q, power, loss := QuoteCoversRun(p, blocks, minRatio, CurveScaling(a), PriceCurve.LowestMultiplier(a),
                                     PriceCurve.HighestMultiplier(a), slack, c, rho, growth,
                                     PriceCurve.MaxPriceAdjustment(a), n, margin, r);
  }

  /** Every state the market reaches respects the minimum ratio up to one unit and one unit of 1/mean. */
  lemma ReachedRespectful(p: FeePrices, blocks: seq<Block>, minRatio: Fixed, a: Fixed, slack: int)
    requires Loose(p.Factors(), slack) && ValidBlocks(blocks) && blocks != [] && Stable(a, slack, minRatio)
    ensures 0 < CurveMean(a, slack)
    ensures Respectful(Run(p, blocks, minRatio, CurveScaling(a)), slack, minRatio, RatioSlack(CurveMean(a, slack)))
  {
    CurveScales(a);
    RunRespects(p, blocks, minRatio, CurveScaling(a), PriceCurve.LowestMultiplier(a), slack);
  }

  lemma ReachedState(start: FeePrices, before: seq<Block>, after: seq<Block>, minRatio: Fixed, a: Fixed, slack: int)
    returns (p: FeePrices, c: nat, r: nat)
    requires Loose(start.Factors(), slack) && ValidBlocks(before) && before != [] && Stable(a, slack, minRatio)
    ensures p == Run(start, before, minRatio, CurveScaling(a))
    ensures Run(start, before + after, minRatio, CurveScaling(a)) == Run(p, after, minRatio, CurveScaling(a))
    ensures 0 < CurveMean(a, slack) && c == RatioSlack(CurveMean(a, slack)) && r == c + |after|
    ensures Respectful(p, slack, minRatio, c)
  {
    p := Run(start, before, minRatio, CurveScaling(a));
    ReachedRespectful(start, before, minRatio, a, slack);
    c := RatioSlack(CurveMean(a, slack));
    r := c + |after|;
    RunAppend(start, before, after, minRatio, CurveScaling(a));
  }

  /** Quotes made in any state the market has reached, against the fees any number of blocks later within the margin:
      `before` leads to the state of the quote, `after` on to that of the fee. */
  lemma ReachedQuoteCovers(start: FeePrices, before: seq<Block>, after: seq<Block>, minRatio: Fixed, a: Fixed,
                           slack: int, n: NormalizedCost, margin: Exponent)
    returns (p: FeePrices, q: FeePrices, power: Fixed, loss: real, growth: real, r: nat)
    requires Loose(start.Factors(), slack) && ValidBlocks(before) && before != [] && ValidBlocks(after)
    requires |after| <= margin && Normalised(n) && Stable(a, slack, minRatio)
    ensures p == Run(start, before, minRatio, CurveScaling(a))
    ensures q == Run(start, before + after, minRatio, CurveScaling(a))
    ensures power == Power(PriceCurve.MaxPriceAdjustment(a), margin) && loss == RealPow(SHRINK, 2 * margin)
    ensures CostWithMargin(p, n, a, margin) == Mul(Fees.OverallCost(p, n), power)
    ensures 0 < CurveMean(a, slack) && r == RatioSlack(CurveMean(a, slack)) + |after|
    ensures growth == CappedGrowth(Least(p.Factors()), RealPow(FactorRate(a, slack), |after|))
    ensures QuoteHolds(q, p, n, power, loss, growth, r)
  {
    var c: nat;
    p, c, r := ReachedState(start, before, after, minRatio, a, slack);
    q, power, loss, growth := MarginCoversFee(p, after, minRatio, a, slack, c, n, margin, r);
  }

  /** With a steepness parameter of at least five, fourteen units are enough. */
  lemma RatioSlackAtFive(a: Fixed)
    requires a >= 5 * ONE
    ensures 0 < CurveMean(a, 152) && RatioSlack(CurveMean(a, 152)) <= 14
  {
    LowestAtFive(a);
    var m := PriceCurve.LowestMultiplier(a);
    MulMono(FOUR - 152, 1493744101018478182, FOUR - 152, m);
    FloorDivAtLeast((FOUR - 152) * m, ONE, 5974976404073912700);
    CeilDivAtMost((FOUR - 152) * m / ONE - 3, 4, 1493744101018478170);
    MulMono(13, 1493744101018478171, 13, CurveMean(a, 152));
    CeilDivAtMost(ONE, CurveMean(a, 152), 13);
  }
}
