/** Transaction fees: normalisation against block limits, the fee formula, and its bounds. */
module Fees {
  import opened Arithmetic
  import opened FixedPoint
  import opened FeeMarket
  import opened Options

  /** Modelled cost of a transaction or block, or the limits of a block. */
  datatype SyntheticCost = SyntheticCost(
    readTime: U64, computeTime: U64, blockUsage: U64, bytesWritten: U64, bytesChurned: U64)

  function SatAdd(a: U64, b: U64): U64 { Min(a + b, U64_MAX) }

  function AddCost(x: SyntheticCost, y: SyntheticCost): SyntheticCost {
    SyntheticCost(SatAdd(x.readTime, y.readTime), SatAdd(x.computeTime, y.computeTime),
                  SatAdd(x.blockUsage, y.blockUsage), SatAdd(x.bytesWritten, y.bytesWritten),
                  SatAdd(x.bytesChurned, y.bytesChurned))
  }

  /** Dimensions as fractions of the limits, before the check. */
  function Fractions(x: SyntheticCost, limits: SyntheticCost): NormalizedCost {
    NormalizedCost(FromU64Div(x.readTime, limits.readTime), FromU64Div(x.computeTime, limits.computeTime),
                   FromU64Div(x.blockUsage, limits.blockUsage), FromU64Div(x.bytesWritten, limits.bytesWritten),
                   FromU64Div(x.bytesChurned, limits.bytesChurned))
  }

  /** `normalize`: none when some dimension exceeds its limit. */
  function Normalize(x: SyntheticCost, limits: SyntheticCost): Option<NormalizedCost> {
    var n := Fractions(x, limits);
    if n.readTime > ONE || n.computeTime > ONE || n.blockUsage > ONE || n.bytesWritten > ONE || n.bytesChurned > ONE
    then None else Some(n)
  }

  /** What each dimension is charged before the overall price. */
  datatype Charges = Charges(read: Fixed, compute: Fixed, usage: Fixed, write: Fixed, churn: Fixed)
  {
    function Utilization(): Fixed { Max(read, Max(compute, usage)) }
  }

  function ChargesFor(p: FeePrices, n: NormalizedCost): Charges {
    Charges(Mul(p.readFactor, n.readTime), Mul(p.computeFactor, n.computeTime), Mul(p.blockUsageFactor, n.blockUsage),
            Mul(p.writeFactor, n.bytesWritten), Mul(p.writeFactor, n.bytesChurned))
  }

  function Weight(c: Charges): Fixed { Add(Add(c.Utilization(), c.write), c.churn) }

  /** `overall_cost`: the dearest of the three utilisation charges, plus writes and churn, times the overall price. */
  function OverallCost(p: FeePrices, n: NormalizedCost): Fixed { Mul(p.overallPrice, Weight(ChargesFor(p, n))) }

  // ----- Normalisation -----

  /** The one case in which a fraction wraps: a limit of one and a cost of at least 2^63. */
  predicate Wraps(a: U64, limit: U64) { limit == 1 && a >= 0x8000_0000_0000_0000 }

  /** One dimension passes the check when it is within a positive limit, or wraps. */
  predicate Passes(a: U64, limit: U64) { limit > 0 && (a <= limit || Wraps(a, limit)) }

  lemma DimensionPassesIff(a: U64, limit: U64)
    ensures FromU64Div(a, limit) <= ONE <==> Passes(a, limit)
  {
    if limit > 0 {
      FromU64DivExactIff(a, limit);
      CeilDivAtMost(a * ONE, limit, ONE);
    }
  }

  predicate AllPass(x: SyntheticCost, limits: SyntheticCost) {
    && Passes(x.readTime, limits.readTime)
    && Passes(x.computeTime, limits.computeTime)
    && Passes(x.blockUsage, limits.blockUsage)
    && Passes(x.bytesWritten, limits.bytesWritten)
    && Passes(x.bytesChurned, limits.bytesChurned)
  }

  predicate Within(x: SyntheticCost, y: SyntheticCost) {
    && x.readTime <= y.readTime
    && x.computeTime <= y.computeTime
    && x.blockUsage <= y.blockUsage
    && x.bytesWritten <= y.bytesWritten
    && x.bytesChurned <= y.bytesChurned
  }

  /** Limits of at least two in every dimension. */
  predicate Sane(limits: SyntheticCost) { Within(SyntheticCost(2, 2, 2, 2, 2), limits) }

  /** `normalize` accepts a cost exactly when every dimension passes, which for sane limits means within the limits. */
  lemma NormalizeIff(x: SyntheticCost, limits: SyntheticCost)
    ensures Normalize(x, limits).Some? <==> AllPass(x, limits)
    ensures Sane(limits) ==> (Normalize(x, limits).Some? <==> Within(x, limits))
  {
    DimensionPassesIff(x.readTime, limits.readTime);
    DimensionPassesIff(x.computeTime, limits.computeTime);
    DimensionPassesIff(x.blockUsage, limits.blockUsage);
    DimensionPassesIff(x.bytesWritten, limits.bytesWritten);
    DimensionPassesIff(x.bytesChurned, limits.bytesChurned);
  }

  /** The check of one dimension agrees with its limit except for a limit of zero met exactly, which is rejected,
      and a limit of one exceeded by at least 2^63, which is accepted. */
  lemma DimensionCheckedIff(a: U64, limit: U64)
    ensures (FromU64Div(a, limit) <= ONE <==> a <= limit)
            <==> !(a == limit == 0) && !Wraps(a, limit)
  {
    DimensionPassesIff(a, limit);
  }

  /** Both disagreements happen. */
  lemma DimensionMisjudged()
    ensures FromU64Div(0x8000_0000_0000_0000, 1) <= ONE && FromU64Div(0, 0) > ONE
  {
    DimensionPassesIff(0x8000_0000_0000_0000, 1);
  }

  /** A larger cost never gives a smaller fraction, except when the larger one alone wraps. */
  lemma FractionMonotoneIff(a: U64, b: U64, limit: U64)
    requires a <= b
    ensures FromU64Div(a, limit) <= FromU64Div(b, limit) <==> Wraps(a, limit) || !Wraps(b, limit)
    ensures !Wraps(a, limit) ==> 0 <= FromU64Div(a, limit)
  {
    if limit > 0 {
      FromU64DivExactIff(a, limit);
      FromU64DivExactIff(b, limit);
      CeilDivAtMost(a * ONE, limit, -1);
      CeilDivMono(a * ONE, b * ONE, limit);
      if Wraps(a, limit) {
        CeilDivUnique(a * ONE, 1, a * ONE);
        CeilDivUnique(b * ONE, 1, b * ONE);
      }
    }
  }

  lemma FractionSubadditive(a: U64, b: U64, limit: U64)
    requires !Wraps(SatAdd(a, b), limit)
    ensures FromU64Div(SatAdd(a, b), limit) <= FromU64Div(a, limit) + FromU64Div(b, limit)
  {
    if limit > 0 {
      FromU64DivExactIff(a, limit);
      FromU64DivExactIff(b, limit);
      FromU64DivExactIff(SatAdd(a, b), limit);
      CeilDivSubadditive(a * ONE, b * ONE, limit);
      CeilDivMono(SatAdd(a, b) * ONE, a * ONE + b * ONE, limit);
    }
  }

  lemma FractionIsLeast(a: U64, limit: U64, f: int)
    requires limit > 0 && !Wraps(a, limit)
    ensures FromU64Div(a, limit) <= f <==> a * ONE <= f * limit
  {
    FromU64DivExactIff(a, limit);
    CeilDivAtMost(a * ONE, limit, f);
  }

  /** The fractions of an accepted cost: in every dimension the least one that is worth the cost at that limit. */
  lemma NormalizedMeaning(x: SyntheticCost, limits: SyntheticCost, f: int)
    requires Normalize(x, limits).Some? && Unwrapped(x, limits)
    ensures var n := Normalize(x, limits).value;
            && (n.readTime <= f <==> x.readTime * ONE <= f * limits.readTime)
            && (n.computeTime <= f <==> x.computeTime * ONE <= f * limits.computeTime)
            && (n.blockUsage <= f <==> x.blockUsage * ONE <= f * limits.blockUsage)
            && (n.bytesWritten <= f <==> x.bytesWritten * ONE <= f * limits.bytesWritten)
            && (n.bytesChurned <= f <==> x.bytesChurned * ONE <= f * limits.bytesChurned)
  {
    NormalizeIff(x, limits);
    FractionIsLeast(x.readTime, limits.readTime, f);
    FractionIsLeast(x.computeTime, limits.computeTime, f);
    FractionIsLeast(x.blockUsage, limits.blockUsage, f);
    FractionIsLeast(x.bytesWritten, limits.bytesWritten, f);
    FractionIsLeast(x.bytesChurned, limits.bytesChurned, f);
  }

  // ----- Fees on fractions -----

  predicate Nonneg(n: NormalizedCost) {
    0 <= n.readTime && 0 <= n.computeTime && 0 <= n.blockUsage && 0 <= n.bytesWritten && 0 <= n.bytesChurned
  }

  predicate NonnegPrices(p: FeePrices) { p.overallPrice >= 0 && p.Factors().AllAtLeast(0) }

  predicate AtMost(n: NormalizedCost, o: NormalizedCost) {
    && n.readTime <= o.readTime
    && n.computeTime <= o.computeTime
    && n.blockUsage <= o.blockUsage
    && n.bytesWritten <= o.bytesWritten
    && n.bytesChurned <= o.bytesChurned
  }

  /** Every component of `n` is at most the sum of those of `x` and `y`. */
  predicate AtMostSum(n: NormalizedCost, x: NormalizedCost, y: NormalizedCost) {
    && n.readTime <= x.readTime + y.readTime
    && n.computeTime <= x.computeTime + y.computeTime
    && n.blockUsage <= x.blockUsage + y.blockUsage
    && n.bytesWritten <= x.bytesWritten + y.bytesWritten
    && n.bytesChurned <= x.bytesChurned + y.bytesChurned
  }

  predicate ChargesAtMost(c: Charges, d: Charges) {
    && 0 <= c.read <= d.read && 0 <= c.compute <= d.compute && 0 <= c.usage <= d.usage
    && 0 <= c.write <= d.write && 0 <= c.churn <= d.churn
  }

  lemma ChargesMonotone(p: FeePrices, n: NormalizedCost, o: NormalizedCost)
    requires NonnegPrices(p) && Nonneg(n) && AtMost(n, o)
    ensures ChargesAtMost(ChargesFor(p, n), ChargesFor(p, o))
  {
    MulMonotone(p.readFactor, n.readTime, p.readFactor, o.readTime);
    MulMonotone(p.computeFactor, n.computeTime, p.computeFactor, o.computeTime);
    MulMonotone(p.blockUsageFactor, n.blockUsage, p.blockUsageFactor, o.blockUsage);
    MulMonotone(p.writeFactor, n.bytesWritten, p.writeFactor, o.bytesWritten);
    MulMonotone(p.writeFactor, n.bytesChurned, p.writeFactor, o.bytesChurned);
  }

  /** The fee is monotone in every normalised dimension. */
  lemma OverallCostMonotone(p: FeePrices, n: NormalizedCost, o: NormalizedCost)
    requires NonnegPrices(p) && Nonneg(n) && AtMost(n, o)
    ensures 0 <= OverallCost(p, n) <= OverallCost(p, o)
  {
    ChargesMonotone(p, n, o);
    MulMonotone(p.overallPrice, Weight(ChargesFor(p, n)), p.overallPrice, Weight(ChargesFor(p, o)));
  }

  /** The exact weight of a cost: its dearest use of time or space, and all it writes and churns. */
  function ExactWeight(p: FeePrices, n: NormalizedCost): int {
    Max(p.readFactor * n.readTime, Max(p.computeFactor * n.computeTime, p.blockUsageFactor * n.blockUsage))
    + p.writeFactor * (n.bytesWritten + n.bytesChurned)
  }

  /** `x` is `exact` over 2^64, less at most `roundings` units. */
  predicate Near(x: int, exact: int, roundings: int) { x * ONE <= exact < (x + roundings) * ONE }

  /** Charges next to the exact products they round down, unless those are out of range. */
  ghost predicate ChargedNear(c: Fixed, x: int) {
    0 <= c && 0 <= x && c * ONE <= x && (x < I128_MAX * ONE ==> Near(c, x, 1))
  }

  lemma ChargeNear(f: Fixed, x: Fixed)
    requires 0 <= f && 0 <= x
    ensures ChargedNear(Mul(f, x), f * x)
  {
    MulNonneg(f, x);
    MulMono(0, 0, f, x);
    FloorDivAtLeast(f * x, ONE, I128_MAX);
  }

  lemma UtilizationNear(c: Charges, a: int, b: int, d: int)
    requires c.read * ONE <= a && c.compute * ONE <= b && c.usage * ONE <= d
    ensures c.Utilization() * ONE <= Max(a, Max(b, d))
    ensures Near(c.read, a, 1) && Near(c.compute, b, 1) && Near(c.usage, d, 1) ==>
              Near(c.Utilization(), Max(a, Max(b, d)), 1)
  {}

  lemma SumNear(u: Fixed, w: Fixed, h: Fixed, x: int, y: int, z: int)
    requires 0 <= u && 0 <= w && 0 <= h && u * ONE <= x && w * ONE <= y && h * ONE <= z
    ensures 0 <= Add(Add(u, w), h) && Add(Add(u, w), h) * ONE <= x + y + z
    ensures Near(u, x, 1) && Near(w, y, 1) && Near(h, z, 1) && x + y + z < I128_MAX * ONE ==>
              Near(Add(Add(u, w), h), x + y + z, 3)
  {
    SaturatedSum(u, w, h);
  }

  lemma WeightOfCharges(c: Charges, x: int, y: int, z: int, v: int, h: int)
    requires ChargedNear(c.read, x) && ChargedNear(c.compute, y) && ChargedNear(c.usage, z)
    requires ChargedNear(c.write, v) && ChargedNear(c.churn, h)
    ensures var exact := Max(x, Max(y, z)) + v + h;
            && 0 <= Weight(c) && Weight(c) * ONE <= exact
            && (exact < I128_MAX * ONE ==> Near(Weight(c), exact, 3))
  {
    UtilizationNear(c, x, y, z);
    SumNear(c.Utilization(), c.write, c.churn, Max(x, Max(y, z)), v, h);
  }

  lemma ExactWeightSpread(p: FeePrices, n: NormalizedCost)
    ensures ExactWeight(p, n)
            == Max(p.readFactor * n.readTime, Max(p.computeFactor * n.computeTime, p.blockUsageFactor * n.blockUsage))
               + p.writeFactor * n.bytesWritten + p.writeFactor * n.bytesChurned
  {
    assert p.writeFactor * (n.bytesWritten + n.bytesChurned)
           == p.writeFactor * n.bytesWritten + p.writeFactor * n.bytesChurned;
  }

  lemma WeightNear(p: FeePrices, n: NormalizedCost)
    requires NonnegPrices(p) && Nonneg(n)
    ensures var w := Weight(ChargesFor(p, n));
            && 0 <= w && w * ONE <= ExactWeight(p, n)
            && (ExactWeight(p, n) < I128_MAX * ONE ==> Near(w, ExactWeight(p, n), 3))
  {
    ChargeNear(p.readFactor, n.readTime);
    ChargeNear(p.computeFactor, n.computeTime);
    ChargeNear(p.blockUsageFactor, n.blockUsage);
    ChargeNear(p.writeFactor, n.bytesWritten);
    ChargeNear(p.writeFactor, n.bytesChurned);
    ExactWeightSpread(p, n);
    WeightOfCharges(ChargesFor(p, n), p.readFactor * n.readTime, p.computeFactor * n.computeTime,
                    p.blockUsageFactor * n.blockUsage, p.writeFactor * n.bytesWritten, p.writeFactor * n.bytesChurned);
  }

  lemma PriceOfWeight(price: int, w: int, exact: int, cost: int)
    requires 0 <= price && cost * ONE <= price * w && w * ONE <= exact
    ensures cost * ONE * ONE <= price * exact
  {
    MulLe(w * ONE, exact, price);
    assert (w * ONE) * price == (price * w) * ONE;
  }

  lemma PriceAboveWeight(price: int, w: int, exact: int, cost: int)
    requires 0 <= price && price * w < (cost + 1) * ONE && exact < (w + 3) * ONE
    ensures price * exact < (cost + 1) * ONE * ONE + 3 * price * ONE + 1
  {
    MulLe(exact, (w + 3) * ONE, price);
    assert ((w + 3) * ONE) * price == (price * w) * ONE + 3 * price * ONE;
  }

  /** The fee before conversion against the exact formula: never above price times weight, and below it by at most three
      units of price and one more unit, unless something saturates. */
  lemma CostFormula(p: FeePrices, n: NormalizedCost)
    requires NonnegPrices(p) && Nonneg(n)
    ensures OverallCost(p, n) * ONE * ONE <= p.overallPrice * ExactWeight(p, n)
    ensures ExactWeight(p, n) < I128_MAX * ONE && OverallCost(p, n) != I128_MAX ==>
              p.overallPrice * ExactWeight(p, n) <= (OverallCost(p, n) + 1) * ONE * ONE + 3 * p.overallPrice * ONE
  {
    WeightNear(p, n);
    var w := Weight(ChargesFor(p, n));
    MulNonneg(p.overallPrice, w);
    PriceOfWeight(p.overallPrice, w, ExactWeight(p, n), OverallCost(p, n));
    if ExactWeight(p, n) < I128_MAX * ONE && OverallCost(p, n) != I128_MAX {
      PriceAboveWeight(p.overallPrice, w, ExactWeight(p, n), OverallCost(p, n));
    }
  }

  /** Rounding down a product of a sum gains at most one unit over the separate products. */
  lemma MulSubadditive(f: Fixed, x: Fixed, y: Fixed, z: Fixed)
    requires 0 <= f && 0 <= x && 0 <= y && 0 <= z <= x + y
    ensures Mul(f, z) <= Mul(f, x) + Mul(f, y) + 1
  {
    MulNonneg(f, x);
    MulNonneg(f, y);
    MulNonneg(f, z);
    MulLe(z, x + y, f);
    assert (x + y) * f == f * x + f * y;
  }

  /** `c` exceeds the sum of `x` and `y` by at most one unit per charge. */
  predicate ChargesNearSum(c: Charges, x: Charges, y: Charges) {
    && c.read <= x.read + y.read + 1
    && c.compute <= x.compute + y.compute + 1
    && c.usage <= x.usage + y.usage + 1
    && c.write <= x.write + y.write + 1
    && c.churn <= x.churn + y.churn + 1
  }

  lemma ChargesSubadditive(p: FeePrices, n: NormalizedCost, x: NormalizedCost, y: NormalizedCost)
    requires NonnegPrices(p) && Nonneg(n) && Nonneg(x) && Nonneg(y) && AtMostSum(n, x, y)
    ensures ChargesNearSum(ChargesFor(p, n), ChargesFor(p, x), ChargesFor(p, y))
  {
    MulSubadditive(p.readFactor, x.readTime, y.readTime, n.readTime);
    MulSubadditive(p.computeFactor, x.computeTime, y.computeTime, n.computeTime);
    MulSubadditive(p.blockUsageFactor, x.blockUsage, y.blockUsage, n.blockUsage);
    MulSubadditive(p.writeFactor, x.bytesWritten, y.bytesWritten, n.bytesWritten);
    MulSubadditive(p.writeFactor, x.bytesChurned, y.bytesChurned, n.bytesChurned);
  }

  lemma WeightSubadditive(c: Charges, x: Charges, y: Charges)
    requires ChargesNearSum(c, x, y) && ChargesAtMost(c, c) && ChargesAtMost(x, x) && ChargesAtMost(y, y)
    ensures 0 <= Weight(c) <= Weight(x) + Weight(y) + 3
  {
    UtilizationSubadditive(c, x, y);
    SaturatedSum(c.Utilization(), c.write, c.churn);
    SaturatedSum(x.Utilization(), x.write, x.churn);
    SaturatedSum(y.Utilization(), y.write, y.churn);
  }

  lemma UtilizationSubadditive(c: Charges, x: Charges, y: Charges)
    requires ChargesNearSum(c, x, y) && ChargesAtMost(c, c) && ChargesAtMost(x, x) && ChargesAtMost(y, y)
    ensures 0 <= c.Utilization() <= x.Utilization() + y.Utilization() + 1
    ensures 0 <= x.Utilization() && 0 <= y.Utilization()
  {}

  lemma SaturatedSum(a: Fixed, b: Fixed, c: Fixed)
    requires 0 <= a && 0 <= b && 0 <= c
    ensures Add(Add(a, b), c) == Min(I128_MAX, a + b + c)
  {}

  lemma FeeSum(price: Fixed, w: Fixed, x: Fixed, y: Fixed)
    requires 0 <= price && 0 <= x && 0 <= y && 0 <= w <= x + y + 3
    ensures Mul(price, w) * ONE <= (Mul(price, x) + Mul(price, y) + 2) * ONE + 3 * price
  {
    MulNonneg(price, w);
    MulNonneg(price, x);
    MulNonneg(price, y);
    MulLe(w, x + y + 3, price);
    assert (x + y + 3) * price == price * x + price * y + 3 * price;
  }

  /** The fee of a combined cost exceeds the sum of the separate fees by at most three units of price and
      two roundings. */
  lemma OverallCostSubadditive(p: FeePrices, n: NormalizedCost, x: NormalizedCost, y: NormalizedCost)
    requires NonnegPrices(p) && Nonneg(n) && Nonneg(x) && Nonneg(y) && AtMostSum(n, x, y)
    ensures OverallCost(p, n) * ONE <= (OverallCost(p, x) + OverallCost(p, y) + 2) * ONE + 3 * p.overallPrice
  {
    ChargesSubadditive(p, n, x, y);
    ChargesMonotone(p, n, n);
    ChargesMonotone(p, x, x);
    ChargesMonotone(p, y, y);
    WeightSubadditive(ChargesFor(p, n), ChargesFor(p, x), ChargesFor(p, y));
    FeeSum(p.overallPrice, Weight(ChargesFor(p, n)), Weight(ChargesFor(p, x)), Weight(ChargesFor(p, y)));
  }

  // ----- Fees on costs -----

  /** No dimension wraps. Limits of at least two rule it out for every cost. */
  predicate Unwrapped(x: SyntheticCost, limits: SyntheticCost) {
    && !Wraps(x.readTime, limits.readTime)
    && !Wraps(x.computeTime, limits.computeTime)
    && !Wraps(x.blockUsage, limits.blockUsage)
    && !Wraps(x.bytesWritten, limits.bytesWritten)
    && !Wraps(x.bytesChurned, limits.bytesChurned)
  }

  lemma FractionsMonotone(x: SyntheticCost, y: SyntheticCost, limits: SyntheticCost)
    requires Unwrapped(y, limits) && Within(x, y)
    ensures Nonneg(Fractions(x, limits)) && AtMost(Fractions(x, limits), Fractions(y, limits))
  {
    FractionMonotoneIff(x.readTime, y.readTime, limits.readTime);
    FractionMonotoneIff(x.computeTime, y.computeTime, limits.computeTime);
    FractionMonotoneIff(x.blockUsage, y.blockUsage, limits.blockUsage);
    FractionMonotoneIff(x.bytesWritten, y.bytesWritten, limits.bytesWritten);
    FractionMonotoneIff(x.bytesChurned, y.bytesChurned, limits.bytesChurned);
  }

  lemma FractionsSubadditive(x: SyntheticCost, y: SyntheticCost, limits: SyntheticCost)
    requires Unwrapped(AddCost(x, y), limits)
    ensures AtMostSum(Fractions(AddCost(x, y), limits), Fractions(x, limits), Fractions(y, limits))
  {
    FractionSubadditive(x.readTime, y.readTime, limits.readTime);
    FractionSubadditive(x.computeTime, y.computeTime, limits.computeTime);
    FractionSubadditive(x.blockUsage, y.blockUsage, limits.blockUsage);
    FractionSubadditive(x.bytesWritten, y.bytesWritten, limits.bytesWritten);
    FractionSubadditive(x.bytesChurned, y.bytesChurned, limits.bytesChurned);
  }

  /** `fees`: the fee in atomic units, or none when the cost exceeds the block limits. */
  function Fee(x: SyntheticCost, limits: SyntheticCost, p: FeePrices, baseUnit: U128): Option<U128> {
    match Normalize(x, limits)
    case None => None
    case Some(n) => Some(IntoAtomicUnits(OverallCost(p, n), baseUnit))
  }

  /** The fee of a cost that passes is the least amount worth the price of its fractions, or the cap. */
  lemma FeeMeaning(x: SyntheticCost, limits: SyntheticCost, p: FeePrices, baseUnit: U128, n: U128)
    ensures Fee(x, limits, p, baseUnit).Some? <==> AllPass(x, limits)
    ensures AllPass(x, limits) ==>
              (Fee(x, limits, p, baseUnit).value <= n
               <==> OverallCost(p, Fractions(x, limits)) * baseUnit <= n * ONE || n == U128_MAX)
  {
    NormalizeIff(x, limits);
    AtomicUnitsLeast(OverallCost(p, Fractions(x, limits)), baseUnit, n);
  }

  /** A larger cost never pays less: if it fits a block at all, so does the smaller one, at no higher fee. */
  lemma FeeMonotone(x: SyntheticCost, y: SyntheticCost, limits: SyntheticCost, p: FeePrices, baseUnit: U128)
    requires Unwrapped(y, limits) && NonnegPrices(p) && Within(x, y) && Fee(y, limits, p, baseUnit).Some?
    ensures Fee(x, limits, p, baseUnit).Some? && Fee(x, limits, p, baseUnit).value <= Fee(y, limits, p, baseUnit).value
  {
    NormalizeIff(x, limits);
    NormalizeIff(y, limits);
    FractionsMonotone(x, y, limits);
    var n, o := Fractions(x, limits), Fractions(y, limits);
    OverallCostMonotone(p, n, o);
    AtomicUnitsMonotone(OverallCost(p, n), OverallCost(p, o), baseUnit);
  }

  predicate CombinesFairly(x: SyntheticCost, y: SyntheticCost, limits: SyntheticCost, p: FeePrices) {
    var nx, ny, n := Fractions(x, limits), Fractions(y, limits), Fractions(AddCost(x, y), limits);
    && OverallCost(p, n) * ONE <= (OverallCost(p, nx) + OverallCost(p, ny) + 2) * ONE + 3 * p.overallPrice
    && OverallCost(p, nx) <= OverallCost(p, n) && OverallCost(p, ny) <= OverallCost(p, n)
  }

  /** Combining two costs gains at most three units of price and two roundings over paying for them separately,
      and never costs less than either. */
  lemma CombinedFee(x: SyntheticCost, y: SyntheticCost, limits: SyntheticCost, p: FeePrices)
    requires Unwrapped(AddCost(x, y), limits) && NonnegPrices(p)
    ensures CombinesFairly(x, y, limits, p)
  {
    var xy := AddCost(x, y);
    FractionsMonotone(x, xy, limits);
    FractionsMonotone(y, xy, limits);
    FractionsMonotone(xy, xy, limits);
    FractionsSubadditive(x, y, limits);
    var nx, ny, n := Fractions(x, limits), Fractions(y, limits), Fractions(xy, limits);
    OverallCostMonotone(p, nx, n);
    OverallCostMonotone(p, ny, n);
    OverallCostSubadditive(p, n, nx, ny);
  }
}
