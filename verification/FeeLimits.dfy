/** For which block limits fees behave: the exact conditions, over every cost and every price. */
module FeeLimits {
  import opened Arithmetic
  import opened FixedPoint
  import opened FeeMarket
  import opened Fees

  /** The limit of one of the five dimensions. */
  function LimitOf(limits: SyntheticCost, d: nat): U64 {
    match d
    case 0 => limits.readTime
    case 1 => limits.computeTime
    case 2 => limits.blockUsage
    case 3 => limits.bytesWritten
    case _ => limits.bytesChurned
  }

  /** A cost in one dimension only. */
  function CostIn(d: nat, amount: U64): SyntheticCost {
    SyntheticCost(if d == 0 then amount else 0, if d == 1 then amount else 0, if d == 2 then amount else 0,
                  if d == 3 then amount else 0, if d == 4 then amount else 0)
  }

  /** A price of one in that dimension only. */
  function PriceIn(d: nat): FeePrices {
    FeePrices(ONE, if d == 0 then ONE else 0, if d == 1 then ONE else 0, if d == 2 then ONE else 0,
              if d >= 3 then ONE else 0)
  }

  const WRAPPING: U64 := 0x8000_0000_0000_0000

  lemma ZeroFraction(limit: U64)
    ensures FromU64Div(0, limit) == if limit == 0 then I128_MAX else 0
  {
    if limit > 0 { CeilDivUnique(0, limit, 0); }
  }

  lemma FractionsIn(d: nat, amount: U64, limits: SyntheticCost)
    requires d < 5 && LimitOf(limits, d) == 1
    ensures var n := Fractions(CostIn(d, amount), limits);
            && (d != 0 ==> 0 <= n.readTime) && (d != 1 ==> 0 <= n.computeTime) && (d != 2 ==> 0 <= n.blockUsage)
            && (d != 3 ==> 0 <= n.bytesWritten) && (d != 4 ==> 0 <= n.bytesChurned)
  {
    ZeroFraction(limits.readTime);
    ZeroFraction(limits.computeTime);
    ZeroFraction(limits.blockUsage);
    ZeroFraction(limits.bytesWritten);
    ZeroFraction(limits.bytesChurned);
  }

  lemma MulZero(x: Fixed)
    ensures Mul(0, x) == 0
  {}

  lemma ChargesIn(d: nat, n: NormalizedCost)
    requires d < 5
    ensures ChargesFor(PriceIn(d), n)
            == Charges(if d == 0 then n.readTime else 0, if d == 1 then n.computeTime else 0,
                       if d == 2 then n.blockUsage else 0, if d >= 3 then n.bytesWritten else 0,
                       if d >= 3 then n.bytesChurned else 0)
  {
    MulByOne(n.readTime);
    MulByOne(n.computeTime);
    MulByOne(n.blockUsage);
    MulByOne(n.bytesWritten);
    MulByOne(n.bytesChurned);
    MulZero(n.readTime);
    MulZero(n.computeTime);
    MulZero(n.blockUsage);
    MulZero(n.bytesWritten);
    MulZero(n.bytesChurned);
  }

  lemma WrappedFraction()
    ensures FromU64Div(WRAPPING, 1) == I128_MIN && FromU64Div(1, 1) == ONE
  {
    CeilDivUnique(WRAPPING * ONE, 1, WRAPPING * ONE);
    CeilDivUnique(ONE, 1, ONE);
  }

  /** Against a limit of one, a cost of 2^63 weighs less than a cost of one. */
  lemma WrappedWeighsLess(d: nat, limits: SyntheticCost)
    requires d < 5 && LimitOf(limits, d) == 1
    ensures OverallCost(PriceIn(d), Fractions(CostIn(d, WRAPPING), limits)) <= 0
    ensures 0 < OverallCost(PriceIn(d), Fractions(CostIn(d, 1), limits))
  {
    WrappedFraction();
    FractionsIn(d, WRAPPING, limits);
    FractionsIn(d, 1, limits);
    var n, o := Fractions(CostIn(d, 1), limits), Fractions(CostIn(d, WRAPPING), limits);
    ChargesIn(d, n);
    ChargesIn(d, o);
    MulByOne(Weight(ChargesFor(PriceIn(d), n)));
    MulByOne(Weight(ChargesFor(PriceIn(d), o)));
  }

  predicate NoOnes(limits: SyntheticCost) {
    && limits.readTime != 1 && limits.computeTime != 1 && limits.blockUsage != 1
    && limits.bytesWritten != 1 && limits.bytesChurned != 1
  }

  predicate NoZeros(limits: SyntheticCost) { Within(SyntheticCost(1, 1, 1, 1, 1), limits) }

  lemma DimensionOfOne(limits: SyntheticCost) returns (d: nat)
    requires !NoOnes(limits)
    ensures d < 5 && LimitOf(limits, d) == 1
  {
    d := if limits.readTime == 1 then 0 else if limits.computeTime == 1 then 1 else if limits.blockUsage == 1 then 2
         else if limits.bytesWritten == 1 then 3 else 4;
  }

  /** Costs and prices under which the larger cost pays less. */
  lemma WrappedPaysLess(limits: SyntheticCost)
    returns (x: SyntheticCost, z: SyntheticCost, y: SyntheticCost, p: FeePrices)
    requires !NoOnes(limits)
    ensures NonnegPrices(p) && y == AddCost(x, z) && Within(x, y)
    ensures OverallCost(p, Fractions(y, limits)) <= 0 < OverallCost(p, Fractions(x, limits))
    ensures NoZeros(limits) ==> AllPass(x, limits) && AllPass(y, limits)
  {
    var d := DimensionOfOne(limits);
    x, z, y, p := CostIn(d, 1), CostIn(d, WRAPPING - 1), CostIn(d, WRAPPING), PriceIn(d);
    WrappedWeighsLess(d, limits);
  }

  /** Whether the larger of two costs always pays at least as much. */
  ghost predicate FeesRise(limits: SyntheticCost) {
    forall x: SyntheticCost, y: SyntheticCost, p: FeePrices, baseUnit: U128 ::
      NonnegPrices(p) && Within(x, y) && Fee(y, limits, p, baseUnit).Some? ==>
        Fee(x, limits, p, baseUnit).Some? && Fee(x, limits, p, baseUnit).value <= Fee(y, limits, p, baseUnit).value
  }

  lemma FeeSigns(x: SyntheticCost, limits: SyntheticCost, p: FeePrices, unit: U128)
    requires AllPass(x, limits) && unit == 1
    ensures Fee(x, limits, p, unit).Some?
    ensures Fee(x, limits, p, unit).value > 0 <==> OverallCost(p, Fractions(x, limits)) > 0
  {
    NormalizeIff(x, limits);
    AtomicUnitsLeast(OverallCost(p, Fractions(x, limits)), unit, 0);
  }

  lemma FeesFall(limits: SyntheticCost, unit: U128)
    requires !NoOnes(limits) && NoZeros(limits) && unit == 1
    ensures !FeesRise(limits)
  {
    var x, _, y, p := WrappedPaysLess(limits);
    FeeSigns(x, limits, p, unit);
    FeeSigns(y, limits, p, unit);
  }

  lemma FeesRiseOrNothingFits(limits: SyntheticCost)
    requires NoOnes(limits) || !NoZeros(limits)
    ensures FeesRise(limits)
  {
    forall x: SyntheticCost, y: SyntheticCost, p: FeePrices, baseUnit: U128
      | NonnegPrices(p) && Within(x, y) && Fee(y, limits, p, baseUnit).Some?
      ensures Fee(x, limits, p, baseUnit).Some?
      ensures Fee(x, limits, p, baseUnit).value <= Fee(y, limits, p, baseUnit).value
    {
      NormalizeIff(y, limits);
      FeeMonotone(x, y, limits, p, baseUnit);
    }
  }

  /** Larger costs never pay less exactly when no limit is one, or some limit is zero and nothing fits a block. */
  lemma FeesRiseIff(limits: SyntheticCost)
    ensures FeesRise(limits) <==> NoOnes(limits) || !NoZeros(limits)
  {
    if NoOnes(limits) || !NoZeros(limits) { FeesRiseOrNothingFits(limits); } else { FeesFall(limits, 1); }
  }

  /** Whether combining two costs never pays less than either, nor more than both and the rounding of `CombinedFee`. */
  ghost predicate CostsCombine(limits: SyntheticCost) {
    forall x: SyntheticCost, y: SyntheticCost, p: FeePrices :: NonnegPrices(p) ==> CombinesFairly(x, y, limits, p)
  }

  /** Costs combine well exactly when no limit is one. */
  lemma CostsCombineIff(limits: SyntheticCost)
    ensures CostsCombine(limits) <==> NoOnes(limits)
  {
    if NoOnes(limits) {
      forall x: SyntheticCost, y: SyntheticCost, p: FeePrices | NonnegPrices(p)
        ensures CombinesFairly(x, y, limits, p)
      {
        CombinedFee(x, y, limits, p);
      }
    } else {
      var x, z, y, p := WrappedPaysLess(limits);
      assert !CombinesFairly(x, z, limits, p);
    }
  }
}
