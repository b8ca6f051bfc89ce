/** The overall price over whole runs of blocks: how fast it must rise, and how fast it can. */
module PriceRuns {
  import opened Arithmetic
  import opened FixedPoint
  import opened CurveTable
  import opened PriceCurve
  import opened FeeMarket
  import opened FeeRuns
  import opened Powers

  /** A multiplier of 1.01, rounded up. */
  const RISE: int := 18631211514446647133

  /** The overall price evolves on its own: only the overall fullness of each block matters. */
  function PriceAfter(price: Fixed, blocks: seq<Block>, scaling: Scaling): Fixed {
    if blocks == [] then price
    else NextPrice(PriceAfter(price, blocks[..|blocks| - 1], scaling), scaling(blocks[|blocks| - 1].overall))
  }

  lemma {:induction false} RunPrice(p: FeePrices, blocks: seq<Block>, minRatio: Fixed, scaling: Scaling)
    ensures Run(p, blocks, minRatio, scaling).overallPrice == PriceAfter(p.overallPrice, blocks, scaling)
    decreases |blocks|
  {
    if blocks != [] {
      var n := |blocks| - 1;
      RunPrice(p, blocks[..n], minRatio, scaling);
      UpdatedParts(Run(p, blocks[..n], minRatio, scaling), blocks[n], minRatio, scaling);
    }
  }

  // ----- Prices cannot get stuck -----

  /** A block with a multiplier of at least 1.01 raises the price by a hundredth, rounded down, unless it saturates. */
  lemma PriceRises(price: Fixed, k: Fixed)
    requires MIN_COST <= price && RISE <= k
    ensures NextPrice(price, k) == I128_MAX || NextPrice(price, k) >= price + price / 100 >= price + 1
  {
    MulNonneg(price, k);
    MulMono(price, RISE, price, k);
    FloorDivAtLeast(price * k, ONE, price + price / 100);
  }

  /** Every block is full enough for a multiplier of at least 1.01. */
  ghost predicate AllRise(blocks: seq<Block>, scaling: Scaling) {
    forall i :: 0 <= i < |blocks| ==> scaling(blocks[i].overall) >= RISE
  }

  lemma GrowthStep(price: int, next: int, base: real, growth: real)
    requires price >= MIN_COST && next >= price + price / 100 && price as real - 99.0 >= growth * base
    ensures next as real - 99.0 >= (1.01 * growth) * base
  {
    assert 100 * (next - 99) >= 101 * (price - 99);
    assert (1.01 * growth) * base == 1.01 * (growth * base);
  }

  ghost predicate HasGrown(first: Fixed, price: Fixed, n: nat) {
    price == I128_MAX || (price >= first + n && price as real - 99.0 >= RealPow(1.01, n) * (first as real - 99.0))
  }

  lemma PriceGrowsStep(first: Fixed, price: Fixed, k: Fixed, n: nat)
    requires MIN_COST <= first && RISE <= k
    requires HasGrown(first, price, n)
    ensures HasGrown(first, NextPrice(price, k), n + 1)
  {
    PriceRises(price, k);
    var next := NextPrice(price, k);
    if price != I128_MAX && next != I128_MAX {
      GrowthStep(price, next, first as real - 99.0, RealPow(1.01, n));
    }
  }

  /** Prices cannot get stuck: from the floor or above, each such block multiplies the distance to 99 units
      by at least 1.01 and adds at least one unit, until the price saturates. */
  lemma {:induction false} PriceGrows(first: Fixed, blocks: seq<Block>, scaling: Scaling)
    requires first >= MIN_COST && AllRise(blocks, scaling)
    ensures HasGrown(first, PriceAfter(first, blocks, scaling), |blocks|)
    decreases |blocks|
  {
    if blocks != [] {
      var n := |blocks| - 1;
      PriceGrows(first, blocks[..n], scaling);
      PriceGrowsStep(first, PriceAfter(first, blocks[..n], scaling), scaling(blocks[n].overall), n);
    }
  }

  lemma CurveAtThreeQuarters(p: seq<int>, usage: Fixed)
    requires Table(p) && p[75] == 20265819725292945408 && 13835058055282163712 <= usage <= ONE
    ensures Curve(p, usage) >= 20265819725292945407
  {
    var k, d := Locate(usage);
    CurveInSegment(p, usage);
    PointsOrdered(p, 75, k);
  }

  lemma PointAtThreeQuarters()
    ensures At(75) == 20265819725292945408
  {}

  /** With a steepness parameter of at most 100, every block at least three quarters full raises the price. */
  lemma ThreeQuartersRise(usage: Fixed, a: Fixed)
    requires 13835058055282163712 <= usage <= ONE && GENTLEST <= a <= 100 * ONE
    ensures CurveScaling(a)(usage) >= RISE
  {
    PointsAreTable();
    PointAtThreeQuarters();
    assert Points()[75] == At(75);
    CurveAtThreeQuarters(Points(), usage);
    CurveRange(Points(), usage);
    QuotientRises(Curve(Points(), usage), a);
  }

  lemma QuotientRises(v: Fixed, a: Fixed)
    requires 20265819725292945407 <= v <= HIGHEST && GENTLEST <= a <= 100 * ONE
    ensures Add(Div(v, a), ONE) >= RISE
  {
    CurveQuotientFits(v, a);
    CeilDivAntitone(v * ONE, a, 100 * ONE);
  }

  // ----- The advertised margin -----

  /** Every fullness scales by at most `h` in magnitude. */
  ghost predicate ScalesTo(scaling: Scaling, h: int) {
    forall usage: Fixed :: IsFraction(usage) ==> Abs(scaling(usage)) <= h
  }

  ghost predicate AtMost(price: Fixed, bound: real) { MIN_COST <= price && price as real <= bound }

  lemma ProductBelow(m: real, x: real, u: real, bound: real, v: real)
    requires m <= x * u && 0.0 <= x <= bound && 0.0 <= u <= v
    ensures m <= bound * v
  {
    RealMulMono(x, u, bound, v);
  }

  /** A negative multiplier gives a negative product, or one so far below the range that it wraps to less than its
      magnitude. */
  lemma MulWraps(price: Fixed, k: Fixed)
    requires 0 <= price && k < 0
    ensures Mul(price, k) <= 0 || I128_MAX * ONE < price * Abs(k)
  {
    MulMono(0, 0, price, Abs(k));
    var x := price * k / ONE;
    FloorDivBounds(price * k, ONE);
    if x >= I128_MIN { AsI128Cases(x); }
  }

  lemma MulCapped(price: Fixed, k: Fixed, h: Fixed)
    requires 0 <= price && Abs(k) <= h
    ensures Mul(price, k) <= Mul(price, h)
  {
    if 0 <= k {
      MulMonotone(price, k, price, h);
    } else {
      MulWraps(price, k);
      MulMono(price, Abs(k), price, h);
      MulNonneg(price, h);
      FloorDivAtLeast(price * h, ONE, I128_MAX);
    }
  }

  lemma CeilingProduct(price: Fixed, k: Fixed, h: Fixed, v: real, bound: real)
    requires AtMost(price, bound) && Abs(k) <= h && Value(h) <= v && 1.0 <= v
    ensures AtMost(NextPrice(price, k), bound * v)
  {
    MulCapped(price, k, h);
    MulAtMost(price, h);
    ValueMono(0, h);
    ProductBelow(Mul(price, h) as real, price as real, Value(h), bound, v);
    ProductBelow(100.0, 100.0, 1.0, bound, v);
  }

  lemma MulAtMost(price: Fixed, power: Fixed)
    requires 0 <= price && 0 <= power
    ensures Mul(price, power) as real <= price as real * Value(power)
  {
    ValueMul(price, power);
    assert Value(price) * Value(power) * 18446744073709551616.0 == price as real * Value(power);
  }

  function Compound(first: real, v: real, n: nat): real {
    if n == 0 then first else Compound(first, v, n - 1) * v
  }

  /** One block multiplies the bound once more. */
  lemma CeilingStep(price: Fixed, k: Fixed, h: Fixed, v: real, first: real, n: nat)
    requires AtMost(price, Compound(first, v, n)) && Abs(k) <= h && Value(h) <= v && 1.0 <= v
    ensures AtMost(NextPrice(price, k), Compound(first, v, n + 1))
  {
    CeilingProduct(price, k, h, v, Compound(first, v, n));
  }

  lemma {:induction false} CompoundIsPower(first: real, v: real, n: nat)
    ensures Compound(first, v, n) == first * RealPow(v, n)
  {
    if n > 0 {
      CompoundIsPower(first, v, n - 1);
      var x := RealPow(v, n - 1);
      assert (first * x) * v == first * (v * x);
    }
  }

  /** The price after a run is at most the starting price compounded by the largest multiplier per block. */
  lemma {:induction false} PriceCeiling(first: Fixed, blocks: seq<Block>, scaling: Scaling, h: Fixed, v: real)
    requires first >= MIN_COST && ValidBlocks(blocks) && ScalesTo(scaling, h) && Value(h) <= v && 1.0 <= v
    ensures AtMost(PriceAfter(first, blocks, scaling), Compound(first as real, v, |blocks|))
    decreases |blocks|
  {
    if blocks != [] {
      var n := |blocks| - 1;
      PriceCeiling(first, blocks[..n], scaling, h, v);
      CeilingStep(PriceAfter(first, blocks[..n], scaling), scaling(blocks[n].overall), h, v, first as real, n);
    }
  }

  lemma {:induction false} RealPowProduct(b: real, c: real, n: nat)
    ensures RealPow(b * c, n) == RealPow(b, n) * RealPow(c, n)
  {
    if n > 0 {
      RealPowProduct(b, c, n - 1);
      var x, y := RealPow(b, n - 1), RealPow(c, n - 1);
      assert (b * c) * (x * y) == (b * x) * (c * y);
    }
  }

  lemma {:induction false} RealPowGrows(b: real, m: nat, n: nat)
    requires 1.0 <= b && m <= n
    ensures 1.0 <= RealPow(b, m) <= RealPow(b, n)
    decreases n
  {
    if m < n {
      RealPowGrows(b, m, n - 1);
      RealMulMono(1.0, RealPow(b, n - 1), b, RealPow(b, n - 1));
    } else if n > 0 {
      RealPowGrows(b, 0, n - 1);
      RealMulMono(1.0, 1.0, b, RealPow(b, n - 1));
    }
  }

  /** The price with `n` blocks of margin, as `fees_with_margin` applies it. */
  function PriceWithMargin(price: Fixed, a: Fixed, n: Exponent): Fixed { Mul(price, Power(MaxPriceAdjustment(a), n)) }

  lemma MarginProduct(q: real, x: real, p: real, big: real, small: real)
    requires 0.0 <= x && 0.0 <= q <= x * big && 0.0 <= small && 0.0 <= big * small <= p
    ensures q * small <= x * p
  {
    RealMulMono(q, small, x * big, small);
    Reassociate(x, big, small);
    RealMulMono(x, big * small, x, p);
  }

  lemma CompoundAtMost(x: real, v: real, k: nat, n: nat)
    requires 0.0 <= x && 1.0 <= v && k <= n
    ensures Compound(x, v, k) <= x * RealPow(v, n)
  {
    CompoundIsPower(x, v, k);
    RealPowGrows(v, k, n);
    RealMulMono(x, RealPow(v, k), x, RealPow(v, n));
  }

  /** The true power of the multiplier, split off the shrunk one. */
  lemma SplitPower(x: real, v: real, shrink: real, k: nat, n: nat) returns (big: real, small: real)
    requires 0.0 <= x && 1.0 <= v && 0.0 <= shrink && k <= n
    ensures 0.0 <= small == RealPow(shrink, n) && Compound(x, v, k) <= x * big
    ensures 0.0 <= big * small == RealPow(v * shrink, n)
  {
    big, small := RealPow(v, n), RealPow(shrink, n);
    CompoundAtMost(x, v, k, n);
    RealPowProduct(v, shrink, n);
    RealPowNonneg(shrink, n);
    RealPowNonneg(v, n);
    RealMulMono(0.0, 0.0, big, small);
  }

  lemma MarginReals(q: real, x: real, p: real, v: real, shrink: real, n: nat, k: nat)
    requires 0.0 <= x && 1.0 <= v && 0.0 <= shrink && k <= n
    requires 0.0 <= q <= Compound(x, v, k) && RealPow(v * shrink, n) <= p
    ensures q * RealPow(shrink, n) <= x * p
  {
    var big, small := SplitPower(x, v, shrink, k, n);
    MarginProduct(q, x, p, big, small);
  }

  lemma MulAtLeast(price: Fixed, power: Fixed)
    requires 0 <= price && 0 <= power
    ensures Mul(price, power) == I128_MAX || price as real * Value(power) <= Mul(price, power) as real + 1.0
  {
    ValueMul(price, power);
    assert Value(price) * Value(power) * 18446744073709551616.0 == price as real * Value(power);
  }

  /** The price `q` less a relative loss is at most `first` times `power`. */
  ghost predicate PriceCovered(first: Fixed, q: Fixed, power: Fixed, loss: real) {
    q as real * loss <= first as real * Value(power)
  }

  /** `power` is at least the `n`-th power of `v`, shrunk in every factor. */
  ghost predicate PowerAtLeast(power: Fixed, v: real, shrink: real, n: nat) {
    power >= 0 && RealPow(v * shrink, n) <= Value(power)
  }

  lemma PriceBelow(first: Fixed, q: Fixed, power: Fixed, v: real, shrink: real, n: nat, k: nat)
    requires 0 <= first && 1.0 <= v && 0.0 <= shrink && k <= n
    requires AtMost(q, Compound(first as real, v, k)) && PowerAtLeast(power, v, shrink, n)
    ensures PriceCovered(first, q, power, RealPow(shrink, n))
  {
    MarginReals(q as real, first as real, Value(power), v, shrink, n, k);
  }

  /** `margin` covers `q` up to `n` parts in 2^64 and one unit. */
  ghost predicate Covers(margin: Fixed, q: Fixed, n: nat) {
    margin == I128_MAX || q as real * RealPow(SHRINK, n) <= margin as real + 1.0
  }

  lemma MarginCovers(first: Fixed, q: Fixed, power: Fixed, n: nat)
    requires first >= 0 && power >= 0 && PriceCovered(first, q, power, RealPow(SHRINK, n))
    ensures Covers(Mul(first, power), q, n)
  {
    MulAtLeast(first, power);
  }

  lemma LargestPower(h: Fixed, n: Exponent)
    requires ONE <= h && n >= 0
    ensures 0 < Power(h, n) && 1.0 <= Value(h)
    ensures Power(h, n) == I128_MAX || PowerAtLeast(Power(h, n), Value(h), SHRINK, n)
  {
    ValueMono(ONE, h);
    PowiRelativeBound(h, n);
    PowiMonotoneInExponent(h, n, n);
  }

  /** The price after at most `n` blocks, against the `n`-th power of the largest multiplier. */
  lemma PriceWithinPower(first: Fixed, blocks: seq<Block>, scaling: Scaling, h: Fixed, n: Exponent)
    requires first >= MIN_COST && ValidBlocks(blocks) && |blocks| <= n && ScalesTo(scaling, h) && ONE <= h
    ensures 0 < Power(h, n) && MIN_COST <= PriceAfter(first, blocks, scaling)
    ensures Power(h, n) == I128_MAX
            || PriceCovered(first, PriceAfter(first, blocks, scaling), Power(h, n), RealPow(SHRINK, n))
  {
    LargestPower(h, n);
    PriceCeiling(first, blocks, scaling, h, Value(h));
    if Power(h, n) != I128_MAX {
      PriceBelow(first, PriceAfter(first, blocks, scaling), Power(h, n), Value(h), SHRINK, n, |blocks|);
    }
  }

  /** A base one unit below the largest multiplier loses at most one part in 2^64 per factor more. */
  lemma PowerOneBelow(b: Fixed, h: Fixed, n: Exponent)
    requires ONE <= b && h <= b + 1 && ONE <= h && n >= 0
    ensures 0 < Power(b, n) && 1.0 <= Value(h)
    ensures Power(b, n) == I128_MAX || PowerAtLeast(Power(b, n), Value(h), SHRINK * SHRINK, n)
  {
    LargestPower(b, n);
    ValueMono(ONE, h);
    if Power(b, n) != I128_MAX { OneBelow(Power(b, n), b, h, n); }
  }

  lemma OneBelow(power: Fixed, b: Fixed, h: Fixed, n: nat)
    requires ONE <= b && h <= b + 1 && ONE <= h && PowerAtLeast(power, Value(b), SHRINK, n)
    ensures PowerAtLeast(power, Value(h), SHRINK * SHRINK, n)
  {
    ShrinkOneBelow(b, h);
    ValueMono(ONE, h);
    LesserBase(power, Value(h), SHRINK * SHRINK, Value(b), SHRINK, n);
  }

  lemma LesserBase(power: Fixed, v: real, s: real, w: real, u: real, n: nat)
    requires PowerAtLeast(power, w, u, n) && 0.0 <= v && 0.0 <= s && v * s <= w * u
    ensures PowerAtLeast(power, v, s, n)
  {
    RealMulMono(0.0, 0.0, v, s);
    RealPowMono(v * s, w * u, n);
  }

  lemma ShrinkOneBelow(b: Fixed, h: Fixed)
    requires ONE <= b && h <= b + 1 && ONE <= h
    ensures Value(h) * (SHRINK * SHRINK) <= Value(b) * SHRINK
  {
    var v := Value(h);
    ValueMono(ONE, h);
    ValueMono(h - 1, b);
    assert Value(h - 1) == v - UNIT;
    assert v * SHRINK == v - v * UNIT;
    RealMulMono(v * SHRINK, SHRINK, Value(b), SHRINK);
    Reassociate(v, SHRINK, SHRINK);
  }

  lemma DoublyShrunk(first: Fixed, q: Fixed, power: Fixed, v: real, n: nat, k: nat)
    requires 0 <= first && 1.0 <= v && k <= n
    requires AtMost(q, Compound(first as real, v, k)) && PowerAtLeast(power, v, SHRINK * SHRINK, n)
    ensures PriceCovered(first, q, power, RealPow(SHRINK, 2 * n))
  {
    PriceBelow(first, q, power, v, SHRINK * SHRINK, n, k);
    RealPowSquare(SHRINK, n);
  }

  lemma PriceWithinAdvertised(first: Fixed, blocks: seq<Block>, scaling: Scaling, b: Fixed, h: Fixed, n: Exponent)
    requires first >= MIN_COST && ValidBlocks(blocks) && |blocks| <= n && ScalesTo(scaling, h)
    requires ONE <= b && ONE <= h <= b + 1
    ensures 0 < Power(b, n) && MIN_COST <= PriceAfter(first, blocks, scaling)
    ensures Power(b, n) == I128_MAX
            || PriceCovered(first, PriceAfter(first, blocks, scaling), Power(b, n), RealPow(SHRINK, 2 * n))
  {
    PowerOneBelow(b, h, n);
    PriceCeiling(first, blocks, scaling, h, Value(h));
    if Power(b, n) != I128_MAX {
      DoublyShrunk(first, PriceAfter(first, blocks, scaling), Power(b, n), Value(h), n, |blocks|);
    }
  }

  /** The margin of `n` blocks covers the overall price after any run of at most `n` blocks, unless the
      power saturates. */
  lemma MarginCoversRun(first: Fixed, blocks: seq<Block>, scaling: Scaling, h: Fixed, n: Exponent)
    requires first >= MIN_COST && ValidBlocks(blocks) && |blocks| <= n && ScalesTo(scaling, h) && ONE <= h
    ensures Power(h, n) == I128_MAX || Covers(Mul(first, Power(h, n)), PriceAfter(first, blocks, scaling), n)
  {
    PriceWithinPower(first, blocks, scaling, h, n);
    if Power(h, n) != I128_MAX { MarginCovers(first, PriceAfter(first, blocks, scaling), Power(h, n), n); }
  }

  /** The lower end of the curve is not much further from zero than the upper one. */
  lemma LowestAboveMirror(a: Fixed)
    requires a >= ONE
    ensures -HighestMultiplier(a) <= LowestMultiplier(a)
  {
    CeilDivSubadditive(HIGHEST * ONE, (1 - LOWEST - HIGHEST) * ONE, a);
    CeilDivAtMost((1 - LOWEST - HIGHEST) * ONE, a, ONE);
  }

  lemma AdvertisedNear(a: Fixed)
    requires a >= ONE
    ensures ONE <= MaxPriceAdjustment(a) <= HighestMultiplier(a) <= MaxPriceAdjustment(a) + 1
  {
    FullBlockMultiplier(a);
    TopQuotients(a);
    CeilDivAtMost((HIGHEST - 1) * ONE, a, -1);
  }

  lemma HighestAtMost(a: Fixed)
    requires a >= ONE
    ensures HighestMultiplier(a) <= ONE + HIGHEST
  {
    MulLe(ONE, a, HIGHEST);
    CeilDivAtMost(HIGHEST * ONE, a, HIGHEST);
  }

  lemma CurveScalesTo(a: Fixed)
    requires a >= ONE
    ensures ScalesTo(CurveScaling(a), HighestMultiplier(a))
  {
    LowestAboveMirror(a);
    forall usage: Fixed | IsFraction(usage) ensures Abs(CurveScaling(a)(usage)) <= HighestMultiplier(a) {
      MultiplierBounds(usage, a);
    }
  }

  /** With the price curve: `n` blocks of the advertised maximum adjustment cover the price of every such run, with
      twice the loss where the advertised maximum is one unit low. */
  lemma CurveMarginCoversRun(first: Fixed, blocks: seq<Block>, a: Fixed, n: Exponent)
    requires first >= MIN_COST && ValidBlocks(blocks) && |blocks| <= n && a >= ONE
    ensures var b, q := MaxPriceAdjustment(a), PriceAfter(first, blocks, CurveScaling(a));
            || Power(b, n) == I128_MAX
            || Covers(PriceWithMargin(first, a, n), q, if HighestMultiplier(a) == b then n else 2 * n)
  {
    CurveScalesTo(a);
    AdvertisedNear(a);
    HighestAtMost(a);
    var b, q := MaxPriceAdjustment(a), PriceAfter(first, blocks, CurveScaling(a));
    if HighestMultiplier(a) == b {
      MarginCoversRun(first, blocks, CurveScaling(a), b, n);
    } else {
      PriceWithinAdvertised(first, blocks, CurveScaling(a), b, HighestMultiplier(a), n);
      if Power(b, n) != I128_MAX { MarginCovers(first, q, Power(b, n), 2 * n); }
    }
  }
}
