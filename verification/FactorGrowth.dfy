/** How far the dimension factors can rise over a run of blocks. */
module FactorGrowth {
  import opened Arithmetic
  import opened FixedPoint
  import opened FeeMarket
  import opened Renormalisation
  import opened FeeSteps
  import opened FeeRuns
  import opened Powers

  // ----- The mean of the scaled factors -----

  /** The least the mean can be after scaling balanced factors by at least `m`: about `m` itself. */
  function LowMean(m: int, slack: int): int { CeilDiv((FOUR - slack) * m / ONE - 3, 4) }

  lemma SumOfFloors(a: int, b: int, c: int, d: int)
    ensures (a + b + c + d) / ONE - 3 <= a / ONE + b / ONE + c / ONE + d / ONE
  {}

  lemma ScaledSum(f: Quad, ms: Quad, m: int, sum: int)
    requires f.AllAtLeast(0) && f.Sum() <= 40 * ONE && InRange(ms, m) && 0 < m && 0 <= sum <= f.Sum()
    ensures sum * m / ONE - 3 <= Scaled(f, ms).Sum()
  {
    ScaledAtLeast(f.r, f.r, m, ms.r);
    ScaledAtLeast(f.c, f.c, m, ms.c);
    ScaledAtLeast(f.b, f.b, m, ms.b);
    ScaledAtLeast(f.w, f.w, m, ms.w);
    SumOfFloors(f.r * m, f.c * m, f.b * m, f.w * m);
    Distribute(f.r, f.c, f.b, f.w, m);
    MulLe(sum, f.Sum(), m);
    FloorDivBounds(sum * m, ONE);
    FloorDivAtLeast(f.Sum() * m, ONE, sum * m / ONE);
  }

  lemma MeanAtLeast(s: Quad, minRatio: Fixed, sum: int)
    requires s.AllAtLeast(0) && 0 < s.Top() <= 240 * ONE && 0 <= minRatio <= ONE && sum <= s.Sum()
    ensures CeilDiv(sum, 4) <= Mean(Floored(s, minRatio))
  {
    FlooredBounds(s, minRatio);
    var t := Floored(s, minRatio);
    MeanExact(t);
    assert s.Sum() <= t.Sum();
    CeilDivAtMost(sum, 4, Mean(t));
  }

  // ----- One update -----

  /** `e` bounds factor `i` and what the floor could raise it to. */
  ghost predicate Within(f: Quad, minRatio: int, i: int, e: real) {
    f.At(i) as real <= e && (f.Top() * minRatio) as real <= e * ONE as real
  }

  /** Raising the bound by one update: at most the multiplier over the mean, and a rounding. */
  ghost predicate Grown(e: real, next: real, h: int, mean: int) { e * h as real + mean as real <= next * mean as real }

  lemma ScaledWithin(f: int, k: int, s: int, h: int, e: real)
    requires 0 <= f && 0 <= k <= h && s * ONE <= f * k && f as real <= e
    ensures (s * ONE) as real <= e * h as real
  {
    MulMono(f, k, f, h);
    RealMulMono(f as real, h as real, e, h as real);
    assert (f * h) as real == f as real * h as real;
  }

  lemma FloorWithin(top: int, stop: int, floor: int, minRatio: int, h: int, e: real)
    requires 0 <= top && 0 <= minRatio && 0 <= h && stop * ONE <= top * h && floor * ONE <= stop * minRatio
    requires (top * minRatio) as real <= e * ONE as real
    ensures (floor * ONE) as real <= e * h as real
  {
    MulLe(stop * ONE, top * h, minRatio);
    assert (floor * ONE) * ONE <= (stop * minRatio) * ONE;
    assert (stop * ONE) * minRatio == (stop * minRatio) * ONE;
    assert (top * h) * minRatio == (top * minRatio) * h;
    FloorWithinReals(floor * ONE, top * minRatio, h, e);
  }

  lemma FloorWithinReals(x: int, y: int, h: int, e: real)
    requires 0 <= y && 0 <= h && x * ONE <= y * h && y as real <= e * ONE as real
    ensures x as real <= e * h as real
  {
    RealMulMono(y as real, h as real, e * ONE as real, h as real);
    assert (y * h) as real == y as real * h as real;
    assert (x * ONE) as real == x as real * ONE as real;
    assert (e * ONE as real) * h as real == (e * h as real) * ONE as real;
  }

  lemma ScaleReals(x: real, y: real, k: real)
    requires x <= y && 0.0 <= k
    ensures x * k <= y * k
  {}

  lemma StrictReals(x: real, y: real, k: real)
    requires x < y && 0.0 < k
    ensures x * k < y * k
  {}

  lemma CancelReals(x: real, y: real, k: real)
    requires x * k <= y * k && 0.0 < k
    ensures x <= y
  {
    if y < x { StrictReals(y, x, k); }
  }

  lemma ShareWithin(g: int, t: int, mean: int, h: int, e: real, next: real)
    requires 0 < mean && g * mean <= t * ONE + mean - 1 && (t * ONE) as real <= e * h as real && Grown(e, next, h, mean)
    ensures g as real <= next
  {
    assert (g * mean) as real == g as real * mean as real;
    CancelReals(g as real, next, mean as real);
  }

  lemma SwapInts(a: int, b: int, c: int)
    ensures (a * b) * c == (a * c) * b
  {}

  lemma SpreadInts(a: int, b: int, c: int)
    ensures (a + b) * c == a * c + b * c
  {}

  lemma TopProducts(gtop: int, top: int, minRatio: int, mean: int, h: int)
    requires 0 < mean && 0 <= minRatio <= ONE && gtop * mean <= top * h + mean
    ensures (gtop * minRatio) * mean <= (top * minRatio) * h + ONE * mean
  {
    MulLe(gtop * mean, top * h + mean, minRatio);
    SwapInts(gtop, mean, minRatio);
    SpreadInts(top * h, mean, minRatio);
    SwapInts(top, h, minRatio);
    MulLe(minRatio, ONE, mean);
  }

  lemma TopWithin(gtop: int, stop: int, top: int, minRatio: int, mean: int, h: int, e: real, next: real)
    requires 0 < mean && 0 <= minRatio <= ONE && 0 <= gtop && 0 <= h && 0 <= top
    requires gtop * mean <= stop * ONE + mean - 1 && stop * ONE <= top * h
    requires (top * minRatio) as real <= e * ONE as real && Grown(e, next, h, mean)
    ensures (gtop * minRatio) as real <= next * ONE as real
  {
    TopProducts(gtop, top, minRatio, mean, h);
    MulMono(0, 0, top, minRatio);
    TopWithinReals(gtop * minRatio, top * minRatio, mean, h, e, next);
  }

  lemma TopWithinReals(x: int, y: int, mean: int, h: int, e: real, next: real)
    requires 0 < mean && 0 <= h && 0 <= y && x * mean <= y * h + ONE * mean
    requires y as real <= e * ONE as real && Grown(e, next, h, mean)
    ensures x as real <= next * ONE as real
  {
    assert (y * h) as real == y as real * h as real;
    assert (x * mean) as real == x as real * mean as real;
    assert (ONE * mean) as real == ONE as real * mean as real;
    TopChain(x as real, y as real, mean as real, h as real, ONE as real, e, next);
  }

  lemma TopChain(x: real, y: real, v: real, h: real, o: real, e: real, next: real)
    requires 0.0 < v && 0.0 <= h && 0.0 <= o && x * v <= y * h + o * v && y <= e * o && e * h + v <= next * v
    ensures x <= next * o
  {
    var p, q := e * h, next * v;
    ScaleReals(y, e * o, h);
    Swap(e, o, h);
    ScaleReals(p + v, q, o);
    Spread(p, v, o);
    Swap(next, v, o);
    CancelReals(x, next * o, v);
  }

  lemma Swap(a: real, b: real, c: real)
    ensures (a * b) * c == (a * c) * b
  {}

  lemma Spread(a: real, b: real, c: real)
    ensures (a + b) * c == a * c + c * b
  {}

  // ----- One update of the factors -----

  lemma SharesOf(g: Quad, t: Quad, mean: int, i: int)
    requires AreShares(g, t, mean) && mean > 0
    ensures 0 <= g.At(i) && g.At(i) * mean <= t.At(i) * ONE + mean - 1
  {}

  lemma ProductsOf(f: Quad, ms: Quad, h: int, i: int)
    requires f.AllAtLeast(0) && ms.AllAtLeast(0) && f.Sum() <= 40 * ONE && ms.Top() <= h <= 6 * ONE
    ensures 0 <= f.At(i) <= f.Top() && 0 <= ms.At(i) <= h && Scaled(f, ms).At(i) * ONE <= f.At(i) * ms.At(i)
  {
    MulNonneg(f.At(i), ms.At(i));
  }

  /** Which dimension is the dearest. */
  function TopIndex(q: Quad): (i: int)
    ensures q.At(i) == q.Top()
  {
    if q.r == q.Top() then 0 else if q.c == q.Top() then 1 else if q.b == q.Top() then 2 else 3
  }

  lemma ScaledTopWithin(f: Quad, ms: Quad, h: int)
    requires f.AllAtLeast(0) && ms.AllAtLeast(0) && f.Sum() <= 40 * ONE && ms.Top() <= h <= 6 * ONE
    ensures Scaled(f, ms).Top() * ONE <= f.Top() * h
  {
    var j := TopIndex(Scaled(f, ms));
    ProductsOf(f, ms, h, j);
    MulMono(f.At(j), ms.At(j), f.Top(), h);
  }

  lemma FlooredWithin(f: Quad, s: Quad, t: Quad, k: int, minRatio: int, h: int, i: int, e: real)
    requires 0 <= f.At(i) && 0 <= f.Top() && 0 <= minRatio && 0 <= k <= h && s.At(i) * ONE <= f.At(i) * k
    requires s.Top() * ONE <= f.Top() * h && t.At(i) == Max(s.At(i), s.Top() * minRatio / ONE)
    requires Within(f, minRatio, i, e)
    ensures (t.At(i) * ONE) as real <= e * h as real
  {
    FloorDivBounds(s.Top() * minRatio, ONE);
    ScaledWithin(f.At(i), k, s.At(i), h, e);
    FloorWithin(f.Top(), s.Top(), s.Top() * minRatio / ONE, minRatio, h, e);
  }

  lemma SharesWithin(f: Quad, s: Quad, t: Quad, g: Quad, k: int, minRatio: int, h: int, mean: int, i: int,
                     e: real, next: real)
    requires 0 <= f.At(i) && 0 <= f.Top() && 0 <= minRatio <= ONE && 0 <= k <= h && s.At(i) * ONE <= f.At(i) * k
    requires s.Top() * ONE <= f.Top() * h && t.At(i) == Max(s.At(i), s.Top() * minRatio / ONE) && t.Top() == s.Top()
    requires AreShares(g, t, mean) && mean > 0 && Within(f, minRatio, i, e) && Grown(e, next, h, mean)
    ensures Within(g, minRatio, i, next)
  {
    FlooredWithin(f, s, t, k, minRatio, h, i, e);
    SharesOf(g, t, mean, i);
    ShareWithin(g.At(i), t.At(i), mean, h, e, next);
    var j := TopIndex(g);
    SharesOf(g, t, mean, j);
    TopWithin(g.Top(), s.Top(), f.Top(), minRatio, mean, h, e, next);
  }

  lemma FlooredAt(s: Quad, minRatio: Fixed, i: int)
    requires s.AllAtLeast(0) && 0 < s.Top() <= 240 * ONE && 0 <= minRatio <= ONE
    ensures var t := Floored(s, minRatio); t.At(i) == Max(s.At(i), s.Top() * minRatio / ONE) && t.Top() == s.Top()
  {
    FlooredExact(s, minRatio);
    FlooredBounds(s, minRatio);
  }

  /** The mean that an update divides by. */
  function UpdateMean(f: Quad, ms: Quad, minRatio: Fixed): Fixed { Mean(Floored(Scaled(f, ms), minRatio)) }

  lemma UpdateMeanAtLeast(f: Quad, ms: Quad, minRatio: Fixed, m: int, slack: int)
    requires Loose(f, slack) && InRange(ms, m) && Steady(m, slack) && 0 <= minRatio <= ONE
    ensures LowMean(m, slack) <= UpdateMean(f, ms, minRatio)
    ensures 0 < UpdateMean(f, ms, minRatio)
    ensures AreShares(NextFactors(f, ms, minRatio), Floored(Scaled(f, ms), minRatio), UpdateMean(f, ms, minRatio))
  {
    SteadyMean(m, slack);
    ScaledBounds(f, ms, m);
    ScaledTop(f, ms, m, slack);
    ScaledSum(f, ms, m, FOUR - slack);
    var s := Scaled(f, ms);
    MeanAtLeast(s, minRatio, (FOUR - slack) * m / ONE - 3);
    NextFromScaled(s, minRatio, TopFloor(m, slack));
  }

  /** One update raises a bound by at most the largest multiplier over the mean. */
  lemma StepWithin(f: Quad, ms: Quad, minRatio: Fixed, m: int, h: int, slack: int, i: int, e: real, next: real)
    requires Loose(f, slack) && InRange(ms, m) && Steady(m, slack)
    requires 0 <= minRatio <= ONE && ms.Top() <= h <= 6 * ONE
    requires Within(f, minRatio, i, e) && Grown(e, next, h, UpdateMean(f, ms, minRatio))
    ensures Within(NextFactors(f, ms, minRatio), minRatio, i, next)
  {
    UpdateMeanAtLeast(f, ms, minRatio, m, slack);
    SteadyMean(m, slack);
    ScaledBounds(f, ms, m);
    ScaledTop(f, ms, m, slack);
    var s := Scaled(f, ms);
    ProductsOf(f, ms, h, i);
    ScaledTopWithin(f, ms, h);
    FlooredAt(s, minRatio, i);
    SharesWithin(f, s, Floored(s, minRatio), NextFactors(f, ms, minRatio), ms.At(i), minRatio, h,
                 UpdateMean(f, ms, minRatio), i, e, next);
  }

  // ----- Whole runs -----

  /** `rho` is at least the largest multiplier over the least mean. */
  ghost predicate GrowthRate(rho: real, h: int, low: int) { 1.0 <= rho && h as real <= rho * low as real }

  lemma RateGrows(e: real, rho: real, h: int, low: int, mean: int)
    requires 0.0 <= e && GrowthRate(rho, h, low) && low <= mean && 0 < mean
    ensures Grown(e, e * rho + 1.0, h, mean)
  {
    var v := mean as real;
    ScaleReals(low as real, v, rho);
    ScaleReals(h as real, rho * v, e);
    assert (e * rho + 1.0) * v == e * (rho * v) + v;
  }

  /** The bound after `k` updates. */
  function Swell(e: real, rho: real, k: nat): real { if k == 0 then e else Swell(e, rho, k - 1) * rho + 1.0 }

  lemma {:induction false} SwellBounds(e: real, rho: real, k: nat)
    requires 0.0 <= e && 1.0 <= rho
    ensures 0.0 <= Swell(e, rho, k) <= (e + k as real) * RealPow(rho, k) && 1.0 <= RealPow(rho, k)
  {
    if k > 0 {
      SwellBounds(e, rho, k - 1);
      SwellStep(Swell(e, rho, k - 1), e + (k - 1) as real, RealPow(rho, k - 1), rho);
    }
  }

  lemma SwellStep(s: real, x: real, w: real, rho: real)
    requires 0.0 <= s <= x * w && 1.0 <= w && 1.0 <= rho
    ensures 0.0 <= s * rho + 1.0 <= (x + 1.0) * (rho * w) && 1.0 <= rho * w
  {
    RealMulMono(1.0, 1.0, rho, w);
    RealMulMono(s, rho, x * w, rho);
    assert (x * w) * rho == x * (rho * w);
    assert (x + 1.0) * (rho * w) == x * (rho * w) + rho * w;
  }

  lemma {:induction false} SwellNonneg(e: real, rho: real, k: nat)
    requires 0.0 <= e && 1.0 <= rho
    ensures 0.0 <= Swell(e, rho, k)
  {
    if k > 0 {
      SwellNonneg(e, rho, k - 1);
      RealMulMono(0.0, 0.0, Swell(e, rho, k - 1), rho);
    }
  }

  /** Every fullness scales by at most `h`. */
  ghost predicate Caps(scaling: Scaling, h: int) { forall usage: Fixed :: IsFraction(usage) ==> scaling(usage) <= h }

  lemma MultipliersCapped(b: Block, scaling: Scaling, h: int)
    requires ValidBlock(b) && Caps(scaling, h)
    ensures Multipliers(b, scaling).Top() <= h
  {}

  /** One rounding more than `rho` times the bound before. */
  ghost predicate Swells(e: real, next: real, rho: real) { 0.0 <= e && next == e * rho + 1.0 }

  lemma UpdateWithin(q: FeePrices, b: Block, minRatio: Fixed, scaling: Scaling, m: int, h: int, slack: int, i: int,
                     e: real, next: real, rho: real)
    requires Sound(q, slack) && ValidBlock(b) && IsFraction(minRatio) && ScalesFrom(scaling, m) && Steady(m, slack)
    requires Caps(scaling, h) && h <= 6 * ONE && Within(q.Factors(), minRatio, i, e) && Swells(e, next, rho)
    requires GrowthRate(rho, h, LowMean(m, slack))
    ensures Within(Updated(q, b, minRatio, scaling).Factors(), minRatio, i, next)
  {
    var f, ms := q.Factors(), Multipliers(b, scaling);
    MultipliersInRange(b, scaling, m);
    MultipliersCapped(b, scaling, h);
    UpdatedParts(q, b, minRatio, scaling);
    UpdateMeanAtLeast(f, ms, minRatio, m, slack);
    RateGrows(e, rho, h, LowMean(m, slack), UpdateMean(f, ms, minRatio));
    StepWithin(f, ms, minRatio, m, h, slack, i, e, next);
  }

  /** Sound prices whose factor `i` is within a bound. */
  ghost predicate Contained(p: FeePrices, slack: int, minRatio: int, i: int, e: real) {
    Sound(p, slack) && Within(p.Factors(), minRatio, i, e)
  }

  /** Market parameters: multipliers from `m` to `h`, a slack they keep, and a growth rate they allow. */
  ghost predicate Market(minRatio: Fixed, scaling: Scaling, m: int, h: int, slack: int, rho: real) {
    && IsFraction(minRatio) && ScalesFrom(scaling, m) && Caps(scaling, h) && h <= 6 * ONE
    && Steady(m, slack) && GrowthRate(rho, h, LowMean(m, slack))
  }

  lemma UpdateContained(q: FeePrices, b: Block, minRatio: Fixed, scaling: Scaling, m: int, h: int, slack: int, i: int,
                        e: real, next: real, rho: real)
    requires Contained(q, slack, minRatio, i, e) && ValidBlock(b) && Market(minRatio, scaling, m, h, slack, rho)
    requires Swells(e, next, rho)
    ensures Contained(Updated(q, b, minRatio, scaling), slack, minRatio, i, next)
  {
    UpdateSound(q, b, minRatio, scaling, m, slack);
    UpdateWithin(q, b, minRatio, scaling, m, h, slack, i, e, next, rho);
  }

  /** A bound for every number of blocks. */
  type Bounds = nat -> real

  ghost predicate BoundSwells(bound: Bounds, rho: real, n: nat) { Swells(bound(n), bound(n + 1), rho) }

  /** Over every run of blocks, every factor stays within its swelling bound. */
  lemma {:induction false} RunContained(p: FeePrices, blocks: seq<Block>, minRatio: Fixed, scaling: Scaling, m: int,
                                        h: int, slack: int, i: int, bound: Bounds, rho: real)
    requires Contained(p, slack, minRatio, i, bound(0)) && ValidBlocks(blocks)
    requires Market(minRatio, scaling, m, h, slack, rho) && forall n: nat :: BoundSwells(bound, rho, n)
    ensures Contained(Run(p, blocks, minRatio, scaling), slack, minRatio, i, bound(|blocks|))
    decreases |blocks|
  {
    if blocks != [] {
      var n := |blocks| - 1;
      RunContained(p, blocks[..n], minRatio, scaling, m, h, slack, i, bound, rho);
      assert BoundSwells(bound, rho, n);
      UpdateContained(Run(p, blocks[..n], minRatio, scaling), blocks[n], minRatio, scaling, m, h, slack, i,
                      bound(n), bound(n + 1), rho);
    }
  }

  // ----- The minimum ratio between factors -----

  /** A factor is at least the minimum ratio of the dearest one, up to `c` units. */
  ghost predicate RespectsAt(top: int, factor: int, minRatio: int, c: nat) { top * minRatio <= (factor + c) * ONE }

  ghost predicate Respects(f: Quad, minRatio: int, c: nat) {
    forall i {:trigger RespectsAt(f.Top(), f.At(i), minRatio, c)} :: 0 <= i < 4 ==>
      RespectsAt(f.Top(), f.At(i), minRatio, c)
  }

  /** How far rounding can take a factor below the minimum ratio when the mean is at least `low`. */
  function RatioSlack(low: int): (c: nat)
    requires low > 0
    ensures 0 < c && ONE <= (c - 1) * low
  {
    CeilDivAtMost(ONE, low, 0);
    CeilDiv(ONE, low) + 1
  }

  lemma RatioRespected(gi: int, gj: int, minRatio: int, mean: int, low: int, c: int)
    requires 0 < low <= mean && 0 <= minRatio <= ONE && 0 < c && ONE <= (c - 1) * low
    requires RatioHolds(minRatio, gi, gj, mean)
    ensures RespectsAt(gj, gi, minRatio, c)
  {
    MulMono(c - 1, low, c - 1, mean);
    var x, y := (gj - 1) * minRatio, (gi + c - 1) * ONE;
    assert minRatio * ((gj - 1) * mean) == x * mean;
    assert y * mean == (gi * mean + (c - 1) * mean) * ONE;
    if y < x { MulLt(y, x, mean); }
    assert gj * minRatio == x + minRatio;
  }

  lemma SteadyLowMean(m: int, slack: int)
    requires Steady(m, slack)
    ensures 0 < LowMean(m, slack)
  {
    SteadyNeeds(m, slack);
    MulMono(3 * ONE, 12, FOUR - slack, m);
    FloorDivAtLeast((FOUR - slack) * m, ONE, 36);
    CeilDivAtMost((FOUR - slack) * m / ONE - 3, 4, 0);
  }

  lemma ScaledPositive(f: Quad, ms: Quad, m: int, slack: int)
    requires Loose(f, slack) && InRange(ms, m) && Steady(m, slack)
    ensures Scaled(f, ms).AllAtLeast(0) && 0 < Scaled(f, ms).Top() <= 250 * ONE
  {
    SteadyMean(m, slack);
    ScaledBounds(f, ms, m);
    ScaledTop(f, ms, m, slack);
  }

  lemma UpdateRatio(f: Quad, ms: Quad, minRatio: Fixed, i: int, j: int)
    requires Scaled(f, ms).AllAtLeast(0) && 0 < Scaled(f, ms).Top() <= 250 * ONE && 0 <= minRatio <= ONE
    ensures var g := NextFactors(f, ms, minRatio);
            RatioHolds(minRatio, g.At(i), g.At(j), UpdateMean(f, ms, minRatio))
  {
    RenormalisedRatio(Scaled(f, ms), minRatio, i, j);
  }

  lemma UpdateRespects(f: Quad, ms: Quad, minRatio: Fixed, low: int, i: int, j: int)
    requires Scaled(f, ms).AllAtLeast(0) && 0 < Scaled(f, ms).Top() <= 250 * ONE && 0 <= minRatio <= ONE
    requires 0 < low <= UpdateMean(f, ms, minRatio)
    ensures var g := NextFactors(f, ms, minRatio);
            RespectsAt(g.At(j), g.At(i), minRatio, RatioSlack(low))
  {
    UpdateRatio(f, ms, minRatio, i, j);
    var g := NextFactors(f, ms, minRatio);
    RatioRespected(g.At(i), g.At(j), minRatio, UpdateMean(f, ms, minRatio), low, RatioSlack(low));
  }

  /** One update restores the minimum ratio, up to rounding. */
  lemma StepRespects(f: Quad, ms: Quad, minRatio: Fixed, m: int, slack: int)
    requires Loose(f, slack) && InRange(ms, m) && Steady(m, slack) && 0 <= minRatio <= ONE
    ensures 0 < LowMean(m, slack) && Respects(NextFactors(f, ms, minRatio), minRatio, RatioSlack(LowMean(m, slack)))
  {
    SteadyLowMean(m, slack);
    UpdateMeanAtLeast(f, ms, minRatio, m, slack);
    ScaledPositive(f, ms, m, slack);
    var g, low := NextFactors(f, ms, minRatio), LowMean(m, slack);
    var j := TopIndex(g);
    forall i | 0 <= i < 4 ensures RespectsAt(g.Top(), g.At(i), minRatio, RatioSlack(low)) {
      UpdateRespects(f, ms, minRatio, low, i, j);
    }
  }

  /** After every run of at least one block the factors respect the minimum ratio up to rounding. */
  lemma RunRespects(p: FeePrices, blocks: seq<Block>, minRatio: Fixed, scaling: Scaling, m: int, slack: int)
    requires Loose(p.Factors(), slack) && ValidBlocks(blocks) && blocks != [] && IsFraction(minRatio)
    requires ScalesFrom(scaling, m) && Steady(m, slack)
    ensures Sound(Run(p, blocks, minRatio, scaling), slack) && 0 < LowMean(m, slack)
    ensures Respects(Run(p, blocks, minRatio, scaling).Factors(), minRatio, RatioSlack(LowMean(m, slack)))
  {
    var n := |blocks| - 1;
    var q, b := Run(p, blocks[..n], minRatio, scaling), blocks[n];
    RunLoose(p, blocks[..n], minRatio, scaling, m, slack);
    UpdateSound(q, b, minRatio, scaling, m, slack);
    MultipliersInRange(b, scaling, m);
    UpdatedParts(q, b, minRatio, scaling);
    StepRespects(q.Factors(), Multipliers(b, scaling), minRatio, m, slack);
  }

  lemma {:induction false} RunLoose(p: FeePrices, blocks: seq<Block>, minRatio: Fixed, scaling: Scaling, m: int,
                                    slack: int)
    requires Loose(p.Factors(), slack) && ValidBlocks(blocks) && IsFraction(minRatio)
    requires ScalesFrom(scaling, m) && Steady(m, slack)
    ensures Loose(Run(p, blocks, minRatio, scaling).Factors(), slack)
    decreases |blocks|
  {
    if blocks != [] {
      var n := |blocks| - 1;
      RunLoose(p, blocks[..n], minRatio, scaling, m, slack);
      UpdateSound(Run(p, blocks[..n], minRatio, scaling), blocks[n], minRatio, scaling, m, slack);
    }
  }

  // ----- How far factors rise -----

  /** A factor is at most its starting value and some roundings, times the growth. */
  ghost predicate RisenAtMost(factor: int, start: int, growth: real, roundings: nat) {
    factor as real <= (start as real + roundings as real) * growth
  }

  lemma SwellFrom(e: real, rho: real) returns (bound: Bounds)
    requires 0.0 <= e && 1.0 <= rho
    ensures bound(0) == e && forall n: nat :: bound(n) == Swell(e, rho, n) && BoundSwells(bound, rho, n)
  {
    bound := (n: nat) => Swell(e, rho, n);
    forall n: nat ensures bound(n) == Swell(e, rho, n) && BoundSwells(bound, rho, n) { SwellNonneg(e, rho, n); }
  }

  lemma RespectsWithin(f: Quad, minRatio: Fixed, c: nat, i: int)
    requires f.AllAtLeast(0) && Respects(f, minRatio, c) && 0 <= i < 4
    ensures Within(f, minRatio, i, (f.At(i) + c) as real)
  {
    assert RespectsAt(f.Top(), f.At(i), minRatio, c);
    assert ((f.At(i) + c) * ONE) as real == (f.At(i) + c) as real * ONE as real;
  }

  lemma SwellWithin(factor: int, start: int, bound: Bounds, rho: real, k: nat)
    requires 0 <= start && 1.0 <= rho && factor as real <= bound(k) == Swell(start as real, rho, k)
    ensures 1.0 <= RealPow(rho, k)
    ensures RisenAtMost(factor, start, RealPow(rho, k), k)
  {
    SwellBounds(start as real, rho, k);
  }

  /** After any run a factor has risen at most by the rate per block from any integer that contains it. */
  lemma RunRisen(p: FeePrices, blocks: seq<Block>, minRatio: Fixed, scaling: Scaling, m: int, h: int, slack: int,
                 i: int, start: int, rho: real)
    requires Contained(p, slack, minRatio, i, start as real) && ValidBlocks(blocks) && 0 <= start
    requires Market(minRatio, scaling, m, h, slack, rho)
    ensures Sound(Run(p, blocks, minRatio, scaling), slack)
    ensures 1.0 <= RealPow(rho, |blocks|)
    ensures RisenAtMost(Run(p, blocks, minRatio, scaling).Factors().At(i), start, RealPow(rho, |blocks|), |blocks|)
  {
    var bound := SwellFrom(start as real, rho);
    RunContained(p, blocks, minRatio, scaling, m, h, slack, i, bound, rho);
    SwellWithin(Run(p, blocks, minRatio, scaling).Factors().At(i), start, bound, rho, |blocks|);
  }

  /** The cheapest factor. */
  function Least(f: Quad): int { Min(Min(f.r, f.c), Min(f.b, f.w)) }

  lemma LeastBounds(f: Quad, i: int)
    requires f.AllAtLeast(0) && f.Sum() <= FOUR + 3
    ensures 0 <= Least(f) <= f.At(i) && Least(f) <= FOUR + 3
  {}

  /** A growth that covers the compounded rate, or the rise of the cheapest factor to the sum of all. */
  ghost predicate Allows(growth: real, least: int, compounded: real) {
    1.0 <= growth && (compounded <= growth || (FOUR + 3) as real <= growth * least as real)
  }

  lemma CappedBySum(factor: int, start: int, least: int, growth: real, roundings: nat)
    requires 0 <= least <= start && factor <= FOUR + 3 && 1.0 <= growth && (FOUR + 3) as real <= growth * least as real
    ensures RisenAtMost(factor, start, growth, roundings)
  {
    ScaleReals(least as real, start as real + roundings as real, growth);
  }

  /** Either bound will do. */
  lemma GrowthCaps(factor: int, start: int, least: int, c: nat, w: real, growth: real, k: nat)
    requires 0 <= least <= start && factor <= FOUR + 3 && Allows(growth, least, w)
    requires RisenAtMost(factor, start + c, w, k)
    ensures RisenAtMost(factor, start, growth, c + k)
  {
    if w <= growth {
      ScaleBy(w, growth, start as real + (c + k) as real);
    } else {
      CappedBySum(factor, start, least, growth, c + k);
    }
  }

  lemma ScaleBy(v: real, u: real, k: real)
    requires v <= u && 0.0 <= k
    ensures k * v <= k * u
  {}

  lemma SoundAt(p: FeePrices, slack: int, i: int)
    requires Sound(p, slack)
    ensures p.Factors().AllAtLeast(0) && p.Factors().Sum() <= FOUR + 3 && 0 <= p.Factors().At(i) <= FOUR + 3
  {}

  /** Sound prices whose factors respect the minimum ratio up to `c` units. */
  ghost predicate Respectful(p: FeePrices, slack: int, minRatio: int, c: nat) {
    Sound(p, slack) && Respects(p.Factors(), minRatio, c)
  }

  lemma RespectfulContained(p: FeePrices, slack: int, minRatio: Fixed, c: nat, i: int)
    requires Respectful(p, slack, minRatio, c) && 0 <= i < 4
    ensures Contained(p, slack, minRatio, i, (p.Factors().At(i) + c) as real)
  {
    RespectsWithin(p.Factors(), minRatio, c, i);
  }

  lemma CapRisen(p: FeePrices, q: FeePrices, slack: int, start: int, i: int, w: real, growth: real, k: nat, r: nat)
    requires r == start - p.Factors().At(i) + k && p.Factors().At(i) <= start
    requires Sound(p, slack) && Sound(q, slack) && Allows(growth, Least(p.Factors()), w)
    requires RisenAtMost(q.Factors().At(i), start, w, k)
    ensures RisenAtMost(q.Factors().At(i), p.Factors().At(i), growth, r)
  {
    SoundAt(p, slack, i);
    SoundAt(q, slack, i);
    LeastBounds(p.Factors(), i);
    GrowthCaps(q.Factors().At(i), p.Factors().At(i), Least(p.Factors()), start - p.Factors().At(i), w, growth, k);
  }

  /** After any run every factor is at most its starting value compounded by the rate per block, or capped by the
      sum of all factors if that is less. */
  lemma FactorCeiling(p: FeePrices, blocks: seq<Block>, minRatio: Fixed, scaling: Scaling, m: int, h: int, slack: int,
                      start: int, i: int, rho: real, growth: real, r: nat)
    requires p.Factors().At(i) <= start && r == start - p.Factors().At(i) + |blocks|
    requires Contained(p, slack, minRatio, i, start as real) && ValidBlocks(blocks)
    requires Market(minRatio, scaling, m, h, slack, rho)
    requires Allows(growth, Least(p.Factors()), RealPow(rho, |blocks|))
    ensures Sound(Run(p, blocks, minRatio, scaling), slack)
    ensures RisenAtMost(Run(p, blocks, minRatio, scaling).Factors().At(i), p.Factors().At(i), growth, r)
  {
    SoundAt(p, slack, i);
    RunRisen(p, blocks, minRatio, scaling, m, h, slack, i, start, rho);
    CapRisen(p, Run(p, blocks, minRatio, scaling), slack, start, i, RealPow(rho, |blocks|), growth, |blocks|, r);
  }

  /** The least such growth. */
  ghost function CappedGrowth(least: int, compounded: real): real {
    if least > 0 && (FOUR + 3) as real < compounded * least as real then (FOUR + 3) as real / least as real
    else compounded
  }

  lemma CappedAllowed(least: int, w: real)
    requires 0 <= least <= FOUR + 3 && 1.0 <= w
    ensures Allows(CappedGrowth(least, w), least, w)
    ensures forall g: real :: Allows(g, least, w) ==> CappedGrowth(least, w) <= g
  {
    forall g: real | Allows(g, least, w) ensures CappedGrowth(least, w) <= g { CappedLeast(least, w, g); }
  }

  lemma CappedLeast(least: int, w: real, g: real)
    requires 0 <= least <= FOUR + 3 && 1.0 <= w && Allows(g, least, w)
    ensures CappedGrowth(least, w) <= g
  {}
}
