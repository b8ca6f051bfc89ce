/** The invariant of the four factors over one update, for any multipliers in a range. */
module FeeSteps {
  import opened Arithmetic
  import opened FixedPoint
  import opened FeeMarket
  import opened Renormalisation

  /** Non-negative factors whose sum is four, up to `slack` units below and three above. */
  predicate Balanced(f: Quad, slack: int) { f.AllAtLeast(0) && FOUR - slack <= f.Sum() <= FOUR + 3 }

  /** Non-negative factors whose sum is at most `slack` units below four, and small enough not to overflow. */
  predicate Loose(f: Quad, slack: int) { f.AllAtLeast(0) && FOUR - slack <= f.Sum() <= 40 * ONE }

  /** The sum misses four by at most three units of the reciprocal of the mean. */
  ghost predicate NearFour(f: Quad, mean: int) { (FOUR - f.Sum()) * mean <= 3 * ONE }

  /** Multipliers of at least `m`, and small enough not to overflow. */
  predicate InRange(ms: Quad, m: int) { ms.AllAtLeast(m) && ms.Top() <= 6 * ONE }

  // ----- How far the dearest dimension can fall -----

  /** The least the dearest dimension can be after scaling by at least `m`. */
  function TopFloor(m: int, slack: int): int { CeilDiv(FOUR - slack, 4) * m / ONE }

  function MeanFloor(m: int, slack: int): int { CeilDiv(TopFloor(m, slack), 4) }

  /** Multipliers under which one update keeps the slack. */
  predicate Steady(m: int, slack: int) {
    0 < m <= 6 * ONE && 0 <= slack <= ONE && 3 * ONE <= slack * MeanFloor(m, slack)
  }

  /** The largest factor that scaling by `m` rounds to nothing. */
  function Vanishing(m: int): int
    requires m > 0
  {
    (ONE - 1) / m
  }

  /** The least the dearest dimension can be when some other dimension has vanished. */
  function WorstTop(m: int, slack: int): int
    requires m > 0
  {
    CeilDiv(FOUR - slack - Vanishing(m), 3) * m / ONE
  }

  /** Parameters under which no dimension can vanish. */
  predicate Lifted(m: int, slack: int, minRatio: int)
    requires m > 0
  {
    ONE <= minRatio * WorstTop(m, slack)
  }

  lemma ScaledAtLeast(f: Fixed, x: int, m: int, k: Fixed)
    requires 0 <= x <= f && 0 <= m <= k
    requires f <= 40 * ONE && k <= 6 * ONE
    ensures x * m / ONE <= Mul(f, k) <= 240 * ONE
  {
    MulMono(x, m, f, k);
    MulMono(f, k, 40 * ONE, 6 * ONE);
    MulNonneg(f, k);
    FloorDivBounds(x * m, ONE);
    FloorDivAtLeast(f * k, ONE, x * m / ONE);
  }

  lemma ScaledBounds(f: Quad, ms: Quad, m: int)
    requires f.AllAtLeast(0) && f.Sum() <= 40 * ONE && InRange(ms, m) && 0 < m
    ensures Scaled(f, ms).AllAtLeast(0) && Scaled(f, ms).Top() <= 240 * ONE
  {
    ScaledAtLeast(f.r, 0, m, ms.r);
    ScaledAtLeast(f.c, 0, m, ms.c);
    ScaledAtLeast(f.b, 0, m, ms.b);
    ScaledAtLeast(f.w, 0, m, ms.w);
  }

  lemma ScaledTopAtLeast(f: Quad, ms: Quad, m: int, x: int)
    requires f.AllAtLeast(0) && f.Sum() <= 40 * ONE && InRange(ms, m) && 0 < m
    requires 0 <= x <= f.Top()
    ensures x * m / ONE <= Scaled(f, ms).Top()
  {
    if x <= f.r { ScaledAtLeast(f.r, x, m, ms.r); }
    else if x <= f.c { ScaledAtLeast(f.c, x, m, ms.c); }
    else if x <= f.b { ScaledAtLeast(f.b, x, m, ms.b); }
    else { ScaledAtLeast(f.w, x, m, ms.w); }
  }

  lemma ScaledTop(f: Quad, ms: Quad, m: int, slack: int)
    requires Loose(f, slack) && InRange(ms, m) && Steady(m, slack)
    ensures TopFloor(m, slack) <= Scaled(f, ms).Top()
  {
    CeilDivAtMost(FOUR - slack, 4, f.Top());
    ScaledTopAtLeast(f, ms, m, CeilDiv(FOUR - slack, 4));
  }

  /** Equal factors under equal multipliers become exactly one each, unless they vanish and divide to the maximum. */
  lemma EqualFactors(f: Fixed, k: Fixed, minRatio: Fixed)
    requires 0 <= f <= 40 * ONE && 0 <= k <= 6 * ONE && 0 <= minRatio <= ONE
    ensures var g := if f * k >= ONE then ONE else I128_MAX;
            NextFactors(Quad(f, f, f, f), Quad(k, k, k, k), minRatio) == Quad(g, g, g, g)
  {
    ScaledAtLeast(f, f, k, k);
    MulNonneg(f, k);
    FloorDivAtLeast(f * k, ONE, 1);
    EqualFloored(Mul(f, k), minRatio);
    EqualDimensions(Mul(f, k));
  }

  // ----- The sum -----

  lemma SlackKept(g: int, mean: int, low: int, slack: int)
    requires (FOUR - g) * mean <= 3 * ONE <= slack * low && 0 < low <= mean && 0 <= slack
    ensures FOUR - slack <= g
    ensures (FOUR - g) * low <= 3 * ONE
  {
    if FOUR - g > slack { MulMono(slack, low, slack, mean); MulLt(slack, FOUR - g, mean); }
    if FOUR - g > 0 { MulMono(FOUR - g, low, FOUR - g, mean); } else { MulMono(g - FOUR, low, g - FOUR, low); }
  }

  lemma SteadyMean(m: int, slack: int)
    requires Steady(m, slack)
    ensures MeanFloor(m, slack) > 0 && TopFloor(m, slack) > 0
  {
    if MeanFloor(m, slack) <= 0 { MulMono(slack, 0, slack, -MeanFloor(m, slack)); }
  }

  /** Floored dimensions have a positive mean of at least a quarter of the dearest one. */
  lemma FlooredMean(s: Quad, minRatio: Fixed, low: int)
    requires s.AllAtLeast(0) && 0 < low <= s.Top() <= 240 * ONE && 0 <= minRatio <= ONE
    ensures var t := Floored(s, minRatio);
            Moderate(t) && t.Sum() > 0 && CeilDiv(low, 4) <= Mean(t)
  {
    FlooredBounds(s, minRatio);
    var t := Floored(s, minRatio);
    MeanExact(t);
    CeilDivAtMost(low, 4, Mean(t));
  }

  /** What an update makes of dimensions with a known dearest one. */
  lemma NextFromScaled(s: Quad, minRatio: Fixed, low: int)
    requires s.AllAtLeast(0) && 0 < low <= s.Top() <= 240 * ONE && 0 <= minRatio <= ONE
    ensures var t := Floored(s, minRatio);
            var g := Renormalised(t);
            && AreShares(g, t, Mean(t)) && 0 < CeilDiv(low, 4) <= Mean(t)
            && g.Sum() <= FOUR + 3 && (FOUR - g.Sum()) * Mean(t) <= 3 * ONE
  {
    FlooredMean(s, minRatio, low);
    var t := Floored(s, minRatio);
    RenormalisedExact(t);
    RenormalisedSum(t);
  }

  lemma SharesBalanced(g: Quad, t: Quad, mean: int, low: int, slack: int)
    requires AreShares(g, t, mean) && g.Sum() <= FOUR + 3 && (FOUR - g.Sum()) * mean <= 3 * ONE
    requires 0 < low <= mean && 0 <= slack && 3 * ONE <= slack * low
    ensures Balanced(g, slack) && NearFour(g, low)
  {
    SlackKept(g.Sum(), mean, low, slack);
  }

  /** One update balances the factors, within a slack that only depends on the multipliers. */
  lemma StepBalanced(f: Quad, ms: Quad, minRatio: Fixed, m: int, slack: int)
    requires Loose(f, slack) && InRange(ms, m) && Steady(m, slack) && 0 <= minRatio <= ONE
    ensures var g := NextFactors(f, ms, minRatio);
            Balanced(g, slack) && NearFour(g, MeanFloor(m, slack))
  {
    SteadyMean(m, slack);
    ScaledBounds(f, ms, m);
    ScaledTop(f, ms, m, slack);
    var s := Scaled(f, ms);
    NextFromScaled(s, minRatio, TopFloor(m, slack));
    var t := Floored(s, minRatio);
    SharesBalanced(Renormalised(t), t, Mean(t), MeanFloor(m, slack), slack);
  }

  /** How far below four one update can leave the sum, when the dearest factor was `top`. */
  function LandingSlack(top: int, m: int): int
    requires top * m >= ONE
  {
    FloorDivAtLeast(top * m, ONE, 1);
    CeilDivAtMost(top * m / ONE, 4, 0);
    CeilDiv(3 * ONE, CeilDiv(top * m / ONE, 4))
  }

  /** One update brings any factors with a sum of at most forty back to four, as closely as the dearest one allows. */
  lemma StepLands(f: Quad, ms: Quad, minRatio: Fixed, m: int)
    requires f.AllAtLeast(0) && f.Sum() <= 40 * ONE && InRange(ms, m) && 0 < m && 0 <= minRatio <= ONE
    requires f.Top() * m >= ONE
    ensures Balanced(NextFactors(f, ms, minRatio), LandingSlack(f.Top(), m))
  {
    ScaledBounds(f, ms, m);
    ScaledTopAtLeast(f, ms, m, f.Top());
    var low := f.Top() * m / ONE;
    FloorDivAtLeast(f.Top() * m, ONE, 1);
    CeilDivAtMost(low, 4, 0);
    NextFromScaled(Scaled(f, ms), minRatio, low);
    var t := Floored(Scaled(f, ms), minRatio);
    CeilDivAtMost(3 * ONE, CeilDiv(low, 4), 0);
    SharesBalanced(Renormalised(t), t, Mean(t), CeilDiv(low, 4), LandingSlack(f.Top(), m));
  }

  // ----- Positivity -----

  lemma VanishedIsSmall(f: Fixed, m: int, k: Fixed)
    requires 0 <= f <= 40 * ONE && 0 < m <= k <= 6 * ONE && Mul(f, k) == 0
    ensures f <= Vanishing(m)
  {
    MulMono(f, m, f, k);
    MulMono(f, k, 40 * ONE, 6 * ONE);
    MulNonneg(f, k);
    FloorDivAtLeast(ONE - 1, m, f);
  }

  /** Without one small factor, some other one carries at least a third of the rest. */
  lemma RestCarries(f: Quad, sum: int, small: int, i: int)
    requires f.AllAtLeast(0) && sum <= f.Sum() && f.At(i) <= small <= sum
    ensures 0 <= CeilDiv(sum - small, 3) <= f.Top()
  {
    CeilDivAtMost(sum - small, 3, f.Top());
    CeilDivAtMost(sum - small, 3, -1);
  }

  /** If one dimension vanishes, the three others carry the sum. */
  lemma VanishedTop(f: Quad, ms: Quad, m: int, slack: int, i: int)
    requires Loose(f, slack) && InRange(ms, m) && Steady(m, slack) && 0 <= i < 4 && Scaled(f, ms).At(i) == 0
    ensures WorstTop(m, slack) <= Scaled(f, ms).Top()
  {
    VanishedIsSmall(f.At(i), m, ms.At(i));
    VanishingBound(m);
    RestCarries(f, FOUR - slack, Vanishing(m), i);
    ScaledTopAtLeast(f, ms, m, CeilDiv(FOUR - slack - Vanishing(m), 3));
  }

  lemma VanishingBound(m: int)
    requires m > 0
    ensures 0 <= Vanishing(m) < ONE && Vanishing(m) * m < ONE
  {
    FloorDivBounds(ONE - 1, m);
    FloorDivAtLeast(ONE - 1, m, 0);
    var v := Vanishing(m);
    if v >= ONE { MulMono(ONE, 1, v, m); }
  }

  lemma FloorLifts(top: int, worst: int, minRatio: int)
    requires worst <= top && 0 <= minRatio && ONE <= minRatio * worst
    ensures 1 <= top * minRatio / ONE
  {
    MulLe(worst, top, minRatio);
    FloorDivAtLeast(top * minRatio, ONE, 1);
  }

  lemma FlooredPositive(f: Quad, ms: Quad, minRatio: Fixed, m: int, slack: int)
    requires Loose(f, slack) && InRange(ms, m) && Steady(m, slack) && 0 <= minRatio <= ONE
    requires Lifted(m, slack, minRatio)
    ensures Floored(Scaled(f, ms), minRatio).AllAtLeast(1)
  {
    ScaledBounds(f, ms, m);
    var s := Scaled(f, ms);
    FlooredExact(s, minRatio);
    if !s.AllAtLeast(1) {
      var i := if s.r == 0 then 0 else if s.c == 0 then 1 else if s.b == 0 then 2 else 3;
      VanishedTop(f, ms, m, slack, i);
      FloorLifts(s.Top(), WorstTop(m, slack), minRatio);
    }
  }

  /** One update leaves every factor positive when the floor lifts vanished dimensions. */
  lemma StepPositive(f: Quad, ms: Quad, minRatio: Fixed, m: int, slack: int)
    requires Loose(f, slack) && InRange(ms, m) && Steady(m, slack) && 0 <= minRatio <= ONE
    requires Lifted(m, slack, minRatio)
    ensures NextFactors(f, ms, minRatio).AllAtLeast(1)
  {
    SteadyMean(m, slack);
    ScaledBounds(f, ms, m);
    ScaledTop(f, ms, m, slack);
    FlooredPositive(f, ms, minRatio, m, slack);
    NextFromScaled(Scaled(f, ms), minRatio, TopFloor(m, slack));
  }

  /** The state in which the smallest dimension vanishes while the dearest one is as low as it can be. */
  function WorstFactors(m: int, slack: int): Quad
    requires Steady(m, slack)
  {
    VanishingBound(m);
    var x := CeilDiv(FOUR - slack - Vanishing(m), 3);
    Quad(Vanishing(m), x, x, x)
  }

  lemma WorstScaled(m: int, slack: int)
    requires Steady(m, slack)
    ensures Balanced(WorstFactors(m, slack), slack)
    ensures 0 < WorstTop(m, slack) <= 240 * ONE
    ensures Scaled(WorstFactors(m, slack), Quad(m, m, m, m))
            == Quad(0, WorstTop(m, slack), WorstTop(m, slack), WorstTop(m, slack))
  {
    VanishingBound(m);
    var f, ms := WorstFactors(m, slack), Quad(m, m, m, m);
    MulNonneg(f.r, m);
    ScaledAtLeast(f.c, f.c, m, m);
    MulNonneg(f.c, m);
    SteadyMean(m, slack);
    ScaledTop(f, ms, m, slack);
  }

  /** A vanished dimension stays at zero when the floor rounds down to nothing. */
  lemma ZeroStays(s: Quad, minRatio: Fixed)
    requires s.r == 0 && s.AllAtLeast(0) && 0 < s.Top() <= 240 * ONE && IsFraction(minRatio)
    requires s.Top() * minRatio < ONE
    ensures Renormalised(Floored(s, minRatio)).r == 0
  {
    FlooredExact(s, minRatio);
    FloorDivAtLeast(s.Top() * minRatio, ONE, 1);
    assert Floored(s, minRatio).r == 0;
    NextFromScaled(s, minRatio, s.Top());
  }

  /** If the floor cannot lift a vanished dimension, an update of the worst state leaves a factor of zero. */
  lemma StepVanishes(m: int, slack: int, minRatio: Fixed)
    requires Steady(m, slack) && IsFraction(minRatio) && !Lifted(m, slack, minRatio)
    ensures NextFactors(WorstFactors(m, slack), Quad(m, m, m, m), minRatio).r == 0
  {
    WorstScaled(m, slack);
    ZeroStays(Scaled(WorstFactors(m, slack), Quad(m, m, m, m)), minRatio);
  }
}
