/** What one price update does to the four factors, with exact rounding slack. */
module Renormalisation {
  import opened Arithmetic
  import opened FixedPoint
  import opened FeeMarket

  const FOUR: int := 4 * ONE

  /** Dimensions small enough that nothing in the update saturates or wraps. */
  predicate Moderate(t: Quad) { t.AllAtLeast(0) && t.Sum() <= 1000 * ONE }

  /** `g` is the share of `t` in `mean`, in fixed point and rounded up. */
  ghost predicate IsShare(g: int, t: int, mean: int) {
    && t * ONE <= g * mean <= t * ONE + mean - 1
    && 0 <= g
    && (g > 0 <==> t > 0)
  }

  ghost predicate AreShares(g: Quad, t: Quad, mean: int) {
    IsShare(g.r, t.r, mean) && IsShare(g.c, t.c, mean) && IsShare(g.b, t.b, mean) && IsShare(g.w, t.w, mean)
  }

  /** `mean` is a quarter of `sum`, rounded up. */
  ghost predicate IsMean(mean: int, sum: int) { 4 * mean - 3 <= sum <= 4 * mean }

  lemma QuarterExact(sum: Fixed)
    requires 0 <= sum <= 1000 * ONE
    ensures IsMean(Div(sum, FOUR), sum)
  {
    DivNonneg(sum, FOUR);
  }

  lemma FourExact()
    ensures FromU64Div(4, 1) == FOUR
  {
    CeilDivUnique(FOUR, 1, FOUR);
  }

  lemma MeanExact(t: Quad)
    requires Moderate(t)
    ensures IsMean(Mean(t), t.Sum())
  {
    FourExact();
    QuarterExact(t.Sum());
    assert Add(Add(Add(Add(0, t.r), t.c), t.b), t.w) == t.Sum();
  }

  lemma CeilingShares(t: int, mean: int)
    requires 0 <= t && 0 < mean
    ensures IsShare(CeilDiv(t * ONE, mean), t, mean)
  {
    var q := CeilDiv(t * ONE, mean);
    CeilDivAtMost(t * ONE, mean, 0);
    CeilDivAtMost(t * ONE, mean, -1);
    assert (q - 1) * mean == q * mean - mean;
  }

  lemma ShareExact(t: Fixed, mean: Fixed)
    requires 0 <= t <= 4 * mean && 0 < mean <= 1000 * ONE
    ensures IsShare(Div(t, mean), t, mean)
  {
    MulLe(t, 4 * mean, ONE);
    MulLe(FOUR, I128_MAX, mean);
    DivNonneg(t, mean);
    CeilingShares(t, mean);
  }

  lemma SharesExact(t: Quad, mean: Fixed)
    requires t.AllAtLeast(0) && t.Sum() <= 4 * mean && 0 < mean <= 1000 * ONE
    ensures AreShares(t.DividedBy(mean), t, mean)
  {
    ShareExact(t.r, mean);
    ShareExact(t.c, mean);
    ShareExact(t.b, mean);
    ShareExact(t.w, mean);
  }

  /** Renormalising divides every dimension, rounded up, by the mean, rounded up: nothing wraps. */
  lemma RenormalisedExact(t: Quad)
    requires Moderate(t) && t.Sum() > 0
    ensures IsMean(Mean(t), t.Sum()) && AreShares(Renormalised(t), t, Mean(t))
  {
    MeanExact(t);
    SharesExact(t, Mean(t));
  }

  lemma Distribute(a: int, b: int, c: int, d: int, m: int)
    ensures (a + b + c + d) * m == a * m + b * m + c * m + d * m
  {}

  lemma SumBounds(g: int, sum: int, mean: int)
    requires IsMean(mean, sum) && mean > 0 && sum * ONE <= g * mean <= sum * ONE + 4 * mean - 4
    ensures g <= FOUR + 3 && (FOUR - g) * mean <= 3 * ONE
  {
    if g >= FOUR + 4 { MulLe(FOUR + 4, g, mean); }
    assert (FOUR - g) * mean == FOUR * mean - g * mean;
  }

  /** Shares of the mean average to one: at most three units over, at most three units of 1/mean under. */
  lemma SharesSum(g: Quad, t: Quad, mean: int)
    requires AreShares(g, t, mean) && IsMean(mean, t.Sum()) && mean > 0
    ensures g.Sum() <= FOUR + 3
    ensures (FOUR - g.Sum()) * mean <= 3 * ONE
  {
    Distribute(g.r, g.c, g.b, g.w, mean);
    SumBounds(g.Sum(), t.Sum(), mean);
  }

  /** The factors of every update sum to four, up to the rounding of four shares and of the mean. */
  lemma RenormalisedSum(t: Quad)
    requires Moderate(t) && t.Sum() > 0
    ensures var g := Renormalised(t).Sum();
            g <= FOUR + 3 && (FOUR - g) * Mean(t) <= 3 * ONE
  {
    RenormalisedExact(t);
    SharesSum(Renormalised(t), t, Mean(t));
  }

  /** Raising to the floor keeps the dearest dimension and lifts the others to its rounded-down ratio. */
  lemma FlooredExact(s: Quad, minRatio: Fixed)
    requires Moderate(s) && 0 <= minRatio <= ONE
    ensures var t, top := Floored(s, minRatio), s.Top();
            0 <= top * minRatio / ONE <= top && t == s.RaisedTo(top * minRatio / ONE)
  {
    var top := s.Top();
    MulNonneg(top, minRatio);
    MulMono(top, minRatio, top, ONE);
  }

  lemma RaisedBounds(s: Quad, floor: Fixed)
    requires s.AllAtLeast(0) && floor <= s.Top()
    ensures var t := s.RaisedTo(floor);
            t.AllAtLeast(floor) && t.AllAtLeast(0) && t.Top() == s.Top() && s.Top() <= t.Sum() <= 4 * s.Top()
  {}

  /** `gi` is at least the ratio of `gj`, up to one unit and one unit of 1/mean. */
  ghost predicate RatioHolds(minRatio: int, gi: int, gj: int, mean: int) {
    minRatio * ((gj - 1) * mean) <= (gi * mean + ONE) * ONE
  }

  lemma RatioKept(ti: int, tj: int, top: int, minRatio: int, mean: int, gi: int, gj: int)
    requires 0 <= minRatio <= ONE && mean > 0 && 0 <= tj <= top && top * minRatio < (ti + 1) * ONE
    requires IsShare(gi, ti, mean) && IsShare(gj, tj, mean)
    ensures RatioHolds(minRatio, gi, gj, mean)
  {
    var x := (gj - 1) * mean;
    assert x == gj * mean - mean;
    MulLe(x, top * ONE, minRatio);
    assert (top * ONE) * minRatio == (top * minRatio) * ONE;
  }

  /** What the floored dimensions satisfy. */
  lemma FlooredBounds(s: Quad, minRatio: Fixed)
    requires s.AllAtLeast(0) && 0 < s.Top() <= 250 * ONE && 0 <= minRatio <= ONE
    ensures var t, top := Floored(s, minRatio), s.Top();
            Moderate(t) && t.Sum() >= top && t.Top() == top && t.AllAtLeast(top * minRatio / ONE)
  {
    FlooredExact(s, minRatio);
    RaisedBounds(s, s.Top() * minRatio / ONE);
  }

  lemma SharesRatio(g: Quad, t: Quad, minRatio: int, mean: int, i: int, j: int)
    requires AreShares(g, t, mean) && mean > 0 && 0 <= minRatio <= ONE
    requires t.AllAtLeast(0) && t.AllAtLeast(t.Top() * minRatio / ONE)
    ensures RatioHolds(minRatio, g.At(i), g.At(j), mean)
  {
    FloorDivBounds(t.Top() * minRatio, ONE);
    RatioKept(t.At(i), t.At(j), t.Top(), minRatio, mean, g.At(i), g.At(j));
  }

  /** After an update no factor is below the ratio of any other, up to one unit and one unit of 1/mean. */
  lemma RenormalisedRatio(s: Quad, minRatio: Fixed, i: int, j: int)
    requires s.AllAtLeast(0) && 0 < s.Top() <= 250 * ONE && 0 <= minRatio <= ONE
    ensures var t := Floored(s, minRatio);
            var g := Renormalised(t);
            RatioHolds(minRatio, g.At(i), g.At(j), Mean(t))
  {
    FlooredBounds(s, minRatio);
    var t := Floored(s, minRatio);
    RenormalisedExact(t);
    SharesRatio(Renormalised(t), t, minRatio, Mean(t), i, j);
  }

  lemma DivSelf(x: Fixed)
    requires 0 < x
    ensures Div(x, x) == ONE
  {
    CeilDivUnique(x * ONE, x, ONE);
    DivNonneg(x, x);
  }

  lemma EqualMean(x: Fixed)
    requires 0 <= x <= 250 * ONE
    ensures Mean(Quad(x, x, x, x)) == x
  {
    MeanExact(Quad(x, x, x, x));
  }

  /** Equal positive dimensions become exactly one each; if all are zero the division maxes them out. */
  lemma EqualDimensions(x: Fixed)
    requires 0 <= x <= 250 * ONE
    ensures var g := if x > 0 then ONE else I128_MAX;
            Renormalised(Quad(x, x, x, x)) == Quad(g, g, g, g)
  {
    EqualMean(x);
    EqualShares(x);
  }

  lemma EqualShares(x: Fixed)
    requires 0 <= x
    ensures var g := if x > 0 then ONE else I128_MAX;
            Quad(x, x, x, x).DividedBy(x) == Quad(g, g, g, g)
  {
    if x > 0 { DivSelf(x); }
  }

  lemma EqualFloored(x: Fixed, minRatio: Fixed)
    requires 0 <= x <= 250 * ONE && 0 <= minRatio <= ONE
    ensures Floored(Quad(x, x, x, x), minRatio) == Quad(x, x, x, x)
  {
    FlooredExact(Quad(x, x, x, x), minRatio);
  }
}
