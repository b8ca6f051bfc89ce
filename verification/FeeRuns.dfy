/** The fee market over whole runs of blocks. */
module FeeRuns {
  import opened Arithmetic
  import opened FixedPoint
  import opened CurveTable
  import opened PriceCurve
  import opened FeeMarket
  import opened Renormalisation
  import opened FeeSteps
  import opened Sequences

  /** Prices from which the market may start: balanced factors and a price at or above the floor. */
  predicate Sound(p: FeePrices, slack: int) { Balanced(p.Factors(), slack) && p.overallPrice >= MIN_COST }

  function Run(p: FeePrices, blocks: seq<Block>, minRatio: Fixed, scaling: Scaling): FeePrices {
    if blocks == [] then p
    else Updated(Run(p, blocks[..|blocks| - 1], minRatio, scaling), blocks[|blocks| - 1], minRatio, scaling)
  }

  lemma RunAppend(p: FeePrices, xs: seq<Block>, ys: seq<Block>, minRatio: Fixed, scaling: Scaling)
    ensures Run(p, xs + ys, minRatio, scaling) == Run(Run(p, xs, minRatio, scaling), ys, minRatio, scaling)
  {
    var step := (q: FeePrices, b: Block) => Updated(q, b, minRatio, scaling);
    RunIsFold(p, xs + ys, minRatio, scaling, step);
    RunIsFold(p, xs, minRatio, scaling, step);
    RunIsFold(Run(p, xs, minRatio, scaling), ys, minRatio, scaling, step);
    FoldAppend(step, p, xs, ys);
  }

  lemma {:induction false} RunIsFold(p: FeePrices, blocks: seq<Block>, minRatio: Fixed, scaling: Scaling,
                                     step: (FeePrices, Block) -> FeePrices)
    requires step == ((q: FeePrices, b: Block) => Updated(q, b, minRatio, scaling))
    ensures Run(p, blocks, minRatio, scaling) == Fold(step, p, blocks)
    decreases |blocks|
  {
    if blocks != [] { RunIsFold(p, blocks[..|blocks| - 1], minRatio, scaling, step); }
  }

  lemma RunFirst(p: FeePrices, b: Block, blocks: seq<Block>, minRatio: Fixed, scaling: Scaling)
    ensures Run(p, [b] + blocks, minRatio, scaling) == Run(Updated(p, b, minRatio, scaling), blocks, minRatio, scaling)
  {
    RunAppend(p, [b], blocks, minRatio, scaling);
    assert [b][..0] == [];
    assert Run(p, [b][..0], minRatio, scaling) == p;
  }

  ghost predicate ValidBlocks(blocks: seq<Block>) { forall i :: 0 <= i < |blocks| ==> ValidBlock(blocks[i]) }

  /** Every fullness scales by at least `m`. */
  ghost predicate ScalesFrom(scaling: Scaling, m: int) {
    forall usage: Fixed :: IsFraction(usage) ==> m <= scaling(usage) <= 6 * ONE
  }

  // ----- Any scaling -----

  lemma MultipliersInRange(b: Block, scaling: Scaling, m: int)
    requires ValidBlock(b) && ScalesFrom(scaling, m)
    ensures InRange(Multipliers(b, scaling), m)
  {}

  lemma UpdatedParts(p: FeePrices, b: Block, minRatio: Fixed, scaling: Scaling)
    ensures Updated(p, b, minRatio, scaling).Factors() == NextFactors(p.Factors(), Multipliers(b, scaling), minRatio)
    ensures Updated(p, b, minRatio, scaling).overallPrice == NextPrice(p.overallPrice, scaling(b.overall)) >= MIN_COST
  {}

  /** One block makes prices sound. */
  lemma UpdateSound(p: FeePrices, b: Block, minRatio: Fixed, scaling: Scaling, m: int, slack: int)
    requires Loose(p.Factors(), slack) && ValidBlock(b) && IsFraction(minRatio)
    requires ScalesFrom(scaling, m) && Steady(m, slack)
    ensures var q := Updated(p, b, minRatio, scaling);
            Sound(q, slack) && NearFour(q.Factors(), MeanFloor(m, slack))
  {
    MultipliersInRange(b, scaling, m);
    UpdatedParts(p, b, minRatio, scaling);
    StepBalanced(p.Factors(), Multipliers(b, scaling), minRatio, m, slack);
  }

  lemma UpdatePositive(p: FeePrices, b: Block, minRatio: Fixed, scaling: Scaling, m: int, slack: int)
    requires Loose(p.Factors(), slack) && ValidBlock(b) && IsFraction(minRatio)
    requires ScalesFrom(scaling, m) && Steady(m, slack)
    requires Lifted(m, slack, minRatio)
    ensures Updated(p, b, minRatio, scaling).Factors().AllAtLeast(1)
  {
    MultipliersInRange(b, scaling, m);
    UpdatedParts(p, b, minRatio, scaling);
    StepPositive(p.Factors(), Multipliers(b, scaling), minRatio, m, slack);
  }

  /** A block that some scaling takes to a vanished factor when the floor cannot lift it. */
  lemma UpdateVanishes(usage: Fixed, minRatio: Fixed, scaling: Scaling, slack: int) returns (p: FeePrices, b: Block)
    requires IsFraction(usage) && IsFraction(minRatio) && Steady(scaling(usage), slack)
    requires !Lifted(scaling(usage), slack, minRatio)
    ensures p.overallPrice == MIN_COST && p.Factors() == WorstFactors(scaling(usage), slack)
    ensures Sound(p, slack) && ValidBlock(b) && Updated(p, b, minRatio, scaling).Factors().r == 0
  {
    var m := scaling(usage);
    WorstScaled(m, slack);
    StepVanishes(m, slack, minRatio);
    var f := WorstFactors(m, slack);
    p := FeePrices(MIN_COST, f.r, f.c, f.b, f.w);
    b := Block(NormalizedCost(usage, usage, usage, usage, usage), usage);
    assert p.Factors() == f && Multipliers(b, scaling) == Quad(m, m, m, m);
    UpdatedParts(p, b, minRatio, scaling);
  }

  /** What every block establishes: sound prices, positive factors, and a sum as close to four as the mean allows. */
  ghost predicate Settled(p: FeePrices, m: int, slack: int) {
    Sound(p, slack) && p.Factors().AllAtLeast(1) && NearFour(p.Factors(), MeanFloor(m, slack))
  }

  lemma UpdateSettles(p: FeePrices, b: Block, minRatio: Fixed, scaling: Scaling, m: int, slack: int)
    requires Loose(p.Factors(), slack) && ValidBlock(b) && IsFraction(minRatio)
    requires ScalesFrom(scaling, m) && Steady(m, slack) && Lifted(m, slack, minRatio)
    ensures Settled(Updated(p, b, minRatio, scaling), m, slack)
  {
    UpdateSound(p, b, minRatio, scaling, m, slack);
    UpdatePositive(p, b, minRatio, scaling, m, slack);
  }

  ghost predicate RunInvariant(p: FeePrices, started: bool, m: int, slack: int) {
    Loose(p.Factors(), slack) && (started ==> Settled(p, m, slack))
  }

  lemma {:induction false} RunKeeps(p: FeePrices, blocks: seq<Block>, minRatio: Fixed, scaling: Scaling, m: int,
                                    slack: int)
    requires Loose(p.Factors(), slack) && ValidBlocks(blocks) && IsFraction(minRatio)
    requires ScalesFrom(scaling, m) && Steady(m, slack) && Lifted(m, slack, minRatio)
    ensures RunInvariant(Run(p, blocks, minRatio, scaling), blocks != [], m, slack)
    decreases |blocks|
  {
    if blocks != [] {
      var n := |blocks| - 1;
      RunKeeps(p, blocks[..n], minRatio, scaling, m, slack);
      UpdateSettles(Run(p, blocks[..n], minRatio, scaling), blocks[n], minRatio, scaling, m, slack);
    }
  }

  /** Factors from which the first block lands within the slack, however small their sum. */
  predicate Landing(f: Quad, m: int, slack: int) {
    f.AllAtLeast(0) && f.Sum() <= 40 * ONE && f.Top() * m >= ONE && LandingSlack(f.Top(), m) <= slack
  }

  lemma UpdateLands(p: FeePrices, b: Block, minRatio: Fixed, scaling: Scaling, m: int, slack: int)
    requires Landing(p.Factors(), m, slack) && ValidBlock(b) && IsFraction(minRatio) && ScalesFrom(scaling, m) && 0 < m
    ensures Sound(Updated(p, b, minRatio, scaling), slack)
  {
    MultipliersInRange(b, scaling, m);
    UpdatedParts(p, b, minRatio, scaling);
    StepLands(p.Factors(), Multipliers(b, scaling), minRatio, m);
  }

  /** From such factors, prices are sound after the first block and settled from the second on. */
  lemma RunLands(p: FeePrices, b: Block, blocks: seq<Block>, minRatio: Fixed, scaling: Scaling, m: int, slack: int)
    requires Landing(p.Factors(), m, slack) && ValidBlock(b) && ValidBlocks(blocks) && IsFraction(minRatio)
    requires ScalesFrom(scaling, m) && Steady(m, slack) && Lifted(m, slack, minRatio)
    ensures Sound(Run(p, [b] + blocks, minRatio, scaling), slack)
    ensures blocks != [] ==> Settled(Run(p, [b] + blocks, minRatio, scaling), m, slack)
  {
    UpdateLands(p, b, minRatio, scaling, m, slack);
    RunFirst(p, b, blocks, minRatio, scaling);
    RunKeeps(Updated(p, b, minRatio, scaling), blocks, minRatio, scaling, m, slack);
  }

  // ----- The price curve -----

  /** Parameters under which the factors stay balanced. */
  predicate Stable(a: Fixed, slack: int, minRatio: int) {
    a >= ONE && IsFraction(minRatio) && Steady(LowestMultiplier(a), slack)
  }

  lemma CurveScales(a: Fixed)
    requires a >= ONE
    ensures ScalesFrom(CurveScaling(a), LowestMultiplier(a))
    ensures CurveScaling(a)(1) == LowestMultiplier(a)
  {
    MulLe(ONE, a, HIGHEST);
    CeilDivAtMost(HIGHEST * ONE, a, HIGHEST);
    forall usage: Fixed | IsFraction(usage) ensures LowestMultiplier(a) <= CurveScaling(a)(usage) <= 6 * ONE {
      MultiplierBounds(usage, a);
    }
    MultiplierBounds(1, a);
  }

  /** Some slack is kept exactly when every multiplier is at least twelve units. */
  lemma SteadyIff(m: int)
    ensures (exists slack :: Steady(m, slack)) <==> 12 <= m <= 6 * ONE
  {
    if 12 <= m <= 6 * ONE {
      FloorDivAtLeast(3 * ONE / 4 * m, ONE, 9);
      CeilDivAtMost(TopFloor(m, ONE), 4, 2);
      assert Steady(m, ONE);
    }
    forall slack | Steady(m, slack) ensures 12 <= m { SteadyNeeds(m, slack); }
  }

  lemma SteadyNeeds(m: int, slack: int)
    requires Steady(m, slack)
    ensures 12 <= m
  {
    var x, mean := CeilDiv(FOUR - slack, 4), MeanFloor(m, slack);
    if m < 12 {
      CeilDivAtMost(FOUR - slack, 4, ONE);
      MulMono(x, m, ONE, 11);
      FloorDivAtLeast(x * m, ONE, 12);
      CeilDivAtMost(TopFloor(m, slack), 4, 3);
      MulMono(slack, mean, slack, 3);
    }
  }

  /** The least steepness parameter with a slack that runs keep: just above 4.595. */
  const LEAST_STABLE: int := 84764999863455367225

  lemma StableIff(a: Fixed, minRatio: Fixed)
    requires a >= ONE && IsFraction(minRatio)
    ensures (exists slack :: Stable(a, slack, minRatio)) <==> a >= LEAST_STABLE
  {
    var m := LowestMultiplier(a);
    CeilDivAtMost((1 - LOWEST) * ONE, a, ONE - 12);
    CeilDivAtMost((1 - LOWEST) * ONE, a, -1);
    SteadyIff(m);
    if a >= LEAST_STABLE {
      var slack :| Steady(m, slack);
      assert Stable(a, slack, minRatio);
    }
  }

  /** Every block from every sound state leaves all factors positive exactly when the floor ratio is large
      enough for the steepness parameter. */
  lemma PositiveIff(a: Fixed, slack: int, minRatio: Fixed)
    requires Stable(a, slack, minRatio)
    ensures (forall p: FeePrices, b: Block :: Sound(p, slack) && ValidBlock(b)
               ==> Updated(p, b, minRatio, CurveScaling(a)).Factors().AllAtLeast(1))
            <==> Lifted(LowestMultiplier(a), slack, minRatio)
  {
    CurveScales(a);
    var m := LowestMultiplier(a);
    if Lifted(m, slack, minRatio) {
      forall p: FeePrices, b: Block | Sound(p, slack) && ValidBlock(b)
        ensures Updated(p, b, minRatio, CurveScaling(a)).Factors().AllAtLeast(1)
      {
        UpdatePositive(p, b, minRatio, CurveScaling(a), m, slack);
      }
    } else {
      var p, b := UpdateVanishes(1, minRatio, CurveScaling(a), slack);
    }
  }

  /** Whole-run safety: every state after at least one block has positive factors, a sum of four up to the
      rounding slack, and a price at or above the floor. */
  lemma RunSafe(p: FeePrices, blocks: seq<Block>, minRatio: Fixed, a: Fixed, slack: int)
    requires Loose(p.Factors(), slack) && ValidBlocks(blocks) && Stable(a, slack, minRatio)
    requires Lifted(LowestMultiplier(a), slack, minRatio)
    ensures RunInvariant(Run(p, blocks, minRatio, CurveScaling(a)), blocks != [], LowestMultiplier(a), slack)
  {
    CurveScales(a);
    RunKeeps(p, blocks, minRatio, CurveScaling(a), LowestMultiplier(a), slack);
  }

  // ----- Concrete parameters -----

  lemma LowestAtFive(a: Fixed)
    requires a >= 5 * ONE
    ensures 1493744101018478182 <= LowestMultiplier(a) <= ONE
  {
    CeilDivAntitone((1 - LOWEST) * ONE, 5 * ONE, a);
  }

  lemma SteadyAt(m: int)
    requires 1493744101018478182 <= m <= ONE
    ensures Steady(m, 152)
  {
    FloorDivAtLeast((ONE - 38) * m, ONE, m - 38);
  }

  lemma LiftedAt(m: int, minRatio: int)
    requires 1493744101018478182 <= m <= ONE && 10 <= minRatio
    ensures Lifted(m, 152, minRatio)
  {
    FloorDivAtLeast(ONE - 1, m, 13);
    VanishingBound(m);
    var x := CeilDiv(FOUR - 152 - Vanishing(m), 3);
    MulMono(24595658764946068766, 1493744101018478182, x, m);
    FloorDivAtLeast(x * m, ONE, 1991658801357970900);
    MulMono(10, 1991658801357970900, minRatio, WorstTop(m, 152));
  }

  /** A steepness parameter of at least five and a floor ratio of at least ten units of 2^-64 keep every run safe,
      with the factors summing to four within 152 units. */
  lemma SafeParameters(a: Fixed, minRatio: Fixed)
    requires a >= 5 * ONE && 10 <= minRatio <= ONE
    ensures Stable(a, 152, minRatio) && Lifted(LowestMultiplier(a), 152, minRatio)
  {
    LowestAtFive(a);
    SteadyAt(LowestMultiplier(a));
    LiftedAt(LowestMultiplier(a), minRatio);
  }

  /** Steepness five and a floor ratio of nine units: the read factor of this sound state vanishes after one block. */
  const WORST_PRICES: FeePrices :=
    FeePrices(100, 12, 24595658764946068767, 24595658764946068767, 24595658764946068767)

  lemma WorstAtFive(m: int)
    requires m == 1493744101018478182
    ensures Steady(m, 152) && WorstFactors(m, 152) == WORST_PRICES.Factors() && !Lifted(m, 152, 9)
  {
    SteadyAt(m);
    FloorDivAtLeast(ONE - 1, m, 12);
    FloorDivAtLeast(ONE - 1, m, 13);
    CeilDivUnique(FOUR - 152 - 12, 3, 24595658764946068767);
  }

  lemma VanishesUnder(scaling: Scaling, minRatio: Fixed) returns (b: Block)
    requires scaling(1) == 1493744101018478182 && minRatio == 9
    ensures Sound(WORST_PRICES, 152) && ValidBlock(b)
    ensures Updated(WORST_PRICES, b, minRatio, scaling).Factors().r == 0
  {
    WorstAtFive(scaling(1));
    var p;
    p, b := UpdateVanishes(1, minRatio, scaling, 152);
    assert p == WORST_PRICES;
  }

  lemma LowestOfFive(a: Fixed)
    requires a == 5 * ONE
    ensures LowestMultiplier(a) == 1493744101018478182
  {
    CeilDivUnique((1 - LOWEST) * ONE, a, 16952999972691073434);
  }

  lemma FactorVanishes(a: Fixed, minRatio: Fixed) returns (b: Block)
    requires a == 5 * ONE && minRatio == 9
    ensures Sound(WORST_PRICES, 152) && ValidBlock(b)
    ensures Updated(WORST_PRICES, b, minRatio, CurveScaling(a)).Factors().r == 0
  {
    CurveScales(a);
    LowestOfFive(a);
    b := VanishesUnder(CurveScaling(a), minRatio);
  }

  /** The initial ledger parameters: price ten, factors one, floor ratio a quarter, steepness one hundred. */
  const INITIAL_PRICES: FeePrices := FeePrices(10 * ONE, ONE, ONE, ONE, ONE)

  lemma InitialParametersSafe(blocks: seq<Block>)
    requires ValidBlocks(blocks)
    ensures RunInvariant(Run(INITIAL_PRICES, blocks, ONE / 4, CurveScaling(100 * ONE)), blocks != [],
                         LowestMultiplier(100 * ONE), 152)
  {
    SafeParameters(100 * ONE, ONE / 4);
    RunSafe(INITIAL_PRICES, blocks, ONE / 4, 100 * ONE, 152);
  }
}
