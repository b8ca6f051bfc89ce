# Verified model of the Midnight ledger's fee market, proving and transaction logic

This project models the parts of the Midnight ledger where arithmetic, loops and state machines interact, and proves
what they promise for every input and every run. Nothing here executes the ledger; the model follows its code, with the
same branches, constants, rounding directions and overflow behaviour.

What is modelled, file by file:

- **Deterministic arithmetic** (`Arithmetic`, `FixedPoint`, `Powers`): 128-bit fixed-point numbers counting units of
  2^-64, with the exact saturation and wrap-around of every operator, and powers by square and multiply measured against
  true real powers.
- **Fee market** (`CurveTable`, `LogitShape`, `PriceCurve`, `Steepness`, `FeeMarket`, `Renormalisation`, `FeeSteps`,
  `FeeRuns`, `ExactMarket`, `FactorGrowth`, `PriceRuns`, `FeeMargins`, `MarginGaps`): the 101-point price curve, its
  table compared with the logit function, the per-block update of the overall price and the four dimension factors, and
  its behaviour over every run of blocks. `ExactMarket` is a second market, curve included, in unbounded integers that
  the 128-bit one is shown to follow.
- **Fees and costs** (`Fees`, `FeeLimits`, `RunningCosts`): normalisation against block limits, the fee formula,
  saturating totals.
- **Transcript rewriting** (`NoopCompaction`, `NoopMeaning`, `TranscriptProving`): weaving no-ops into the programs of a
  contract call, compacting them in place, charging gas. A program means its expansion, in which a no-op of n is n idle
  steps.
- **Divergence finder** (`TransitionGraph`, `DivergenceSearch`): the label-correcting search over logged state
  transitions and the path it reconstructs.
- **Encodings** (`Bytes`, `FieldCodec`, `CoinStructure`): derived field encoders and decoders for nested structures,
  token types, and the data hashed into commitments, nullifiers and public keys.
- **Transactions** (`UnshieldedOffers`, `Transactions`, `TransactionSteps`, `TransactionRuns`, `TransactionRules`,
  `BoundContent`, `BindingCoherence`, `UnprovenRuns`): sorting inputs together with their signatures, and the stage
  machine of transactions with its derived binding randomness.

`Options` and `Sequences` hold shared helpers.

## Findings

Properties that turned out false of the code, each with a concrete witness and, unless noted, the exact condition:

- The price curve is not monotone on its two flat ends, where interpolation can lose one unit
  (`PriceCurve.CurveDips`). It decreases between two usages exactly when they share a flat end and only the fuller one
  loses that unit (`PriceCurve.CurveMonotoneIff`).
- For the same reason `max_price_adjustment`, which evaluates the curve at full usage, can be below the largest
  multiplier. It is at a steepness of 1.0 (`PriceCurve.MaxPriceAdjustmentMisses`);
  `Steepness.MaxPriceAdjustmentIff` says for every steepness when it is not.
- A steepness below ten units of 2^-64 makes the adjustment wrap, and a negative one inverts it. Fuller blocks get no
  smaller adjustment between 1/100 and 99/100 exactly for a steepness of zero or of at least ten units
  (`Steepness.AdjustmentMonotoneIff`).
- A fee quoted with a margin of n blocks need not cover the fee after n blocks, because dimension factors rise on top
  of the overall price. `MarginGaps.MarginMissesFactors` shows it after one block for factors of one and all steepness
  parameters, ratios and prices in a range that contains the initial ones (`MarginGaps.InitialVulnerable`). With a
  minimum ratio of one it is covered up to rounding (`MarginGaps.FlatMarginCoversFee`). In between,
  `FeeMargins.MarginCoversFee` bounds the shortfall by a rate per block, at most 1.0964 under the initial parameters
  (`MarginGaps.InitialFactorRate`), or by the sum of the factors if that is less, plus explicit rounding;
  `FeeMargins.ReachedQuoteCovers` states it for every state the market reaches. This surcharge is sufficient, not
  the least one.
- Dimension factors can vanish for very small minimum ratios. `FeeRuns.PositiveIff` gives the exact threshold and
  `FeeRuns.FactorVanishes` a block at a steepness of 5.0 and a minimum ratio of nine units. The cost model specification
  applies the minimum cost to every dimension (spec/cost-model.md, lines 287 to 292); the code applies it to the overall
  price only, and the model follows the code.
- Fixed-point division of positive numbers returns a negative number exactly when the quotient lies in [2^63, 2^64)
  (`FixedPoint.DivPositive`); one divided by two units of 2^-64 does (`FixedPoint.DivWraps`).
- `normalize` accepts a cost of 2^63 against a limit of one, and rejects a zero cost against a limit of zero
  (`Fees.DimensionMisjudged`); `Fees.DimensionCheckedIff` says these are the only kinds of disagreement. A larger cost
  never pays less exactly when no limit is one or nothing fits a block at all (`FeeLimits.FeesRiseIff`).
- Compaction preserves the meaning of a program exactly when no chain of no-ops reaches 2^32
  (`NoopMeaning.CompactPreservesIff`); two no-ops adding up to 2^32 disappear (`NoopMeaning.CompactLosesChain`).
- The "longest path" of the divergence finder is a shortest path to a farthest state. A path with n transitions is a
  longest one exactly when the reachable states fit on levels 0 to n with every transition going up
  (`TransitionGraph.LongestIff`). A shortcut transition defeats the search (`TransitionGraph.ShortcutDefeatsLongest`),
  a tree does not (`TransitionGraph.TreeDeepestIsLongest`).
- Setters on proven transactions leave the binding randomness behind (`BindingCoherence.StaleAfterProof`).
  `BindingCoherence.StoreAfterProofIff` says exactly when an edit keeps it right, and five lemmas spell that out for the
  three setters and the two adders.
- Merging drops repeated coins of an offer that is joined with another one but keeps their randomness
  (`BindingCoherence.MergeLosesRepeats`). The merged randomness is right exactly when the dropped coins weigh nothing in
  the scalar field (`BindingCoherence.MergeCoherentIff`). Over a whole unproven run it is right exactly when what was
  dropped since the last recomputation weighs nothing (`UnprovenRuns.UnprovenRunIff`).

## Model

| member | source | states |
|---|---|---|
| `FixedPoint.MulExactIff` | base-crypto/src/cost_model.rs:769-779 | a product is the floor of the exact one exactly when that floor is representable |
| `FixedPoint.MulMonotone` | base-crypto/src/cost_model.rs:769-779 | products of non-negative numbers are non-negative and monotone in both operands, saturation included |
| `FixedPoint.MulCases` | base-crypto/src/cost_model.rs:769-779 | every product is its floor, the maximum when it is too large, and wraps by full turns when it is too small |
| `FixedPoint.SumsSaturate` | base-crypto/src/cost_model.rs:742-760 | sums and differences are the nearest representable number to the exact one |
| `FixedPoint.FromU64DivExactIff` | base-crypto/src/cost_model.rs:707-717 | the quotient is rounded up, and wraps to a negative number exactly when a numerator of 2^63 or more is divided by one |
| `FixedPoint.FromU128DivCases` | base-crypto/src/cost_model.rs:720-739 | the three regimes of a quotient: rounded up, wrapped, saturated |
| `FixedPoint.DivPositive` | base-crypto/src/cost_model.rs:781-797 | for positive operands: rounded up iff it fits, negative iff the quotient lies in [2^63, 2^64), maximum above |
| `FixedPoint.DivWraps` | base-crypto/src/cost_model.rs:781-797 | one divided by two units of 2^-64 comes out negative |
| `FixedPoint.DivFits` | base-crypto/src/cost_model.rs:781-797 | for all operands of either sign a representable quotient is rounded away from zero |
| `FixedPoint.DivShrinks` | base-crypto/src/cost_model.rs:781-797 | dividing any number, the least one included, by at least one rounds away from zero and never leaves the range |
| `FixedPoint.DivMonotone` | base-crypto/src/cost_model.rs:781-797 | dividing by at least one is monotone over all dividends |
| `FixedPoint.AtomicUnitsLeast` | base-crypto/src/cost_model.rs:670-681 | the conversion is the least amount worth at least the exact product, or the cap |
| `FixedPoint.AtomicUnitsMonotone` | base-crypto/src/cost_model.rs:670-681 | larger prices never convert to fewer atomic units |
| `Powers.Powi` | base-crypto/src/cost_model.rs:684-701 | the square-and-multiply loop computes the power function, negative exponents included |
| `Powers.PowiErrorBound` | base-crypto/src/cost_model.rs:684-701 | for a base in [0,1] the result lies between x^n - n*2^-64 and x^n |
| `Powers.PowiUpperBound` | base-crypto/src/cost_model.rs:684-701 | for every non-negative base the result never exceeds the true power, saturated or not |
| `Powers.PowiRelativeBound` | base-crypto/src/cost_model.rs:684-701 | for a base of at least one the result saturates or loses at most one part in 2^64 per factor |
| `Powers.PowiMonotoneInBase` | base-crypto/src/cost_model.rs:684-701 | monotone in a non-negative base |
| `Powers.PowiMonotoneInExponent` | base-crypto/src/cost_model.rs:684-701 | for a base of at least one, positive and monotone in the exponent, across zero into negative exponents |
| `Powers.PowiAntitoneInExponent` | base-crypto/src/cost_model.rs:684-701 | for a base in [0,1], antitone in the exponent |
| `Powers.ReciprocalPower` | base-crypto/src/cost_model.rs:684-701 | a negative power is the reciprocal of the positive one rounded up, whenever that power is at least three units |
| `CurveTable.PointsAreTable` | base-crypto/src/cost_model.rs:806-908 | the table has 101 points with flat ends, and rises by more than one fixed gap and less than another between all other neighbours |
| `LogitShape.TableIsLogit` | base-crypto/src/cost_model.rs:801-908 | between 1/100 and 99/100 every point lies above the one before by the rise of the logit ln(x/(1-x)), within three terms of its series and a bound on the rest |
| `LogitShape.TableMirrors` | base-crypto/src/cost_model.rs:801-908 | opposite points cancel up to 2^17 units of 2^-64, and the middle one is zero |
| `LogitShape.TableCurves` | base-crypto/src/cost_model.rs:801-908 | the rises strictly shrink up to one half and strictly grow from there on |
| `Steepness.AdjustmentsOpposite` | base-crypto/src/cost_model.rs:801-921 | blocks as far above one half as others are below it are adjusted by opposite amounts, up to twice 2^17 units divided by the steepness |
| `PriceCurve.InterpolateBounds` | base-crypto/src/cost_model.rs:916-920 | interpolation is the exact weighted sum less at most its two roundings |
| `PriceCurve.StepIsHundredth` | base-crypto/src/cost_model.rs:910-911 | neighbouring points lie a hundredth apart, rounded down |
| `PriceCurve.CurveIsLinear` | base-crypto/src/cost_model.rs:910-920 | at any usage in [0,1] the curve is the mean of its two points weighted by the distances to them, less than two units below and at most one above |
| `PriceCurve.NegativeUsage` | base-crypto/src/cost_model.rs:910-920 | usages below zero count as zero |
| `PriceCurve.CurveInSegment` | base-crypto/src/cost_model.rs:910-920 | every usage is valued between its two points, strictly below the right one between 1/100 and 99/100 |
| `PriceCurve.CurveRange` | base-crypto/src/cost_model.rs:801-921 | for every usage in [0,1] the curve stays between one unit below its first point and its last point |
| `PriceCurve.CurveStrictlyIncreasing` | base-crypto/src/cost_model.rs:801-921 | between 1/100 and 99/100 a fuller block is valued strictly higher |
| `PriceCurve.CurveAlmostIncreasing` | base-crypto/src/cost_model.rs:801-921 | over [0,1] a fuller block is never valued more than one unit lower |
| `PriceCurve.CurveDips` | base-crypto/src/cost_model.rs:801-921 | the one-unit decrease happens: usage of one unit is below zero usage, full usage below 99/100 |
| `PriceCurve.CurveMonotoneIff` | base-crypto/src/cost_model.rs:801-921 | over [0,1] a fuller block is valued lower exactly when both usages share a flat end and only the fuller one is rounded down there |
| `Steepness.AdjustmentMonotoneIff` | base-crypto/src/cost_model.rs:801-921 | over every steepness the type admits, fuller blocks get no smaller adjustment on [1/100, 99/100] exactly when it is zero or at least ten units |
| `PriceCurve.AdjustmentMonotone` | base-crypto/src/cost_model.rs:801-921 | for every steepness of at least ten units the adjustment is monotone on [1/100, 99/100] and loses at most 1/a elsewhere, one unit if a is at least 1.0 |
| `PriceCurve.MultiplierBounds` | base-crypto/src/cost_model.rs:345-347 | for every steepness of at least ten units every block's multiplier lies between two bounds, and both are attained |
| `Steepness.MirroredBounds` | base-crypto/src/cost_model.rs:345-347 | for every steepness of minus ten units or less the bounds of all multipliers are mirrored, and attained |
| `Steepness.MultiplierPositiveIff` | base-crypto/src/cost_model.rs:801-921 | over every steepness the type admits, all multipliers are positive exactly when it is zero or beyond a threshold of either sign |
| `PriceCurve.MaxPriceAdjustmentIsMax` | ledger/src/structure.rs:1227-1235 | for every steepness of at least ten units the advertised maximum is within 1/a of the true one, one unit from 1.0 on, and equal to it exactly under a stated rounding condition |
| `Steepness.MaxPriceAdjustmentIff` | ledger/src/structure.rs:1227-1235 | over every steepness the type admits, the advertised maximum bounds every multiplier exactly under a rounding condition or when it saturates |
| `PriceCurve.MaxPriceAdjustmentMisses` | ledger/src/structure.rs:1227-1235 | at a steepness of 1.0 a block at 99/100 exceeds the advertised maximum by one unit |
| `FeeMarket.MostExpensive` | base-crypto/src/cost_model.rs:364-367 | the loop finds the dearest dimension |
| `FeeMarket.RaiseToFloor` | base-crypto/src/cost_model.rs:368-370 | in place, every dimension is raised to the floor and no other changes |
| `FeeMarket.DivideBy` | base-crypto/src/cost_model.rs:382-384 | in place, every dimension is divided by the mean |
| `FeeMarket.AdjustFactors` | base-crypto/src/cost_model.rs:346-384 | the two in-place passes compute the update of the factors about which the rest is proved |
| `FeeMarket.UpdateFromFullness` | base-crypto/src/cost_model.rs:338-386 | the block update computes the price and factor update about which the rest is proved |
| `Renormalisation.RenormalisedExact` | base-crypto/src/cost_model.rs:377-384 | every new factor is its share of the mean rounded up, zero only for zero, and nothing wraps |
| `Renormalisation.RenormalisedSum` | base-crypto/src/cost_model.rs:377-384 | the factors sum to at most 4.0 + 3 units and at least 4.0 - 3*2^64/mean units |
| `Renormalisation.RenormalisedRatio` | base-crypto/src/cost_model.rs:358-385 | every factor is at least the minimum ratio of every other, up to one unit and one unit of 1/mean |
| `Renormalisation.EqualDimensions` | base-crypto/src/cost_model.rs:377-384 | equal dimensions become exactly 1.0 each, and the maximum value if they are all zero |
| `FeeSteps.EqualFactors` | base-crypto/src/cost_model.rs:345-384 | equal factors with equal multipliers become exactly 1.0 each unless their product vanishes |
| `FeeSteps.StepBalanced` | base-crypto/src/cost_model.rs:345-384 | an update of non-negative factors whose sum is within the slack below 4.0 and at most 40.0 brings the sum within the slack of 4.0 |
| `FeeSteps.StepLands` | base-crypto/src/cost_model.rs:345-384 | one update of any non-negative factors summing to at most 40.0, with a top that does not vanish, lands within a stated slack of 4.0 |
| `FeeSteps.StepPositive` | base-crypto/src/cost_model.rs:345-384 | such an update makes every factor positive when the floor lifts vanished dimensions |
| `FeeSteps.StepVanishes` | base-crypto/src/cost_model.rs:345-384 | otherwise some balanced state loses a factor |
| `FeeRuns.RunKeeps` | base-crypto/src/cost_model.rs:338-386 | for any scaling in range, from factors summing to anything between 4.0 less the slack and 40.0, every state after the first block has positive factors, a sum of 4.0 within the slack and a price at or above the floor |
| `FeeRuns.RunLands` | base-crypto/src/cost_model.rs:338-386 | from smaller sums the first block lands within the slack, and the same holds from the second block on |
| `FeeRuns.StableIff` | base-crypto/src/cost_model.rs:338-386 | some slack is kept by all runs exactly from a steepness just above 4.595 on |
| `FeeRuns.PositiveIff` | base-crypto/src/cost_model.rs:338-386 | every block from every balanced state leaves all factors positive exactly when the minimum ratio reaches a threshold |
| `FeeRuns.FactorVanishes` | base-crypto/src/cost_model.rs:338-386 | at a steepness of 5.0 and a minimum ratio of nine units a balanced state loses a factor to one valid block |
| `FeeRuns.RunSafe` | base-crypto/src/cost_model.rs:338-386 | the same for the price curve: after every run of at least one valid block from such factors they are positive, sum to 4.0 within the slack, and the price is at least 100 units |
| `FeeRuns.SafeParameters` | base-crypto/src/cost_model.rs:328-337 | a steepness of at least 5.0 and a minimum ratio of at least ten units make every run safe with a slack of 152 units |
| `FeeRuns.InitialParametersSafe` | ledger/src/structure.rs:1267-1283 | every run of the ledger's initial parameters is safe |
| `ExactMarket.StepFollows` | base-crypto/src/cost_model.rs:345-384 | no product, sum or quotient of an update saturates or wraps for factors summing to at most 40.0: it equals the update in unbounded integers |
| `ExactMarket.CurveFollows` | base-crypto/src/cost_model.rs:801-921 | no product, sum or difference inside the curve saturates or wraps for any usage in [0,1] |
| `ExactMarket.MultiplierFollows` | base-crypto/src/cost_model.rs:345-347 | every block's multiplier equals the one computed in unbounded integers, for every steepness of at least ten units in magnitude |
| `ExactMarket.MultiplierFollowsIff` | base-crypto/src/cost_model.rs:345-347 | and for every other steepness but zero some block's does not |
| `ExactMarket.RunFollows` | base-crypto/src/cost_model.rs:338-386 | for any scaling in range and an unbounded one that agrees with it on valid blocks, every run equals the run in unbounded integers, with the price capped at the maximum |
| `ExactMarket.MarketFollowsExact` | base-crypto/src/cost_model.rs:338-386 | for every steepness and slack that runs keep, every run of the 128-bit market equals the market computed in unbounded integers from the curve on, for every minimum ratio in [0,1] |
| `FactorGrowth.StepWithin` | base-crypto/src/cost_model.rs:345-384 | one update raises a bound on a factor and on the floor by at most the largest multiplier over the mean of the update |
| `FactorGrowth.StepRespects` | base-crypto/src/cost_model.rs:358-384 | one update restores the minimum ratio between factors up to one unit and one unit of 1/mean |
| `FactorGrowth.RunContained` | base-crypto/src/cost_model.rs:338-386 | over every run each factor stays within a bound that swells by a fixed rate per block |
| `FactorGrowth.FactorCeiling` | base-crypto/src/cost_model.rs:338-386 | after k blocks a factor is at most its starting value compounded k times by that rate, or its share of the sum of all factors if that is less, up to rounding |
| `PriceRuns.PriceRises` | base-crypto/src/cost_model.rs:345-375 | a multiplier of at least 1.01 raises any price at or above the floor by a hundredth, at least one unit, unless it saturates |
| `PriceRuns.PriceGrows` | base-crypto/src/cost_model.rs:345-375 | k such blocks raise the price by at least k units and geometrically |
| `PriceRuns.ThreeQuartersRise` | base-crypto/src/cost_model.rs:801-921 | for a steepness between ten units and 100, every block at least three quarters full is such a block |
| `PriceRuns.PriceCeiling` | base-crypto/src/cost_model.rs:345-375 | after any run the price is at most the starting price compounded by the largest multiplier in magnitude, negative multipliers and wrapping products included |
| `PriceRuns.MarginCoversRun` | ledger/src/structure.rs:1833-1845 | a margin of n blocks covers the overall price after every run of at most n blocks, up to explicit rounding |
| `PriceRuns.CurveMarginCoversRun` | ledger/src/structure.rs:1833-1845 | the same for the price curve and the advertised maximum adjustment for every steepness of at least 1.0, with twice the rounding where the advertised maximum is a unit low |
| `FeeMargins.QuoteCoversRun` | ledger/src/structure.rs:1833-1845 | for any scaling in range a quote with margin, made at prices that respect the minimum ratio up to c units, covers the fee after every run of at most that many blocks, up to the growth of the factors and explicit rounding, or saturates |
| `FeeMargins.MarginCoversFee` | ledger/src/structure.rs:1833-1845 | the same for the price curve, every minimum ratio in [0,1] and every steepness that keeps runs stable, with the growth computed from the steepness, the number of blocks and the cheapest factor |
| `FeeMargins.ReachedQuoteCovers` | ledger/src/structure.rs:1833-1845 | the same for every quote made after at least one block, from any start, with c computed from the steepness |
| `FeeMargins.RatioSlackAtFive` | base-crypto/src/cost_model.rs:358-384 | for a steepness of at least 5.0 that c is at most 14 |
| `MarginGaps.InitialFactorRate` | ledger/src/structure.rs:1267-1283 | under the initial parameters the rate of growth is at most 1.0964 per block |
| `MarginGaps.FlatMarginCoversFee` | ledger/src/structure.rs:1833-1845 | with a minimum ratio of one all factors stay at 1.0 and the quote covers the fee after every run within the margin without any growth |
| `MarginGaps.MarginMissesFactors` | ledger/src/structure.rs:1833-1845 | for factors of 1.0, every stable steepness, every minimum ratio that does not bind and every price neither tiny for the steepness nor about to saturate, one read-heavy block raises a fee beyond a quote with one block of margin |
| `MarginGaps.InitialVulnerable` | ledger/src/structure.rs:1267-1283 | the initial parameters are such a case |
| `Fees.NormalizeIff` | base-crypto/src/cost_model.rs:261-281 | a cost is accepted exactly when every dimension passes; with limits of at least two, exactly when it is within the limits |
| `Fees.DimensionCheckedIff` | base-crypto/src/cost_model.rs:261-281 | the check of a dimension agrees with its limit except in exactly two cases |
| `Fees.DimensionMisjudged` | base-crypto/src/cost_model.rs:261-281 | a cost of 2^63 passes a limit of one and a cost of zero fails a limit of zero |
| `Fees.NormalizedMeaning` | base-crypto/src/cost_model.rs:261-281 | every fraction of an accepted cost that does not wrap is the least one worth the cost in its own dimension |
| `Fees.FractionMonotoneIff` | base-crypto/src/cost_model.rs:707-717 | a larger cost has no smaller fraction of its limit unless it alone wraps, zero limits included |
| `Fees.OverallCostMonotone` | base-crypto/src/cost_model.rs:392-401 | the fee is non-negative and monotone in every normalised dimension |
| `Fees.OverallCostSubadditive` | base-crypto/src/cost_model.rs:392-401 | the fee of a combined cost exceeds the separate fees by at most 3*price/2^64 + 2 units |
| `Fees.CostFormula` | base-crypto/src/cost_model.rs:392-401 | the fee never exceeds price times the exact weight of the five dimensions, and falls short by at most three roundings of the weight and one of the fee unless it saturates |
| `Fees.FeeMeaning` | ledger/src/structure.rs:1833-1845 | there is a fee exactly when every dimension passes, and it is the least amount worth the cost, or the cap |
| `Fees.FeeMonotone` | base-crypto/src/cost_model.rs:261-281 | for all limits, through normalisation, fee formula and conversion, a larger cost that fits a block and does not wrap never pays less than a smaller one |
| `FeeLimits.FeesRiseIff` | base-crypto/src/cost_model.rs:261-281 | over all costs, prices and base units, a larger cost that fits a block never pays less exactly when no limit is one or some limit is zero |
| `Fees.CombinedFee` | base-crypto/src/cost_model.rs:198-209 | for all limits, adding two costs costs at least as much as each and at most the sum of both plus the rounding above, unless the total wraps |
| `FeeLimits.CostsCombineIff` | base-crypto/src/cost_model.rs:198-209 | over all costs and prices, combined costs pay as stated exactly when no limit is one |
| `RunningCosts.Sum` | base-crypto/src/cost_model.rs:499-507 | saturating accumulation equals the exact totals capped once |
| `RunningCosts.TotalOrderFree` | base-crypto/src/cost_model.rs:540-550 | totals do not depend on the order of the costs |
| `RunningCosts.SyntheticMeaning` | base-crypto/src/cost_model.rs:473-485 | times carry over, block usage is zero, the net bytes are the least number that makes up with the deleted ones for all bytes written, and the rest is churn |
| `RunningCosts.NetOfSum` | base-crypto/src/cost_model.rs:473-485 | net and churned bytes add up to the bytes written, and the net of a total is at most the capped total of the nets |
| `NoopCompaction.Advance` | ledger/src/prove.rs:304-319 | one turn of the two-headed loop: what is written compacts what was read, the pending chain and the gas account for the rest, unread steps are intact |
| `NoopCompaction.CompactInPlace` | ledger/src/prove.rs:298-324 | the two-headed loop never overwrites an unread step, leaves the compacted program, and charges exactly its no-ops, capped once |
| `NoopMeaning.CompactPreservesIff` | ledger/src/prove.rs:298-324 | compaction preserves the expansion of a program exactly when every chain of no-ops stays below 2^32 |
| `NoopMeaning.CompactLosesChain` | ledger/src/prove.rs:298-324 | two no-ops that add up to 2^32 compact to nothing and lose their meaning |
| `NoopMeaning.CompactLosesMultiples` | ledger/src/prove.rs:298-324 | whatever overflows, only multiples of 2^32 idle steps are lost |
| `NoopMeaning.GasMeaning` | ledger/src/prove.rs:306-319 | the exact gas of a program is the constant once per no-op and the coefficient once per idle step of its expansion |
| `NoopMeaning.CompactKeepsInstrs` | ledger/src/prove.rs:298-324 | instructions keep their order, whatever the chains do |
| `NoopMeaning.CompactCanonical` | ledger/src/prove.rs:298-324 | the result has no empty and no adjacent no-ops and is never longer |
| `NoopMeaning.CompactIdempotent` | ledger/src/prove.rs:298-324 | compacting twice is compacting once |
| `NoopMeaning.CanonicalUnique` | ledger/src/prove.rs:298-324 | two programs of that form with the same expansion are equal |
| `NoopMeaning.CompactDecidesMeaning` | ledger/src/prove.rs:298-324 | programs whose chains fit compact to the same program exactly when they have the same expansion |
| `TranscriptProving.TakeSkips` | ledger/src/prove.rs:278-281 | the inner loop turns all leading skips into no-ops and keeps the rest of the weaving unchanged |
| `TranscriptProving.WeaveTranscript` | ledger/src/prove.rs:264-289 | the weaving loop over one transcript computes the woven program and the remaining list, or panics |
| `TranscriptProving.WeaveSucceedsIff` | ledger/src/prove.rs:277-284 | weaving succeeds exactly when the list has an active entry for every step |
| `TranscriptProving.WeaveMeaning` | ledger/src/prove.rs:264-289 | a woven transcript keeps its instructions in order, expands to the part of the list it consumed, and stops at an active entry |
| `TranscriptProving.WeaveBothMeaning` | ledger/src/prove.rs:264-289 | with an active entry for every step both woven transcripts together expand to the part of the list they use, which ends before an active entry, and all of it when nothing is left over |
| `TranscriptProving.WeaveBoth` | ledger/src/prove.rs:264-289 | the first pass over both transcripts hands the rest of the list from one to the other, or panics |
| `TranscriptProving.WovenIff` | ledger/src/prove.rs:264-289 | both transcripts weave exactly when the list has an active entry for every step of both |
| `TranscriptProving.CompactProgram` | ledger/src/prove.rs:290-326 | the second pass returns the compacted program, canonical and with the same instructions, and the gas of its own no-ops |
| `TranscriptProving.Recharge` | ledger/src/prove.rs:320-344 | the program is replaced, its gas added to the compute time, and nothing else changes |
| `TranscriptProving.ProveTranscripts` | ledger/src/prove.rs:258-344 | panics exactly when active entries are missing; else each returned program is canonical, keeps its instructions and is charged for its own no-ops as compute time, capped, every other field is untouched, and together the returned programs spell out the used part of the skip list exactly when nothing overflows |
| `TranscriptProving.RewrittenMeaning` | ledger/src/prove.rs:258-344 | whether transcripts are present or absent, the compacted programs together spell out the part of the skip list they use exactly when no skip and no chain overflows 32 bits |
| `TransitionGraph.LongestIff` | scripts/state-divergence-identifier.py:32-61 | a walk with n transitions is a longest one exactly when the reachable states fit on levels 0 to n with every transition going up |
| `TransitionGraph.TreeWalkUnique` | scripts/state-divergence-identifier.py:32-61 | with at most one predecessor per state there is one walk to each state |
| `TransitionGraph.TreeDeepestIsLongest` | scripts/state-divergence-identifier.py:32-61 | on such graphs the path found is a longest one |
| `TransitionGraph.ShortcutDefeatsLongest` | scripts/state-divergence-identifier.py:32-61 | on a graph with a shortcut every path the search can find misses a longer one |
| `DivergenceSearch.RelaxKeeps` | scripts/state-divergence-identifier.py:46-49 | one relaxation keeps the invariant and changes nothing or makes progress |
| `DivergenceSearch.Expand` | scripts/state-divergence-identifier.py:44-49 | expanding a state settles all its transitions |
| `DivergenceSearch.GenesisPoints` | scripts/state-divergence-identifier.py:33-37 | exactly the states with outgoing and without incoming transitions, once each |
| `DivergenceSearch.InitialState` | scripts/state-divergence-identifier.py:38-41 | the initial labels and frontier satisfy the invariant |
| `DivergenceSearch.ExpandLast` | scripts/state-divergence-identifier.py:43-49 | one turn of the loop decreases unlabelled states, the sum of labels, or the frontier |
| `DivergenceSearch.Search` | scripts/state-divergence-identifier.py:38-49 | the search terminates on every graph, cyclic or not, with an empty frontier |
| `DivergenceSearch.LabelsShortest` | scripts/state-divergence-identifier.py:38-49 | on exit exactly the reachable states are labelled, each with its shortest distance |
| `DivergenceSearch.ParentsChain` | scripts/state-divergence-identifier.py:46-49 | on exit the recorded predecessors lead every labelled state back to a genesis state, one step closer each |
| `DivergenceSearch.Farthest` | scripts/state-divergence-identifier.py:50-50 | the first recorded one of the labelled states of maximal distance |
| `DivergenceSearch.Reconstruct` | scripts/state-divergence-identifier.py:52-61 | the predecessor walk ends and yields a real walk from a genesis state of exactly the labelled length |
| `DivergenceSearch.LongestPath` | scripts/state-divergence-identifier.py:32-61 | end to end: none exactly without genesis states, else a shortest walk to a farthest state |
| `Bytes.FromToLe` | base-crypto/src/repr.rs:84-97 | little-endian bytes determine every integer that fits |
| `Bytes.ToFromLe` | base-crypto/src/repr.rs:84-97 | every byte string is the little-endian form of its value |
| `Bytes.FromLeConcat` | base-crypto/src/repr.rs:84-97 | what follows in a byte string is worth 256 times more per byte in front of it |
| `FieldCodec.PrimCodec` | transient-crypto/src/curve.rs:591-652 | a primitive decodes exactly the values of its type that encode to the input, integers of every width, booleans, fields and hashes |
| `FieldCodec.PrimMeaning` | transient-crypto/src/curve.rs:591-652 | truth values become one or zero, integers themselves modulo the field, and a hash its last byte and the other 31 as a little-endian number |
| `FieldCodec.HashRoundTrip` | transient-crypto/src/repr.rs:110-129 | hashes split into two field elements decode to themselves |
| `FieldCodec.Write` | base-crypto-derive/src/lib.rs:141-143 | the generated encoder appends the fields of a nested structure in order |
| `FieldCodec.Read` | base-crypto-derive/src/lib.rs:211-287 | the generated decoder, with its shrinking slice and early returns, computes the decoding function |
| `FieldCodec.Codec` | base-crypto-derive/src/lib.rs:134-147 | for every nested schema, input decodes to a value exactly when the value conforms and encodes to that input |
| `FieldCodec.FieldAt` | base-crypto-derive/src/lib.rs:141-143 | every field is encoded at the place the sizes of the fields before it add up to |
| `FieldCodec.WrongLengthRejected` | base-crypto-derive/src/lib.rs:211-287 | every input whose length is not the summed field size is rejected |
| `CoinStructure.TokenCodec` | coin-structure/src/coin.rs:423-527 | fields decode to a token type exactly when the token type encodes to them, blank padding included |
| `CoinStructure.TokenLayout` | coin-structure/src/coin.rs:423-527 | a tag, then the hash at the place of its kind and zeros everywhere else |
| `CoinStructure.BinaryLayout` | coin-structure/src/coin.rs:529-552 | a tag, then the hash if there is one |
| `CoinStructure.TokensPrefixFree` | coin-structure/src/coin.rs:529-552 | no binary token type is a prefix of another |
| `CoinStructure.TokenSequencesUnique` | coin-structure/src/coin.rs:529-552 | concatenated token types decode uniquely |
| `CoinStructure.CommitmentData` | coin-structure/src/coin.rs:626-635 | the appended pieces form the commitment preimage, of 134 bytes |
| `CoinStructure.NullifierData` | coin-structure/src/coin.rs:637-648 | the appended pieces form the nullifier preimage, of 134 bytes |
| `CoinStructure.CommitmentLayout` | coin-structure/src/coin.rs:626-635 | the domain separator as text, nonce, token type, little-endian amount, and the recipient behind its tag, each at its offset |
| `CoinStructure.NullifierLayout` | coin-structure/src/coin.rs:637-648 | the same with its own separator and the evidence |
| `CoinStructure.PublicKeyLayout` | coin-structure/src/coin.rs:161-167 | the separator as text, then the key |
| `CoinStructure.CommitmentInjective` | coin-structure/src/coin.rs:626-635 | commitment preimages determine coin and recipient |
| `CoinStructure.NullifierInjective` | coin-structure/src/coin.rs:637-648 | nullifier preimages determine coin and evidence |
| `CoinStructure.DomainsApart` | coin-structure/src/coin.rs:161-167 | commitment, nullifier and public-key preimages never coincide |
| `UnshieldedOffers.SortedUnique` | ledger-wasm/src/unshielded.rs:91-98 | sorted permutations are unique, so any sorting routine gives the same result |
| `UnshieldedOffers.SortedFirsts` | ledger-wasm/src/unshielded.rs:91-98 | sorting pairs sorts their first components, duplicates included |
| `UnshieldedOffers.NewOffer` | ledger-wasm/src/unshielded.rs:76-107 | inputs and outputs are sorted permutations; with matching counts the pairs by index are a permutation of the caller's pairs, otherwise signatures stay as given |
| `UnshieldedOffers.PairsAligned` | ledger-wasm/src/unshielded.rs:91-98 | zipping the stored inputs and signatures gives the sorted pairs |
| `UnshieldedOffers.OfferCanonical` | ledger-wasm/src/unshielded.rs:76-107 | two calls build the same offer exactly when they hold the same pairs and the same outputs |
| `UnshieldedOffers.BuiltAcceptedIff` | ledger/src/verify.rs:441-485 | the ledger accepts a built offer exactly when the caller's own lists pair up, repeat no input and verify pairwise |
| `Transactions.CoinSumUnion` | zswap/src/structure.rs:500-509 | the binding randomness of coins listed together adds up, repeated coins included |
| `Transactions.ResidueIff` | ledger/src/construct.rs:272-289 | every integer is congruent to exactly one scalar |
| `Transactions.OfferRandomness` | zswap/src/structure.rs:500-509 | folding over the coins in any order gives the one scalar congruent to their sum, each coin as often as it is listed |
| `Transactions.FallibleRandomness` | ledger/src/construct.rs:278-283 | folding over the fallible offers in any order gives the one scalar congruent to their sum |
| `Transactions.IntentRandomness` | ledger/src/construct.rs:284-288 | folding over the intents in any order gives the one scalar congruent to the sum of what they open to |
| `Transactions.RecomputeBindingRandomness` | ledger/src/construct.rs:272-289 | the recomputed randomness is the one scalar congruent to the sum over all components, independent of map order; the rows below say what each adds |
| `Transactions.IntentAdds` | ledger/src/construct.rs:284-288 | filing an intent with randomness r under a free segment takes the recomputed scalar s to the one congruent to s + r, and a sealed intent adds nothing |
| `Transactions.GuaranteedCoinAdds` | zswap/src/structure.rs:500-509 | listing one more coin in the guaranteed offer adds the randomness of an input, subtracts that of an output, and for a transient adds the spent and subtracts the created one |
| `Transactions.FallibleCoinAdds` | ledger/src/construct.rs:278-283 | the same for a fallible offer of any segment |
| `Transactions.EmptyOfferAdds` | ledger/src/construct.rs:272-283 | an offer without coins adds nothing |
| `Transactions.NothingRecomputes` | ledger/src/construct.rs:272-289 | parts without coins and intents recompute to zero |
| `Transactions.OneIntentRecomputes` | ledger/src/construct.rs:284-288 | parts with one open intent and nothing else recompute to its randomness |
| `TransactionSteps.StoreEdits` | ledger-wasm/src/tx.rs:773-815 | storing edited parts changes nothing but the edited components and the randomness, which is recomputed exactly for unproven transactions |
| `TransactionSteps.AddOfferEdits` | ledger-wasm/src/tx.rs:833-875 | adding an offer changes the guaranteed offer alone or the chosen segment alone, every other segment keeping its offer |
| `TransactionSteps.AddIntentEdits` | ledger-wasm/src/tx.rs:1031-1080 | adding an intent changes one segment other than zero, every other segment keeping its intent, and a guaranteed-only intent has no fallible content |
| `TransactionSteps.Handle.Assign` | ledger-wasm/src/tx.rs:773-815 | edited parts are stored, with recomputed randomness exactly for unproven transactions |
| `TransactionSteps.Handle.SetGuaranteedOffer` | ledger-wasm/src/tx.rs:755-831 | errors when bound, not standard or of the wrong type leave the transaction alone; otherwise only the offer and the randomness change |
| `TransactionSteps.Handle.SetFallibleOffer` | ledger-wasm/src/tx.rs:883-928 | the same for fallible offers |
| `TransactionSteps.Handle.SetIntentMap` | ledger-wasm/src/tx.rs:1088-1152 | the same for intents |
| `TransactionSteps.Handle.AddZswapOffer` | ledger-wasm/src/tx.rs:833-875 | works on a copy and edits only the chosen segment, or the guaranteed offer |
| `TransactionSteps.Handle.AddOneIntent` | ledger-wasm/src/tx.rs:1031-1080 | works on a copy, rejects segment zero and fallible content in the guaranteed segment |
| `TransactionRules.SettersDecide` | ledger-wasm/src/tx.rs:755-1152 | each setter succeeds exactly for an unbound standard transaction and a fitting argument, and otherwise which of three errors it gives |
| `TransactionRules.SegmentsChosen` | ledger-wasm/src/tx.rs:833-1080 | which segment each way of asking for one stands for |
| `TransactionRules.AddOfferDecides` | ledger-wasm/src/tx.rs:833-875 | the same for adding an offer; taking nothing out of nothing succeeds without a change |
| `TransactionRules.AddIntentDecides` | ledger-wasm/src/tx.rs:1031-1080 | the same for adding an intent, whose content and segment are checked first |
| `TransactionRules.AddCallsDecides` | ledger-wasm/src/tx.rs:931-1030 | adding calls succeeds exactly for an unproven, unbound standard transaction, calls that partition, a fitting segment and coins that their offers do not list yet, and otherwise which error comes first |
| `TransactionRules.AddCallsEdits` | ledger-wasm/src/tx.rs:931-1030 | added calls file their content, fallibility and a new opening under one segment, collect the coins of both sides in their offers, and leave every other segment alone |
| `TransactionRules.MergeDecides` | ledger/src/structure.rs:1390-1449 | merging succeeds exactly for standard transactions of the same stage and network that share no segment with intents and no coin in any one place, and which of these fails first decides the error |
| `TransactionRules.StepPerforms` | ledger-wasm/src/tx.rs:322-1152 | every command of a run on a typed transaction succeeds exactly when it is allowed, does then to stage, offers, intents and randomness what it says, and changes nothing otherwise |
| `TransactionRuns.RunForward` | ledger-wasm/src/tx.rs:322-574 | over every run of operations, stages only move forward: erased signatures and proofs never return, bound never becomes unbound, bound before proving is never proven |
| `TransactionRuns.ReachesIff` | ledger-wasm/src/tx.rs:322-574 | the stages reachable from a transaction are exactly the forward ones |
| `TransactionRuns.RunTyped` | ledger-wasm/src/tx.rs:58-100 | every component of a transaction stays typed for the transaction's own stage over every run |
| `BoundContent.ProveKeeps` | ledger-wasm/src/tx.rs:347-487 | proving succeeds exactly for an unproven, unbound transaction when proofs do, changes then the stage and no content, and which error it gives otherwise |
| `BoundContent.BindKeeps` | ledger-wasm/src/tx.rs:552-574 | binding seals whatever still has proofs and changes no content |
| `BoundContent.ErasuresKeep` | ledger-wasm/src/tx.rs:489-550 | erasing proofs or signatures changes its part of the stage and no content |
| `BoundContent.MockProveSeals` | ledger-wasm/src/tx.rs:323-345 | mock proving succeeds like proving, also binds, turns every commitment into the placeholder, and changes nothing else |
| `BoundContent.BoundRunFrozen` | ledger-wasm/src/tx.rs:765-772 | while bound, every run without merging keeps network and randomness, every coin of every segment, and every intent with its content, flags and commitment |
| `BoundContent.MergeGrows` | ledger/src/structure.rs:1390-1449 | a merged transaction holds every coin of both in its segment, a repeated one at least once, and every intent of both with its content, flags and commitment |
| `BoundContent.MergeOnly` | ledger/src/structure.rs:1390-1449 | and it holds nothing else: every coin is from one of the two, in the same segment, and so is every intent |
| `BoundContent.BoundRunGrows` | ledger-wasm/src/tx.rs:609-652 | while bound, no run loses a coin from its segment or removes an intent or alters its content, flags or commitment |
| `BindingCoherence.MergeCoherentIff` | ledger/src/structure.rs:1390-1449 | merging transactions with right randomness gives right randomness exactly when the repeated coins that joining drops weigh nothing in the scalar field |
| `BindingCoherence.MergeCoherent` | ledger/src/structure.rs:1390-1449 | in particular when both list every coin once |
| `BindingCoherence.MergeLosesRepeats` | zswap/src/structure.rs:584-622 | an offer listing a coin twice, merged with another offer, leaves the randomness one coin too high |
| `BindingCoherence.RunCoherent` | ledger-wasm/src/tx.rs:755-1152 | every run without edits after proving, mock proofs over intents and merges that drop weighty coins keeps the randomness equal to its recomputation, in every stage |
| `UnprovenRuns.UnprovenRunIff` | ledger-wasm/src/tx.rs:755-1152 | after every run that ends unproven, bound or not, the randomness equals its recomputation exactly when the coins that merges dropped since the last recomputation weigh nothing |
| `UnprovenRuns.PlainRunCoherent` | ledger-wasm/src/tx.rs:755-1152 | in particular when every offer lists every coin once |
| `UnprovenRuns.FromPartsBuilds` | ledger-wasm/src/tx.rs:175-306 | a new transaction is unproven, unbound and signed, holds exactly what it was given, fallible offer and intent under one segment, and the randomness of just that |
| `UnprovenRuns.FromPartsIff` | ledger-wasm/src/tx.rs:175-306 | the same for every run from newly created transactions |
| `BindingCoherence.StoreAfterProofIff` | ledger-wasm/src/tx.rs:795-830 | storing parts after proving keeps the randomness right exactly when the intents stay open and the totals agree in the scalar field |
| `BindingCoherence.ProvenGuaranteedIff` | ledger-wasm/src/tx.rs:755-831 | replacing the guaranteed offer after proving does exactly when old and new offer weigh the same in the scalar field |
| `BindingCoherence.ProvenFallibleIff` | ledger-wasm/src/tx.rs:883-928 | replacing the fallible offers after proving does exactly when their totals agree in the scalar field |
| `BindingCoherence.ProvenIntentsIff` | ledger-wasm/src/tx.rs:1088-1152 | replacing the intents after proving does exactly when they are open and their totals agree in the scalar field |
| `BindingCoherence.ProvenAddOfferIff` | ledger-wasm/src/tx.rs:833-875 | adding an offer after proving does exactly when it weighs as much as the one it replaces, or nothing |
| `BindingCoherence.ProvenAddIntentIff` | ledger-wasm/src/tx.rs:1031-1080 | adding an intent after proving does exactly when it is open and opens to the value of the one it replaces, or zero |
| `BindingCoherence.StaleAfterProof` | ledger-wasm/src/tx.rs:795-830 | a setter on a proven transaction that leaves the randomness wrong |

## Left out

- Floating point conversions, serialisation and display of fixed-point numbers and costs.
- TableIsLogit: bounds the logarithm by its series; that the series sums to the logarithm, and the last bits of each entry, are taken as given.
- `powi` with exponent `i32::MIN`, whose negation overflows; `Exponent` excludes it.
- Overflow panics of debug builds: the sign product in `Div`, the no-op counter and the `n as u32` cast are modelled as they behave in release builds, by wrapping.
- MarginCoversFee: its growth rate and rounding are an upper bound not shown to be attained; which prices and ratios between those of `FlatMarginCoversFee` and `MarginMissesFactors` need a surcharge is not characterised.
- CurveMarginCoversRun: a steepness below 1.0 is not covered.
- MarketFollowsExact: needs a steepness with a slack that runs keep; `StableIff` says which, and below it multipliers vanish or turn negative.
- AdjustmentMonotone: needs a steepness of at least ten units of 2^-64, which `AdjustmentMonotoneIff` shows to be necessary unless it is zero.
- MultiplierBounds: a steepness of fewer than ten units in magnitude, by which values of the curve wrap, is not covered.
- MaxPriceAdjustmentIsMax: its distance to the true maximum is for a steepness of at least ten units; `MaxPriceAdjustmentIff` covers every other one.
- MultiplierFollows: a steepness of fewer than ten units in magnitude is excluded, exactly as `MultiplierFollowsIff` says.
- RunCoherent: its condition for runs that prove or erase is sufficient; `UnprovenRunIff` is exact for the others.
- FeeMonotone: a larger cost that wraps is excluded; `FeesRiseIff` says for which limits none does.
- CombinedFee: the same, with `CostsCombineIff`.
- ThreeQuartersRise: a steepness below ten units, by which values of the curve wrap, is not covered.
- Branch and jump targets relative to inserted no-ops; meaning is the order of instructions and idle steps.
- Proof generation, proof checking, key resolution and everything asynchronous; whether proving succeeds is a parameter.
- The effect of proving on an intent inside `TransactionSteps` (its calls are rewritten as in `TranscriptProving`); an intent's content is an opaque label there.
- How `add_calls` partitions transcripts and splits coins; the outcome is a parameter of `AddCalls`.
- Random choice of segments; the drawn segment is a parameter in the range the code draws from.
- Decoding of JavaScript values; operations start from decoded offers, intents and segments.
- The segment recorded inside a coin's proof, which creating a transaction or adding calls rewrites.
- NewOffer: sorts values rather than vectors in place; by `SortedUnique` the result does not depend on the sorting routine.
- Hash functions; preimages are modelled, digests are not.
- The `Value` form of token types, whose tags differ from the other two encodings.
- Parsing of log files and the set comparison of the divergence finder.
- Setters of intents that accept bound intents, and the comparison of offers by inputs only.
