/** A transaction's binding randomness against the components it is meant to sum up. */
module BindingCoherence {
  import opened Options
  import opened Transactions
  import opened TransactionSteps
  import opened TransactionRuns

  /** The randomness of every intent's commitment is known. */
  predicate AllOpen(intents: map<Segment, Intent>) { forall k :: k in intents ==> intents[k].commitment.Randomness? }

  ghost predicate Coherent(tx: Transaction) {
    tx.body.Standard? ==>
      && AllOpen(tx.body.parts.intents)
      && tx.body.parts.randomness == Recomputed(tx.body.parts)
  }

  // ----- Merging adds totals, less repeated coins -----

  /** The listings that collecting an offer's coins into a set drops. */
  ghost function Repeated(o: Offer): multiset<Coin> { o.coins - Once(o.coins) }

  lemma OnceSum(o: Offer)
    ensures CoinSum(o.coins) == CoinSum(Once(o.coins)) + CoinSum(Repeated(o))
  {
    CoinSumUnion(Once(o.coins), Repeated(o));
    assert Once(o.coins) + Repeated(o) == o.coins;
  }

  lemma JoinedSum(x: Offer, y: Offer)
    ensures CoinSum(Joined(x, y).coins) + CoinSum(Repeated(x)) + CoinSum(Repeated(y))
            == CoinSum(x.coins) + CoinSum(y.coins)
  {
    OnceSum(x);
    OnceSum(y);
    CoinSumUnion(Once(x.coins), Once(y.coins));
  }

  /** What merging two offers, where both are present, loses. */
  ghost function JoinLoss(a: Option<Offer>, b: Option<Offer>): int {
    if a.Some? && b.Some? then CoinSum(Repeated(a.value)) + CoinSum(Repeated(b.value)) else 0
  }

  ghost function FallibleLosses(a: map<Segment, Offer>, b: map<Segment, Offer>): map<Segment, int> {
    map k | k in a && k in b :: CoinSum(Repeated(a[k])) + CoinSum(Repeated(b[k]))
  }

  ghost function MergeLoss(a: Parts, b: Parts): int {
    JoinLoss(a.guaranteed, b.guaranteed) + SegmentSum(FallibleLosses(a.fallible, b.fallible))
  }

  lemma MergeOptionSum(a: Option<Offer>, b: Option<Offer>)
    requires MergeOption(a, b).Ok?
    ensures GuaranteedSum(MergeOption(a, b).value) + JoinLoss(a, b) == GuaranteedSum(a) + GuaranteedSum(b)
  {
    if a.Some? && b.Some? { JoinedSum(a.value, b.value); }
  }

  lemma {:induction false} SumsBalance(a: map<Segment, int>, b: map<Segment, int>, c: map<Segment, int>,
                                       d: map<Segment, int>, n: nat)
    requires forall k: int :: 0 <= k < n ==> At(c, k) + At(d, k) == At(a, k) + At(b, k)
    ensures SumBelow(c, n) + SumBelow(d, n) == SumBelow(a, n) + SumBelow(b, n)
  {
    if n > 0 { SumsBalance(a, b, c, d, n - 1); }
  }

  lemma MergedOffersSum(a: map<Segment, Offer>, b: map<Segment, Offer>)
    ensures SegmentSum(OfferSums(MergedOffers(a, b))) + SegmentSum(FallibleLosses(a, b))
            == SegmentSum(OfferSums(a)) + SegmentSum(OfferSums(b))
  {
    var c, d := OfferSums(MergedOffers(a, b)), FallibleLosses(a, b);
    forall k: int | 0 <= k < 0x1_0000 ensures At(c, k) + At(d, k) == At(OfferSums(a), k) + At(OfferSums(b), k) {
      if k in a && k in b { JoinedSum(a[k], b[k]); }
    }
    SumsBalance(OfferSums(a), OfferSums(b), c, d, 0x1_0000);
  }

  lemma JoinedIntentsSum(a: map<Segment, Intent>, b: map<Segment, Intent>)
    requires a.Keys !! b.Keys
    ensures SegmentSum(IntentSums(a + b)) == SegmentSum(IntentSums(a)) + SegmentSum(IntentSums(b))
  {
    SumBelowAdds(IntentSums(a), IntentSums(b), IntentSums(a + b), 0x1_0000);
  }

  lemma MergeTotal(a: Parts, b: Parts)
    requires MergeParts(a, b).Ok?
    ensures Total(MergeParts(a, b).value) + MergeLoss(a, b) == Total(a) + Total(b)
  {
    MergeOptionSum(a.guaranteed, b.guaranteed);
    MergedOffersSum(a.fallible, b.fallible);
    JoinedIntentsSum(a.intents, b.intents);
  }

  lemma RandomnessIff(x: int, r: Scalar, y: int, s: Scalar, total: int, loss: int)
    requires r == Residue(x) && s == Residue(y) && total + loss == x + y
    ensures Plus(r, s) == Residue(total) <==> Vanishes(loss)
  {
    PlusReduces(x, r, y, s);
    ResidueIff(x + y, Plus(r, s));
    ResiduesEqualIff(total, x + y);
    assert x + y - total == loss;
  }

  lemma MergedFields(tx: Transaction, other: Transaction)
    requires Merge(tx, other).Ok?
    ensures tx.body.Standard? && other.body.Standard? && MergeParts(tx.body.parts, other.body.parts).Ok?
    ensures var a, b, m := tx.body.parts, other.body.parts, Merge(tx, other).value.body;
            m == Standard(MergeParts(a, b).value) && m.parts.intents == a.intents + b.intents
            && m.parts.randomness == Plus(a.randomness, b.randomness)
  {}

  /** Merging coherent transactions yields a coherent one exactly when the coins that merged offers list repeatedly
      cancel in the scalar field. */
  lemma MergeCoherentIff(tx: Transaction, other: Transaction)
    requires Coherent(tx) && Coherent(other) && Merge(tx, other).Ok?
    ensures Coherent(Merge(tx, other).value) <==> Vanishes(MergeLoss(tx.body.parts, other.body.parts))
  {
    MergedFields(tx, other);
    var a, b, m := tx.body.parts, other.body.parts, Merge(tx, other).value.body.parts;
    MergeTotal(a, b);
    RandomnessIff(Total(a), a.randomness, Total(b), b.randomness, Total(m), MergeLoss(a, b));
  }

  /** An offer that lists every coin once, and a transaction of such offers. */
  predicate PlainCoins(coins: multiset<Coin>) { forall c :: c in coins ==> coins[c] == 1 }

  predicate PlainOption(o: Option<Offer>) { o.Some? ==> PlainCoins(o.value.coins) }

  predicate PlainOffers(offers: map<Segment, Offer>) { forall k :: k in offers ==> PlainCoins(offers[k].coins) }

  predicate Plain(tx: Transaction) {
    tx.body.Standard? ==> PlainOption(tx.body.parts.guaranteed) && PlainOffers(tx.body.parts.fallible)
  }

  lemma PlainRepeatsNothing(o: Offer)
    requires PlainCoins(o.coins)
    ensures CoinSum(Repeated(o)) == 0
  {
    assert Repeated(o) == multiset{};
  }

  lemma {:induction false} SumOfZeros(m: map<Segment, int>, n: nat)
    requires forall k :: k in m ==> m[k] == 0
    ensures SumBelow(m, n) == 0
  {
    if n > 0 { SumOfZeros(m, n - 1); }
  }

  lemma PlainMergesWithoutLoss(a: Parts, b: Parts)
    requires PlainOption(a.guaranteed) && PlainOffers(a.fallible)
    requires PlainOption(b.guaranteed) && PlainOffers(b.fallible)
    ensures MergeLoss(a, b) == 0 && Vanishes(MergeLoss(a, b))
  {
    ZeroVanishes();
    if a.guaranteed.Some? { PlainRepeatsNothing(a.guaranteed.value); }
    if b.guaranteed.Some? { PlainRepeatsNothing(b.guaranteed.value); }
    var losses := FallibleLosses(a.fallible, b.fallible);
    forall k | k in losses ensures losses[k] == 0 {
      PlainRepeatsNothing(a.fallible[k]);
      PlainRepeatsNothing(b.fallible[k]);
    }
    SumOfZeros(losses, 0x1_0000);
  }

  /** Merging coherent transactions that list every coin once yields a coherent one. */
  lemma MergeCoherent(tx: Transaction, other: Transaction)
    requires Coherent(tx) && Coherent(other) && Plain(tx) && Plain(other) && Merge(tx, other).Ok?
    ensures Coherent(Merge(tx, other).value)
  {
    MergeCoherentIff(tx, other);
    PlainMergesWithoutLoss(tx.body.parts, other.body.parts);
  }

  lemma OneCoinSum(c: Coin)
    ensures CoinSum(multiset{c}) == Contribution(c)
  {
    CoinSumRemove(multiset{c}, c);
    assert Less(multiset{c}, c) == multiset{};
  }

  lemma OneDoesNotVanish()
    ensures !Vanishes(1)
  {
    ScalarReduces(1);
    if Vanishes(1) { ReducesOnce(1, 0, 1); }
  }

  function OpenWith(coins: multiset<Coin>, r: Scalar): Transaction {
    Transaction(Stage(true, Unproven(false)), Standard(Parts("", Some(Offer(Preimages, coins)), map[], map[], r)))
  }

  lemma OpenWithCoherent(coins: multiset<Coin>, r: Scalar)
    requires CoinSum(coins) == r
    ensures Coherent(OpenWith(coins, r))
  {
    SegmentSumEmpty(OfferSums(map[]));
    SegmentSumEmpty(IntentSums(map[]));
    ScalarReduces(r);
    ResidueIff(r, r);
  }

  lemma TwiceListed(x: Coin)
    ensures CoinSum(multiset{x, x}) == 2 * Contribution(x)
  {
    OneCoinSum(x);
    CoinSumUnion(multiset{x}, multiset{x});
    assert multiset{x} + multiset{x} == multiset{x, x};
  }

  lemma OnceListed(x: Coin)
    ensures Once(multiset{x, x}) == multiset{x} && Once(multiset{x}) == multiset{x}
  {}

  lemma OpenMerge(s: multiset<Coin>, r: Scalar, t: multiset<Coin>, q: Scalar)
    requires s !! t
    ensures Merge(OpenWith(s, r), OpenWith(t, q)).Ok?
    ensures MergeLoss(OpenWith(s, r).body.parts, OpenWith(t, q).body.parts)
            == CoinSum(s - Once(s)) + CoinSum(t - Once(t))
  {
    SegmentSumEmpty(FallibleLosses(map[], map[]));
  }

  lemma RepeatLoss(x: Coin, y: Coin)
    ensures CoinSum(multiset{x, x} - Once(multiset{x, x})) == Contribution(x)
    ensures CoinSum(multiset{y} - Once(multiset{y})) == 0
  {
    OnceListed(x);
    OnceListed(y);
    OneCoinSum(x);
    assert multiset{x, x} - multiset{x} == multiset{x} && multiset{y} - multiset{y} == multiset{};
  }

  lemma RepeatExample(x: Coin, y: Coin) returns (a: Transaction, b: Transaction)
    requires x == Input(0, 1) && y == Input(1, 1)
    ensures a == OpenWith(multiset{x, x}, 2) && b == OpenWith(multiset{y}, 1) && a.body.Standard? && b.body.Standard?
    ensures Coherent(a) && Coherent(b) && Merge(a, b).Ok? && MergeLoss(a.body.parts, b.body.parts) == 1
  {
    a, b := OpenWith(multiset{x, x}, 2), OpenWith(multiset{y}, 1);
    TwiceListed(x);
    OneCoinSum(y);
    OpenWithCoherent(multiset{x, x}, 2);
    OpenWithCoherent(multiset{y}, 1);
    RepeatLoss(x, y);
    OpenMerge(multiset{x, x}, 2, multiset{y}, 1);
  }

  /** An offer that lists a coin twice, merged with another offer, leaves the randomness one coin too high. */
  lemma MergeLosesRepeats(x: Coin, y: Coin) returns (a: Transaction, b: Transaction)
    requires x == Input(0, 1) && y == Input(1, 1)
    ensures a == OpenWith(multiset{x, x}, 2) && b == OpenWith(multiset{y}, 1)
    ensures Coherent(a) && Coherent(b) && Merge(a, b).Ok? && !Coherent(Merge(a, b).value)
  {
    a, b := RepeatExample(x, y);
    OneDoesNotVanish();
    MergeCoherentIff(a, b);
  }

  // ----- Stage changes keep the total -----

  lemma MoveTotal(tx: Transaction, s: Stage)
    requires tx.body.Standard?
    ensures var p, q := tx.body.parts, Move(tx, s).body.parts;
            Total(q) == Total(p) && q.randomness == p.randomness && (AllOpen(p.intents) ==> AllOpen(q.intents))
  {
    var p := tx.body.parts;
    assert OfferSums(RetagAll(p.fallible, s.phase.Kind())) == OfferSums(p.fallible);
    assert IntentSums(Restage(p.intents, s)) == IntentSums(p.intents);
  }

  lemma MoveCoherent(tx: Transaction, s: Stage)
    requires Coherent(tx)
    ensures Coherent(Move(tx, s))
  {
    if tx.body.Standard? { MoveTotal(tx, s); }
  }

  lemma StoreCoherent(tx: Transaction, p: Parts)
    requires tx.stage.phase.Unproven?
    requires AllOpen(p.intents)
    ensures Coherent(Store(tx, p))
  {
    assert Total(Recompute(p)) == Total(p);
  }

  // ----- Runs -----

  /** Which commands keep the randomness right: no mock proofs over intents, no edits of proven components, and no
      merges that lose the randomness of repeated coins. */
  ghost predicate Balanced(tx: Transaction, c: Command) {
    && (c.DoMockProve? && Step(tx, c).Ok? ==> IntentsOf(tx) == map[])
    && (c.DoMerge? && Step(tx, c).Ok? ==> Vanishes(MergeLoss(tx.body.parts, c.other.body.parts)))
    && (c.DoSetGuaranteed? || c.DoSetFallible? || c.DoSetIntents? || c.DoAddOffer? || c.DoAddIntent?
        ==> tx.stage.phase.Unproven? || tx.stage.phase.Bound())
  }

  ghost predicate CoherentInput(c: Command) { TypedCommand(c) && (c.DoMerge? ==> Coherent(c.other)) }

  lemma GuaranteedCoherent(tx: Transaction, o: Option<Offer>)
    requires Coherent(tx) && tx.stage.phase.Unproven? && SetGuaranteed(tx, o).Ok?
    ensures Coherent(SetGuaranteed(tx, o).value)
  {
    StoreCoherent(tx, tx.body.parts.(guaranteed := o));
  }

  lemma FallibleCoherent(tx: Transaction, offers: map<Segment, Offer>)
    requires Coherent(tx) && tx.stage.phase.Unproven? && SetFallible(tx, offers).Ok?
    ensures Coherent(SetFallible(tx, offers).value)
  {
    StoreCoherent(tx, tx.body.parts.(fallible := offers));
  }

  lemma IntentsCoherent(tx: Transaction, intents: map<Segment, Intent>)
    requires tx.stage.phase.Unproven? && IntentsTyped(intents) && SetIntents(tx, intents).Ok?
    ensures Coherent(SetIntents(tx, intents).value)
  {
    StoreCoherent(tx, tx.body.parts.(intents := intents));
  }

  lemma CallsCoherent(tx: Transaction, at: Where, draw: Segment, calls: Calls)
    requires Coherent(tx) && AddCalls(tx, at, draw, calls).Ok?
    ensures Coherent(AddCalls(tx, at, draw, calls).value)
  {
    StoreCoherent(tx, CalledParts(tx, CallSegment(at, draw), calls).value);
  }

  lemma StepCoherent(tx: Transaction, c: Command)
    requires Typed(tx) && Coherent(tx) && CoherentInput(c) && Balanced(tx, c)
    ensures Coherent(After(tx, c))
  {
    var r := Step(tx, c);
    match c
    case DoMerge(other) => if r.Ok? { MergeCoherentIff(tx, other); }
    case DoProve(_) => MoveCoherent(tx, tx.stage.(phase := Proven(false)));
    case DoMockProve(_) =>
      var proven := Move(tx, tx.stage.(phase := Proven(false)));
      MoveCoherent(tx, tx.stage.(phase := Proven(false)));
      MoveCoherent(proven, proven.stage.(phase := Proven(true)));
    case DoEraseProofs => MoveCoherent(tx, tx.stage.(phase := ProofErased));
    case DoEraseSignatures => MoveCoherent(tx, tx.stage.(signed := false));
    case DoBind =>
      MoveCoherent(tx, tx.stage.(phase := Unproven(true)));
      MoveCoherent(tx, tx.stage.(phase := Proven(true)));
    case DoSetGuaranteed(o) => if r.Ok? { GuaranteedCoherent(tx, o); }
    case DoSetFallible(offers) => if r.Ok? { FallibleCoherent(tx, offers); }
    case DoSetIntents(intents) => if r.Ok? { IntentsCoherent(tx, intents); }
    case DoAddOffer(at, random, o) =>
      if r.Ok? && r.value != tx {
        if at == GuaranteedOnly || at == Specific(0) {
          GuaranteedCoherent(tx, o);
        } else {
          FallibleCoherent(tx, Update(FallibleOf(tx), OfferSegment(at, random), o));
        }
      }
    case DoAddIntent(at, random, i) =>
      if r.Ok? && r.value != tx { IntentsCoherent(tx, Update(IntentsOf(tx), OfferSegment(at, random), i)); }
    case DoAddCalls(at, draw, calls) => if r.Ok? { CallsCoherent(tx, at, draw, calls); }
  }

  /** Every command of the run is balanced where it is applied. */
  ghost predicate BalancedRun(tx: Transaction, cs: seq<Command>)
    decreases |cs|
  {
    cs == [] || (Balanced(tx, cs[0]) && BalancedRun(After(tx, cs[0]), cs[1..]))
  }

  ghost predicate CoherentInputs(cs: seq<Command>) { forall i :: 0 <= i < |cs| ==> CoherentInput(cs[i]) }

  lemma {:induction false} RunCoherent(tx: Transaction, cs: seq<Command>)
    requires Typed(tx) && Coherent(tx) && CoherentInputs(cs) && BalancedRun(tx, cs)
    ensures Coherent(Run(tx, cs))
    decreases |cs|
  {
    if cs != [] {
      StepCoherent(tx, cs[0]);
      StepTyped(tx, cs[0]);
      RunCoherent(After(tx, cs[0]), cs[1..]);
    }
  }

  // ----- Edits after proving -----

  /** Editing a proven or proof-erased transaction keeps its randomness right exactly when all its intents are open and
      the edit leaves the total unchanged in the scalar field. */
  lemma StoreAfterProofIff(tx: Transaction, p: Parts)
    requires Coherent(tx) && tx.body.Standard? && !tx.stage.phase.Unproven?
    requires p.randomness == tx.body.parts.randomness
    ensures Coherent(Store(tx, p)) <==> AllOpen(p.intents) && Vanishes(Total(p) - Total(tx.body.parts))
  {
    ResiduesEqualIff(Total(tx.body.parts), Total(p));
  }

  /** The offer or intent of one segment changes: so does the sum, by the difference of the two. */
  lemma SumOfUpdate(m: map<Segment, int>, n: map<Segment, int>, k: Segment)
    requires forall j: int :: j != k ==> At(m, j) == At(n, j)
    ensures SegmentSum(n) - SegmentSum(m) == At(n, k) - At(m, k)
  {
    var d := At(n, k) - At(m, k);
    SumBelowSingle(k, d, 0x1_0000);
    SumBelowAdds(m, map[k := d], n, 0x1_0000);
  }

  ghost function IntentSum(i: Option<Intent>): int { if i.Some? then OpenedAs(i.value.commitment) else 0 }

  lemma FallibleUpdateSum(offers: map<Segment, Offer>, k: Segment, o: Option<Offer>)
    ensures SegmentSum(OfferSums(Update(offers, k, o))) - SegmentSum(OfferSums(offers))
            == GuaranteedSum(o) - GuaranteedSum(Find(offers, k))
  {
    SumOfUpdate(OfferSums(offers), OfferSums(Update(offers, k, o)), k);
  }

  lemma IntentUpdateSum(intents: map<Segment, Intent>, k: Segment, i: Option<Intent>)
    ensures SegmentSum(IntentSums(Update(intents, k, i))) - SegmentSum(IntentSums(intents))
            == IntentSum(i) - IntentSum(Find(intents, k))
  {
    SumOfUpdate(IntentSums(intents), IntentSums(Update(intents, k, i)), k);
  }

  lemma ProvenGuaranteedIff(tx: Transaction, o: Option<Offer>)
    requires Coherent(tx) && !tx.stage.phase.Unproven? && SetGuaranteed(tx, o).Ok?
    ensures Coherent(SetGuaranteed(tx, o).value)
            <==> Vanishes(GuaranteedSum(o) - GuaranteedSum(tx.body.parts.guaranteed))
  {
    var p := tx.body.parts.(guaranteed := o);
    StoreAfterProofIff(tx, p);
    assert Total(p) - Total(tx.body.parts) == GuaranteedSum(o) - GuaranteedSum(tx.body.parts.guaranteed);
  }

  lemma ProvenFallibleIff(tx: Transaction, offers: map<Segment, Offer>)
    requires Coherent(tx) && !tx.stage.phase.Unproven? && SetFallible(tx, offers).Ok?
    ensures Coherent(SetFallible(tx, offers).value)
            <==> Vanishes(SegmentSum(OfferSums(offers)) - SegmentSum(OfferSums(tx.body.parts.fallible)))
  {
    var p := tx.body.parts.(fallible := offers);
    StoreAfterProofIff(tx, p);
    assert Total(p) - Total(tx.body.parts)
           == SegmentSum(OfferSums(offers)) - SegmentSum(OfferSums(tx.body.parts.fallible));
  }

  lemma ProvenIntentsIff(tx: Transaction, intents: map<Segment, Intent>)
    requires Coherent(tx) && !tx.stage.phase.Unproven? && SetIntents(tx, intents).Ok?
    ensures Coherent(SetIntents(tx, intents).value)
            <==> && AllOpen(intents)
                 && Vanishes(SegmentSum(IntentSums(intents)) - SegmentSum(IntentSums(tx.body.parts.intents)))
  {
    var p := tx.body.parts.(intents := intents);
    StoreAfterProofIff(tx, p);
    assert Total(p) - Total(tx.body.parts)
           == SegmentSum(IntentSums(intents)) - SegmentSum(IntentSums(tx.body.parts.intents));
  }

  /** The offer that adding one at a place replaces. */
  function ReplacedOffer(tx: Transaction, at: Where, random: RandomSegment): Option<Offer>
    requires tx.body.Standard?
  {
    if at == GuaranteedOnly || at == Specific(0) then tx.body.parts.guaranteed
    else Find(tx.body.parts.fallible, OfferSegment(at, random))
  }

  /** Adding an offer after proving keeps the randomness right exactly when it weighs as much as the one it replaces. */
  lemma ProvenAddOfferIff(tx: Transaction, at: Where, random: RandomSegment, o: Option<Offer>)
    requires Coherent(tx) && tx.body.Standard? && !tx.stage.phase.Unproven? && AddOffer(tx, at, random, o).Ok?
    ensures Coherent(AddOffer(tx, at, random, o).value)
            <==> Vanishes(GuaranteedSum(o) - GuaranteedSum(ReplacedOffer(tx, at, random)))
  {
    ZeroVanishes();
    if at == GuaranteedOnly || at == Specific(0) {
      ProvenGuaranteedIff(tx, o);
    } else if FallibleOf(tx) != map[] || o.Some? {
      var k := OfferSegment(at, random);
      ProvenFallibleIff(tx, Update(FallibleOf(tx), k, o));
      FallibleUpdateSum(FallibleOf(tx), k, o);
    }
  }

  /** Adding an intent after proving keeps it right exactly when the intent is open and opens as the one it replaces. */
  lemma ProvenAddIntentIff(tx: Transaction, at: Where, random: RandomSegment, i: Option<Intent>)
    requires Coherent(tx) && tx.body.Standard? && !tx.stage.phase.Unproven? && AddIntent(tx, at, random, i).Ok?
    ensures var before := Find(tx.body.parts.intents, OfferSegment(at, random));
            Coherent(AddIntent(tx, at, random, i).value)
            <==> (i.Some? ==> i.value.commitment.Randomness?) && Vanishes(IntentSum(i) - IntentSum(before))
  {
    ZeroVanishes();
    if IntentsOf(tx) != map[] || i.Some? {
      var k := OfferSegment(at, random);
      var next := Update(IntentsOf(tx), k, i);
      ProvenIntentsIff(tx, next);
      IntentUpdateSum(IntentsOf(tx), k, i);
      assert i.Some? ==> k in next && next[k] == i.value;
    }
  }

  const PROVEN_EMPTY := Transaction(Stage(true, Proven(false)), Standard(Parts("", None, map[], map[], 0)))
  const HEAVY_OFFER := Offer(Proofs.Proofs, multiset{Input(0, 1)})

  lemma StaleAfterProof()
    ensures Coherent(PROVEN_EMPTY) && SetGuaranteed(PROVEN_EMPTY, Some(HEAVY_OFFER)).Ok?
    ensures !Coherent(SetGuaranteed(PROVEN_EMPTY, Some(HEAVY_OFFER)).value)
  {
    SegmentSumEmpty(OfferSums(map[]));
    SegmentSumEmpty(IntentSums(map[]));
    OneCoinSum(Input(0, 1));
    ProvenGuaranteedIff(PROVEN_EMPTY, Some(HEAVY_OFFER));
  }
}
