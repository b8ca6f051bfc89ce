/** Exactly when the binding randomness of an unproven transaction is right, over every run. */
module UnprovenRuns {
  import opened Options
  import opened Transactions
  import opened TransactionSteps
  import opened TransactionRuns
  import opened BindingCoherence

  // ----- Losses along a run -----

  /** The randomness is that of the components and `loss` more. */
  ghost predicate Drifts(tx: Transaction, loss: int) {
    tx.body.Standard? ==>
      && AllOpen(tx.body.parts.intents)
      && tx.body.parts.randomness == Residue(Total(tx.body.parts) + loss)
  }

  /** Commands that store edited parts and so recompute the randomness: all edits but the two that return early. */
  ghost predicate Recomputes(tx: Transaction, c: Command) {
    match c
    case DoSetGuaranteed(_) => true
    case DoSetFallible(_) => true
    case DoSetIntents(_) => true
    case DoAddOffer(at, _, o) => at == GuaranteedOnly || at == Specific(0) || FallibleOf(tx) != map[] || o != None
    case DoAddIntent(_, _, i) => IntentsOf(tx) != map[] || i != None
    case DoAddCalls(_, _, _) => true
    case _ => false
  }

  /** What one command adds: a merge what it drops; a recomputation starts afresh. */
  ghost function LossAfter(tx: Transaction, c: Command, loss: int): int {
    if Step(tx, c).Err? || tx.body.ClaimRewards? then loss
    else if c.DoMerge? then loss + MergeLoss(tx.body.parts, c.other.body.parts)
    else if Recomputes(tx, c) then 0
    else loss
  }

  ghost function RunLoss(tx: Transaction, cs: seq<Command>, loss: int): int
    decreases |cs|
  {
    if cs == [] then loss else RunLoss(After(tx, cs[0]), cs[1..], LossAfter(tx, cs[0], loss))
  }

  lemma CoherentDrifts(tx: Transaction)
    ensures Coherent(tx) <==> Drifts(tx, 0)
  {}

  lemma DriftsAdd(x: int, loss: int, r: Scalar, y: int, s: Scalar, total: int, more: int)
    requires r == Residue(x + loss) && s == Residue(y) && total + more == x + y
    ensures Plus(r, s) == Residue(total + (loss + more))
  {
    PlusReduces(x + loss, r, y, s);
    assert x + loss + y == total + (loss + more);
    ResidueIff(total + (loss + more), Plus(r, s));
  }

  /** What merging does to parts, by the numbers. */
  ghost predicate MergedAs(a: Parts, b: Parts, m: Parts, more: int) {
    && Total(m) + more == Total(a) + Total(b) && m.randomness == Plus(a.randomness, b.randomness)
    && (AllOpen(a.intents) && AllOpen(b.intents) ==> AllOpen(m.intents))
  }

  lemma MergeFacts(tx: Transaction, other: Transaction) returns (a: Parts, b: Parts, m: Parts, more: int)
    requires Merge(tx, other).Ok?
    ensures tx.body == Standard(a) && other.body == Standard(b) && Merge(tx, other).value.body == Standard(m)
    ensures more == MergeLoss(a, b) && MergedAs(a, b, m, more)
  {
    MergedFields(tx, other);
    a, b := tx.body.parts, other.body.parts;
    m, more := MergeParts(a, b).value, MergeLoss(a, b);
    MergeTotal(a, b);
  }

  lemma MergeRandomness(a: Parts, b: Parts, m: Parts, loss: int, more: int)
    requires MergedAs(a, b, m, more)
    requires a.randomness == Residue(Total(a) + loss) && b.randomness == Residue(Total(b))
    ensures m.randomness == Residue(Total(m) + (loss + more))
  {
    DriftsAdd(Total(a), loss, a.randomness, Total(b), b.randomness, Total(m), more);
  }

  lemma MergeDrifts(tx: Transaction, other: Transaction, loss: int)
    requires Drifts(tx, loss) && Coherent(other) && Merge(tx, other).Ok?
    ensures Drifts(Merge(tx, other).value, loss + MergeLoss(tx.body.parts, other.body.parts))
  {
    var a, b, m, more := MergeFacts(tx, other);
    MergeRandomness(a, b, m, loss, more);
  }

  lemma MoveDrifts(tx: Transaction, s: Stage, loss: int)
    requires Drifts(tx, loss)
    ensures Drifts(Move(tx, s), loss)
  {
    if tx.body.Standard? { MoveTotal(tx, s); }
  }

  lemma EditCoherent(tx: Transaction, c: Command, loss: int)
    requires Typed(tx) && Drifts(tx, loss) && CoherentInput(c) && tx.stage.phase.Unproven? && tx.body.Standard?
    requires Recomputes(tx, c) && Step(tx, c).Ok?
    ensures Coherent(After(tx, c))
  {
    match c
    case DoSetGuaranteed(o) => StoreCoherent(tx, tx.body.parts.(guaranteed := o));
    case DoSetFallible(offers) => StoreCoherent(tx, tx.body.parts.(fallible := offers));
    case DoSetIntents(intents) => IntentsCoherent(tx, intents);
    case DoAddOffer(at, random, o) =>
      if at == GuaranteedOnly || at == Specific(0) {
        StoreCoherent(tx, tx.body.parts.(guaranteed := o));
      } else {
        StoreCoherent(tx, tx.body.parts.(fallible := Update(FallibleOf(tx), OfferSegment(at, random), o)));
      }
    case DoAddIntent(at, random, i) => IntentsCoherent(tx, Update(IntentsOf(tx), OfferSegment(at, random), i));
    case DoAddCalls(at, draw, calls) => StoreCoherent(tx, CalledParts(tx, CallSegment(at, draw), calls).value);
  }

  /** The other commands that leave a transaction unproven: binding, erasing signatures, and edits without effect. */
  lemma OtherDrifts(tx: Transaction, c: Command, loss: int)
    requires Drifts(tx, loss) && Step(tx, c).Ok? && !Recomputes(tx, c) && !c.DoMerge?
    requires tx.stage.phase.Unproven? && After(tx, c).stage.phase.Unproven?
    ensures Drifts(After(tx, c), loss)
  {
    if c.DoBind? { MoveDrifts(tx, tx.stage.(phase := Unproven(true)), loss); }
    if c.DoEraseSignatures? { MoveDrifts(tx, tx.stage.(signed := false), loss); }
  }

  lemma MergedDrifts(tx: Transaction, c: Command, loss: int)
    requires Drifts(tx, loss) && CoherentInput(c) && Step(tx, c).Ok? && c.DoMerge? && tx.body.Standard?
    ensures Drifts(After(tx, c), LossAfter(tx, c, loss))
  {
    MergeDrifts(tx, c.other, loss);
  }

  lemma IdleDrifts(tx: Transaction, c: Command, loss: int)
    requires Drifts(tx, loss) && (Step(tx, c).Err? || tx.body.ClaimRewards?)
    ensures Drifts(After(tx, c), LossAfter(tx, c, loss))
  {}

  lemma UnmergedDrifts(tx: Transaction, c: Command, loss: int)
    requires Typed(tx) && Drifts(tx, loss) && CoherentInput(c) && Step(tx, c).Ok? && !c.DoMerge?
    requires tx.body.Standard? && tx.stage.phase.Unproven? && After(tx, c).stage.phase.Unproven?
    ensures Drifts(After(tx, c), LossAfter(tx, c, loss))
  {
    if Recomputes(tx, c) {
      EditCoherent(tx, c, loss);
      CoherentDrifts(After(tx, c));
    } else {
      OtherDrifts(tx, c, loss);
    }
  }

  lemma StepDrifts(tx: Transaction, c: Command, loss: int)
    requires Typed(tx) && Drifts(tx, loss) && CoherentInput(c)
    requires tx.stage.phase.Unproven? && After(tx, c).stage.phase.Unproven?
    ensures Drifts(After(tx, c), LossAfter(tx, c, loss))
  {
    if Step(tx, c).Ok? && tx.body.Standard? {
      if c.DoMerge? {
        MergedDrifts(tx, c, loss);
      } else {
        UnmergedDrifts(tx, c, loss);
      }
    } else {
      IdleDrifts(tx, c, loss);
    }
  }

  lemma {:induction false} RunDrifts(tx: Transaction, cs: seq<Command>, loss: int)
    requires Typed(tx) && Drifts(tx, loss) && CoherentInputs(cs) && Run(tx, cs).stage.phase.Unproven?
    ensures Drifts(Run(tx, cs), RunLoss(tx, cs, loss))
    decreases |cs|
  {
    RunForward(tx, cs);
    if cs != [] {
      RunForward(After(tx, cs[0]), cs[1..]);
      StepDrifts(tx, cs[0], loss);
      StepTyped(tx, cs[0]);
      RunDrifts(After(tx, cs[0]), cs[1..], LossAfter(tx, cs[0], loss));
    }
  }

  lemma StepStandard(tx: Transaction, c: Command)
    requires tx.body.Standard?
    ensures After(tx, c).body.Standard?
  {}

  lemma {:induction false} RunStandard(tx: Transaction, cs: seq<Command>)
    requires tx.body.Standard?
    ensures Run(tx, cs).body.Standard?
    decreases |cs|
  {
    if cs != [] {
      StepStandard(tx, cs[0]);
      RunStandard(After(tx, cs[0]), cs[1..]);
    }
  }

  lemma DriftVanishes(tx: Transaction, loss: int)
    requires Drifts(tx, loss) && tx.body.Standard?
    ensures Coherent(tx) <==> Vanishes(loss)
  {
    ResiduesEqualIff(Total(tx.body.parts), Total(tx.body.parts) + loss);
  }

  /** Over every run that starts coherent and ends unproven, bound or not: the randomness of a standard transaction is
      its own recomputation exactly when what its merges dropped since the last recomputation vanishes. */
  lemma UnprovenRunIff(tx: Transaction, cs: seq<Command>)
    requires Typed(tx) && Coherent(tx) && CoherentInputs(cs) && Run(tx, cs).stage.phase.Unproven?
    requires tx.body.Standard?
    ensures Coherent(Run(tx, cs)) <==> Vanishes(RunLoss(tx, cs, 0))
  {
    RunStandard(tx, cs);
    CoherentDrifts(tx);
    RunDrifts(tx, cs, 0);
    DriftVanishes(Run(tx, cs), RunLoss(tx, cs, 0));
  }

  // ----- Offers that list every coin once -----

  /** Commands that hand in offers listing every coin once. */
  predicate PlainCommand(c: Command) {
    match c
    case DoMerge(other) => Plain(other)
    case DoSetGuaranteed(o) => PlainOption(o)
    case DoSetFallible(offers) => PlainOffers(offers)
    case DoAddOffer(_, _, o) => PlainOption(o)
    case DoAddCalls(_, _, calls) => PlainCoins(calls.guaranteedCoins) && PlainCoins(calls.fallibleCoins)
    case _ => true
  }

  predicate PlainCommands(cs: seq<Command>) { forall i :: 0 <= i < |cs| ==> PlainCommand(cs[i]) }

  lemma MergeOptionPlain(a: Option<Offer>, b: Option<Offer>)
    requires PlainOption(a) && PlainOption(b) && MergeOption(a, b).Ok?
    ensures PlainOption(MergeOption(a, b).value)
  {}

  lemma MergePlain(tx: Transaction, other: Transaction)
    requires Plain(tx) && Plain(other) && Merge(tx, other).Ok?
    ensures Plain(Merge(tx, other).value)
  {
    var a, b := tx.body.parts, other.body.parts;
    MergeOptionPlain(a.guaranteed, b.guaranteed);
    forall k | k in a.fallible && k in b.fallible ensures PlainCoins(Joined(a.fallible[k], b.fallible[k]).coins) {
      MergeOptionPlain(Some(a.fallible[k]), Some(b.fallible[k]));
    }
  }

  lemma UpdatePlain(offers: map<Segment, Offer>, s: Segment, o: Option<Offer>)
    requires PlainOffers(offers) && PlainOption(o)
    ensures PlainOffers(Update(offers, s, o))
  {}

  lemma CalledPartsPlain(tx: Transaction, s: Segment, calls: Calls)
    requires tx.body.Standard? && PlainOption(tx.body.parts.guaranteed) && PlainOffers(tx.body.parts.fallible)
    requires PlainCoins(calls.guaranteedCoins) && PlainCoins(calls.fallibleCoins) && CalledParts(tx, s, calls).Ok?
    ensures var p := CalledParts(tx, s, calls).value; PlainOption(p.guaranteed) && PlainOffers(p.fallible)
  {
    var g, f := CoinsOffer(calls.guaranteedCoins), CoinsOffer(calls.fallibleCoins);
    var before := Find(tx.body.parts.fallible, s);
    MergeOptionPlain(tx.body.parts.guaranteed, g);
    MergeOptionPlain(before, f);
    UpdatePlain(tx.body.parts.fallible, s, MergeOption(before, f).value);
  }

  lemma CallsPlain(tx: Transaction, at: Where, draw: Segment, calls: Calls)
    requires Plain(tx) && PlainCommand(DoAddCalls(at, draw, calls)) && AddCalls(tx, at, draw, calls).Ok?
    ensures Plain(AddCalls(tx, at, draw, calls).value)
  {
    CalledPartsPlain(tx, CallSegment(at, draw), calls);
  }

  lemma MovePlain(tx: Transaction, s: Stage)
    requires Plain(tx)
    ensures Plain(Move(tx, s))
  {}

  lemma StepPlain(tx: Transaction, c: Command)
    requires Plain(tx) && PlainCommand(c)
    ensures Plain(After(tx, c))
  {
    match c
    case DoMerge(other) => if Merge(tx, other).Ok? { MergePlain(tx, other); }
    case DoAddCalls(at, draw, calls) => if AddCalls(tx, at, draw, calls).Ok? { CallsPlain(tx, at, draw, calls); }
    case DoProve(_) => MovePlain(tx, tx.stage.(phase := Proven(false)));
    case DoMockProve(_) =>
      var proven := tx.stage.(phase := Proven(false));
      MovePlain(tx, proven);
      MovePlain(Move(tx, proven), proven.(phase := Proven(true)));
    case DoEraseProofs => MovePlain(tx, tx.stage.(phase := ProofErased));
    case DoEraseSignatures => MovePlain(tx, tx.stage.(signed := false));
    case DoBind =>
      MovePlain(tx, tx.stage.(phase := Unproven(true)));
      MovePlain(tx, tx.stage.(phase := Proven(true)));
    case DoSetGuaranteed(_) =>
    case DoSetFallible(_) =>
    case DoSetIntents(_) =>
    case DoAddOffer(_, _, _) =>
    case DoAddIntent(_, _, _) =>
  }

  lemma {:induction false} PlainRunLosesNothing(tx: Transaction, cs: seq<Command>)
    requires Plain(tx) && PlainCommands(cs)
    ensures RunLoss(tx, cs, 0) == 0
    decreases |cs|
  {
    if cs != [] {
      var c := cs[0];
      if c.DoMerge? && Step(tx, c).Ok? { PlainMergesWithoutLoss(tx.body.parts, c.other.body.parts); }
      StepPlain(tx, c);
      PlainRunLosesNothing(After(tx, c), cs[1..]);
    }
  }

  /** In particular the randomness is right when every offer lists every coin once. */
  lemma PlainRunCoherent(tx: Transaction, cs: seq<Command>)
    requires Typed(tx) && Coherent(tx) && Plain(tx) && CoherentInputs(cs) && PlainCommands(cs)
    requires Run(tx, cs).stage.phase.Unproven?
    ensures Coherent(Run(tx, cs))
  {
    PlainRunLosesNothing(tx, cs);
    CoherentDrifts(tx);
    RunDrifts(tx, cs, 0);
    CoherentDrifts(Run(tx, cs));
  }

  // ----- Where transactions come from -----

  const OPEN := Stage(true, Unproven(false))

  function NewParts(network: string, guaranteed: Option<Offer>, fallible: Option<Offer>, intent: Option<Intent>,
                    segment: Segment): Parts
  {
    Parts(network, guaranteed, Update(map[], segment, fallible), Update(map[], segment, intent), 0)
  }

  /** `fromParts` (segment one) and `fromPartsRandomized` (a drawn segment): an unproven, signed, unbound transaction
      whose fallible offer and intent share one segment. */
  ghost function FromParts(network: string, guaranteed: Option<Offer>, fallible: Option<Offer>, intent: Option<Intent>,
                           segment: Segment): Result<Transaction>
  {
    if !OfferFits(OPEN, guaranteed) || !OfferFits(OPEN, fallible) || (intent.Some? && intent.value.stage != OPEN)
    then Err(WrongType)
    else Ok(Transaction(OPEN, Standard(Recompute(NewParts(network, guaranteed, fallible, intent, segment)))))
  }

  /** Parts that hold what they were given, fallible offer and intent under the one segment and nothing elsewhere. */
  ghost predicate Holds(p: Parts, network: string, guaranteed: Option<Offer>, fallible: Option<Offer>,
                        intent: Option<Intent>, segment: Segment)
  {
    && p.network == network && p.guaranteed == guaranteed
    && (forall k: Segment :: Find(p.fallible, k) == if k == segment then fallible else None)
    && (forall k: Segment :: Find(p.intents, k) == if k == segment then intent else None)
  }

  lemma NewPartsHold(network: string, guaranteed: Option<Offer>, fallible: Option<Offer>, intent: Option<Intent>,
                     segment: Segment)
    ensures Holds(NewParts(network, guaranteed, fallible, intent, segment), network, guaranteed, fallible, intent,
                  segment)
  {}

  lemma RecomputeOnly(p: Parts)
    ensures Recompute(p) == p.(randomness := Recomputed(p)) && Recomputed(Recompute(p)) == Recomputed(p)
  {
    assert Total(Recompute(p)) == Total(p);
  }

  /** A new transaction holds what it was given, with the randomness of just that. */
  lemma FromPartsBuilds(network: string, guaranteed: Option<Offer>, fallible: Option<Offer>, intent: Option<Intent>,
                        segment: Segment)
    ensures var r := FromParts(network, guaranteed, fallible, intent, segment);
            if && (guaranteed.Some? ==> guaranteed.value.proofs == Preimages)
               && (fallible.Some? ==> fallible.value.proofs == Preimages)
               && (intent.Some? ==> intent.value.stage == Stage(true, Unproven(false)))
            then && r.Ok? && r.value.stage == Stage(true, Unproven(false)) && r.value.body.Standard?
                 && var p := r.value.body.parts;
                 && Holds(p, network, guaranteed, fallible, intent, segment) && p.randomness == Recomputed(p)
            else r == Err(WrongType)
  {
    NewPartsHold(network, guaranteed, fallible, intent, segment);
    RecomputeOnly(NewParts(network, guaranteed, fallible, intent, segment));
  }

  lemma NewPartsFit(network: string, guaranteed: Option<Offer>, fallible: Option<Offer>, intent: Option<Intent>,
                    segment: Segment) returns (p: Parts)
    requires OfferFits(OPEN, guaranteed) && OfferFits(OPEN, fallible) && (intent.Some? ==> intent.value.stage == OPEN)
    requires intent.Some? ==> IntentTyped(intent.value)
    ensures p == NewParts(network, guaranteed, fallible, intent, segment)
    ensures p.guaranteed == guaranteed && OffersFit(OPEN, p.fallible)
    ensures IntentsFit(OPEN, p.intents) && IntentsTyped(p.intents) && AllOpen(p.intents)
  {
    p := NewParts(network, guaranteed, fallible, intent, segment);
  }

  lemma NewTransaction(network: string, guaranteed: Option<Offer>, fallible: Option<Offer>, intent: Option<Intent>,
                       segment: Segment) returns (tx: Transaction)
    requires intent.Some? ==> IntentTyped(intent.value)
    requires FromParts(network, guaranteed, fallible, intent, segment).Ok?
    ensures tx == FromParts(network, guaranteed, fallible, intent, segment).value
    ensures Typed(tx) && Coherent(tx) && tx.body.Standard?
  {
    var p := NewPartsFit(network, guaranteed, fallible, intent, segment);
    tx := Store(Transaction(OPEN, Standard(p)), p);
    StoreCoherent(Transaction(OPEN, Standard(p)), p);
  }

  /** The randomness after every run from new parts that has not proven or erased the transaction yet is right exactly
      when what its merges dropped since the last recomputation vanishes. */
  lemma FromPartsIff(network: string, guaranteed: Option<Offer>, fallible: Option<Offer>, intent: Option<Intent>,
                     segment: Segment, cs: seq<Command>) returns (tx: Transaction)
    requires (intent.Some? ==> IntentTyped(intent.value)) && CoherentInputs(cs)
    requires FromParts(network, guaranteed, fallible, intent, segment).Ok?
    requires Run(FromParts(network, guaranteed, fallible, intent, segment).value, cs).stage.phase.Unproven?
    ensures tx == FromParts(network, guaranteed, fallible, intent, segment).value
    ensures Coherent(Run(tx, cs)) <==> Vanishes(RunLoss(tx, cs, 0))
  {
    tx := NewTransaction(network, guaranteed, fallible, intent, segment);
    UnprovenRunIff(tx, cs);
  }
}
