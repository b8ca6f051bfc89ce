/** What every run of transaction operations keeps: forward stages, frozen content, coherent randomness. */
module TransactionRuns {
  import opened Options
  import opened Transactions
  import opened TransactionSteps

  datatype Command =
    | DoProve(succeeds: bool)
    | DoMockProve(succeeds: bool)
    | DoEraseProofs
    | DoEraseSignatures
    | DoBind
    | DoMerge(other: Transaction)
    | DoSetGuaranteed(offer: Option<Offer>)
    | DoSetFallible(offers: map<Segment, Offer>)
    | DoSetIntents(all: map<Segment, Intent>)
    | DoAddOffer(at: Where, random: RandomSegment, offer: Option<Offer>)
    | DoAddIntent(at: Where, random: RandomSegment, intent: Option<Intent>)
    | DoAddCalls(at: Where, draw: Segment, calls: Calls)

  ghost function Step(tx: Transaction, c: Command): Result<Transaction> {
    match c
    case DoProve(succeeds) => Prove(tx, succeeds)
    case DoMockProve(succeeds) => MockProve(tx, succeeds)
    case DoEraseProofs => Ok(EraseProofs(tx))
    case DoEraseSignatures => Ok(EraseSignatures(tx))
    case DoBind => Ok(Bind(tx))
    case DoMerge(other) => Merge(tx, other)
    case DoSetGuaranteed(o) => SetGuaranteed(tx, o)
    case DoSetFallible(offers) => SetFallible(tx, offers)
    case DoSetIntents(intents) => SetIntents(tx, intents)
    case DoAddOffer(at, random, o) => AddOffer(tx, at, random, o)
    case DoAddIntent(at, random, i) => AddIntent(tx, at, random, i)
    case DoAddCalls(at, draw, calls) => AddCalls(tx, at, draw, calls)
  }

  /** A failed command leaves the transaction as it was. */
  ghost function After(tx: Transaction, c: Command): Transaction {
    var r := Step(tx, c);
    if r.Ok? then r.value else tx
  }

  ghost function Run(tx: Transaction, cs: seq<Command>): Transaction
    decreases |cs|
  {
    if cs == [] then tx else Run(After(tx, cs[0]), cs[1..])
  }

  // ----- Stages -----

  predicate PhaseForward(a: Phase, b: Phase) {
    a == b || b.ProofErased? || a == Unproven(false) || (a == Proven(false) && b == Proven(true))
  }

  predicate Forward(a: Stage, b: Stage) { (b.signed ==> a.signed) && PhaseForward(a.phase, b.phase) }

  lemma StepForward(tx: Transaction, c: Command)
    ensures Forward(tx.stage, After(tx, c).stage)
  {}

  lemma {:induction false} RunForward(tx: Transaction, cs: seq<Command>)
    ensures Forward(tx.stage, Run(tx, cs).stage)
    decreases |cs|
  {
    if cs != [] {
      StepForward(tx, cs[0]);
      RunForward(After(tx, cs[0]), cs[1..]);
    }
  }

  lemma {:induction false} RunSplits(tx: Transaction, cs: seq<Command>, ds: seq<Command>)
    ensures Run(tx, cs + ds) == Run(Run(tx, cs), ds)
    decreases |cs|
  {
    if cs == [] {
      assert cs + ds == ds;
    } else {
      assert (cs + ds)[1..] == cs[1..] + ds;
      RunSplits(After(tx, cs[0]), cs[1..], ds);
    }
  }

  function Toward(a: Phase, b: Phase): seq<Command> {
    if a == b then []
    else if b.ProofErased? then [DoEraseProofs]
    else if b.Unproven? || a.Proven? then [DoBind]
    else if b == Proven(false) then [DoProve(true)]
    else [DoMockProve(true)]
  }

  lemma TowardReaches(tx: Transaction, b: Phase)
    requires PhaseForward(tx.stage.phase, b)
    ensures Run(tx, Toward(tx.stage.phase, b)).stage == tx.stage.(phase := b)
  {
    var a := tx.stage.phase;
    if a != b {
      var c := Toward(a, b)[0];
      assert Run(tx, [c]) == Run(After(tx, c), []);
    }
  }

  lemma ForwardReaches(tx: Transaction, t: Stage) returns (cs: seq<Command>)
    requires Forward(tx.stage, t)
    ensures Run(tx, cs).stage == t
  {
    var first := Toward(tx.stage.phase, t.phase);
    TowardReaches(tx, t.phase);
    cs := first;
    if t.signed != tx.stage.signed {
      cs := first + [DoEraseSignatures];
      RunSplits(tx, first, [DoEraseSignatures]);
      var mid := Run(tx, first);
      assert Run(mid, [DoEraseSignatures]) == Run(After(mid, DoEraseSignatures), []);
    }
  }

  ghost predicate Reaches(tx: Transaction, t: Stage) { exists cs: seq<Command> :: Run(tx, cs).stage == t }

  /** The stages reachable from a transaction are exactly the forward ones. */
  lemma ReachesIff(tx: Transaction, t: Stage)
    ensures Reaches(tx, t) <==> Forward(tx.stage, t)
  {
    if Reaches(tx, t) {
      var cs: seq<Command> :| Run(tx, cs).stage == t;
      RunForward(tx, cs);
    }
    if Forward(tx.stage, t) {
      var cs := ForwardReaches(tx, t);
    }
  }

  // ----- Types -----

  predicate IntentTyped(i: Intent) {
    i.stage.phase.Unproven? || i.stage.phase == Proven(false) ==> i.commitment.Randomness?
  }

  predicate IntentsTyped(intents: map<Segment, Intent>) { forall k :: k in intents ==> IntentTyped(intents[k]) }

  /** Every component belongs to the transaction's own stage. */
  predicate Typed(tx: Transaction) {
    tx.body.Standard? ==>
      && OfferFits(tx.stage, tx.body.parts.guaranteed)
      && OffersFit(tx.stage, tx.body.parts.fallible)
      && IntentsFit(tx.stage, tx.body.parts.intents)
      && IntentsTyped(tx.body.parts.intents)
  }

  predicate TypedCommand(c: Command) {
    && (c.DoMerge? ==> Typed(c.other))
    && (c.DoSetIntents? ==> IntentsTyped(c.all))
    && (c.DoAddIntent? && c.intent.Some? ==> IntentTyped(c.intent.value))
  }

  predicate TypedCommands(cs: seq<Command>) { forall i :: 0 <= i < |cs| ==> TypedCommand(cs[i]) }

  lemma MergeTyped(tx: Transaction, other: Transaction)
    requires Typed(tx) && Typed(other) && Merge(tx, other).Ok?
    ensures Typed(Merge(tx, other).value)
  {
    var a, b := tx.body.parts, other.body.parts;
    assert OffersFit(tx.stage, MergedOffers(a.fallible, b.fallible));
    assert IntentsFit(tx.stage, a.intents + b.intents);
  }

  lemma MergeOptionFits(stage: Stage, a: Option<Offer>, b: Option<Offer>)
    requires OfferFits(stage, a) && OfferFits(stage, b) && MergeOption(a, b).Ok?
    ensures OfferFits(stage, MergeOption(a, b).value)
  {}

  lemma CalledPartsTyped(tx: Transaction, s: Segment, calls: Calls)
    requires Typed(tx) && tx.body.Standard? && tx.stage.phase == Unproven(false) && CalledParts(tx, s, calls).Ok?
    ensures var p := CalledParts(tx, s, calls).value;
            && OfferFits(tx.stage, p.guaranteed) && OffersFit(tx.stage, p.fallible)
            && IntentsFit(tx.stage, p.intents) && IntentsTyped(p.intents)
  {
    MergeOptionFits(tx.stage, tx.body.parts.guaranteed, CoinsOffer(calls.guaranteedCoins));
    MergeOptionFits(tx.stage, Find(tx.body.parts.fallible, s), CoinsOffer(calls.fallibleCoins));
  }

  lemma AddCallsTyped(tx: Transaction, at: Where, draw: Segment, calls: Calls)
    requires Typed(tx) && AddCalls(tx, at, draw, calls).Ok?
    ensures Typed(AddCalls(tx, at, draw, calls).value)
  {
    CalledPartsTyped(tx, CallSegment(at, draw), calls);
  }

  /** Stages whose intents are still open. */
  predicate OpenStage(s: Stage) { s.phase.Unproven? || s.phase == Proven(false) }

  lemma MoveTyped(tx: Transaction, s: Stage)
    requires Typed(tx) && (OpenStage(s) ==> OpenStage(tx.stage))
    ensures Typed(Move(tx, s))
  {}

  lemma HollowTyped(tx: Transaction)
    requires Typed(tx) && !OpenStage(tx.stage)
    ensures Typed(Hollow(tx))
  {}

  lemma StepTyped(tx: Transaction, c: Command)
    requires Typed(tx) && TypedCommand(c)
    ensures Typed(After(tx, c))
  {
    match c
    case DoMerge(other) => if Merge(tx, other).Ok? { MergeTyped(tx, other); }
    case DoAddCalls(at, draw, calls) => if AddCalls(tx, at, draw, calls).Ok? { AddCallsTyped(tx, at, draw, calls); }
    case DoProve(succeeds) => if Prove(tx, succeeds).Ok? { MoveTyped(tx, tx.stage.(phase := Proven(false))); }
    case DoMockProve(succeeds) =>
      if Prove(tx, succeeds).Ok? {
        var proven := tx.stage.(phase := Proven(false));
        MoveTyped(tx, proven);
        MoveTyped(Move(tx, proven), proven.(phase := Proven(true)));
        HollowTyped(Move(Move(tx, proven), proven.(phase := Proven(true))));
      }
    case DoEraseProofs => MoveTyped(tx, tx.stage.(phase := ProofErased));
    case DoEraseSignatures => MoveTyped(tx, tx.stage.(signed := false));
    case DoBind => if OpenStage(tx.stage) { MoveTyped(tx, Bind(tx).stage); }
    case DoSetGuaranteed(_) =>
    case DoSetFallible(_) =>
    case DoSetIntents(_) =>
    case DoAddOffer(_, _, _) =>
    case DoAddIntent(_, _, _) =>
  }

  lemma {:induction false} RunTyped(tx: Transaction, cs: seq<Command>)
    requires Typed(tx) && TypedCommands(cs)
    ensures Typed(Run(tx, cs))
    decreases |cs|
  {
    if cs != [] {
      StepTyped(tx, cs[0]);
      RunTyped(After(tx, cs[0]), cs[1..]);
    }
  }
}
