/** When the operations on transactions succeed, which error they give otherwise, and what they file where. */
module TransactionRules {
  import opened Options
  import opened Transactions
  import opened TransactionSteps
  import opened TransactionRuns
  import opened BoundContent

  /** Bound transactions, by name. */
  predicate Sealed(tx: Transaction) { tx.stage.phase == Unproven(true) || tx.stage.phase == Proven(true) }

  /** The proofs that offers of a transaction carry. */
  function ProofsIn(tx: Transaction): Proofs {
    match tx.stage.phase
    case Unproven(_) => Preimages
    case Proven(_) => Proofs.Proofs
    case ProofErased => NoProofs
  }

  // ----- Setters -----

  /** A setter's outcome: errors in this order of precedence. */
  ghost predicate Decides<T>(r: Result<T>, tx: Transaction, fits: bool) {
    && (r == Err(AlreadyBound) <==> Sealed(tx))
    && (r == Err(NotStandard) <==> !Sealed(tx) && tx.body.ClaimRewards?)
    && (r == Err(WrongType) <==> !Sealed(tx) && tx.body.Standard? && !fits)
    && (r.Ok? <==> !Sealed(tx) && tx.body.Standard? && fits)
  }

  lemma SettersDecide(tx: Transaction, o: Option<Offer>, offers: map<Segment, Offer>, intents: map<Segment, Intent>)
    ensures Decides(SetGuaranteed(tx, o), tx, o.Some? ==> o.value.proofs == ProofsIn(tx))
    ensures Decides(SetFallible(tx, offers), tx, forall k :: k in offers ==> offers[k].proofs == ProofsIn(tx))
    ensures Decides(SetIntents(tx, intents), tx, forall k :: k in intents ==> intents[k].stage == tx.stage)
  {}

  // ----- Edits of one segment -----

  /** Where an edit goes: the first segment is one, a specific one itself, and else the one drawn. */
  lemma SegmentsChosen(random: RandomSegment, s: Segment)
    ensures OfferSegment(First, random) == CallSegment(First, random) == 1
    ensures OfferSegment(Specific(s), random) == CallSegment(Specific(s), random) == s
    ensures OfferSegment(Random, random) == CallSegment(Random, random) == random
    ensures OfferSegment(GuaranteedOnly, random) == CallSegment(GuaranteedOnly, random) == random
  {}

  lemma UpdatedOffersFit(stage: Stage, offers: map<Segment, Offer>, s: Segment, o: Option<Offer>)
    requires OffersFit(stage, offers)
    ensures OffersFit(stage, Update(offers, s, o)) <==> OfferFits(stage, o)
  {
    if o.Some? { assert Update(offers, s, o)[s] == o.value; }
  }

  lemma UpdatedIntentsFit(stage: Stage, intents: map<Segment, Intent>, s: Segment, i: Option<Intent>)
    requires IntentsFit(stage, intents)
    ensures IntentsFit(stage, Update(intents, s, i)) <==> (i.Some? ==> i.value.stage == stage)
  {
    if i.Some? { assert Update(intents, s, i)[s] == i.value; }
  }

  /** Adding an offer to a typed transaction: taking nothing out of nothing does nothing, even to a bound one. */
  lemma AddOfferDecides(tx: Transaction, at: Where, random: RandomSegment, o: Option<Offer>)
    requires Typed(tx)
    ensures var r := AddOffer(tx, at, random, o);
            if at != GuaranteedOnly && at != Specific(0) && FallibleOf(tx) == map[] && o == None then r == Ok(tx)
            else Decides(r, tx, o.Some? ==> o.value.proofs == ProofsIn(tx))
  {
    UpdatedOffersFit(tx.stage, FallibleOf(tx), OfferSegment(at, random), o);
  }

  /** Adding an intent: the content is looked at before the segment, and both before the transaction. */
  lemma AddIntentDecides(tx: Transaction, at: Where, random: RandomSegment, i: Option<Intent>)
    requires Typed(tx)
    ensures var r := AddIntent(tx, at, random, i);
            if IntentsOf(tx) == map[] && i == None then r == Ok(tx)
            else if at == GuaranteedOnly && i.Some? && (i.value.deploys || i.value.fallible)
            then r == Err(NotGuaranteed)
            else if at == Specific(0) then r == Err(SegmentZero)
            else Decides(r, tx, i.Some? ==> i.value.stage == tx.stage)
  {
    UpdatedIntentsFit(tx.stage, IntentsOf(tx), OfferSegment(at, random), i);
  }

  // ----- Merging -----

  predicate Apart(a: Option<Offer>, b: Option<Offer>) {
    a.Some? && b.Some? ==> forall c :: c in a.value.coins ==> c !in b.value.coins
  }

  predicate Mergeable(x: Body, y: Body) {
    && x.Standard? && y.Standard? && x.parts.network == y.parts.network
    && (forall k :: k in x.parts.intents ==> k !in y.parts.intents)
    && Apart(x.parts.guaranteed, y.parts.guaranteed)
    && forall k: Segment :: Apart(Find(x.parts.fallible, k), Find(y.parts.fallible, k))
  }

  /** Merging needs standard transactions of the same stage and network that share neither a segment with intents nor,
      in any one place, a coin; which of these is missing first decides the error. */
  lemma MergeDecides(tx: Transaction, other: Transaction)
    ensures var r := Merge(tx, other);
            if tx.stage != other.stage then r == Err(DifferentTypes)
            else if tx.body.ClaimRewards? || other.body.ClaimRewards? then r == Err(NotStandard)
            else
              var a, b := tx.body.parts, other.body.parts;
              if a.network != b.network then r == Err(WrongNetwork)
              else if exists k :: k in a.intents && k in b.intents then r == Err(SegmentCollision)
              else if Apart(a.guaranteed, b.guaranteed)
                      && forall k: Segment :: Apart(Find(a.fallible, k), Find(b.fallible, k)) then r.Ok?
              else r == Err(CoinOverlap)
  {
    if tx.stage == other.stage && tx.body.Standard? && other.body.Standard? {
      var a, b := tx.body.parts, other.body.parts;
      MergeOptionDecides(a.guaranteed, b.guaranteed);
      OverlapDecides(a.fallible, b.fallible);
    }
  }

  lemma MergeOptionDecides(a: Option<Offer>, b: Option<Offer>)
    ensures if Apart(a, b) then MergeOption(a, b).Ok? else MergeOption(a, b) == Err(CoinOverlap)
  {}

  lemma OverlapDecides(a: map<Segment, Offer>, b: map<Segment, Offer>)
    ensures Overlap(a, b) <==> exists k: Segment :: !Apart(Find(a, k), Find(b, k))
  {
    if Overlap(a, b) {
      var k :| k in a && k in b && !(a[k].coins !! b[k].coins);
      assert !Apart(Find(a, k), Find(b, k));
    }
    if k: Segment :| !Apart(Find(a, k), Find(b, k)) {
      assert k in a && k in b && !(a[k].coins !! b[k].coins);
    }
  }

  // ----- Calls -----

  /** What an offer lists after coins have been merged into it. */
  ghost predicate Collects(after: Option<Offer>, before: Option<Offer>, coins: multiset<Coin>) {
    && (after.Some? <==> before.Some? || coins != multiset{})
    && (after.Some? ==> forall c :: c in after.value.coins <==> (before.Some? && c in before.value.coins) || c in coins)
  }

  lemma MergeCollects(before: Option<Offer>, coins: multiset<Coin>)
    requires MergeOption(before, CoinsOffer(coins)).Ok?
    ensures Collects(MergeOption(before, CoinsOffer(coins)).value, before, coins)
  {}

  /** The intents after calls were added under one segment: their content is filed there, flagged if a call is fallible;
      a new intent is opened with the randomness drawn for it, an old one keeps the rest, and the others stay. */
  ghost predicate Files(after: map<Segment, Intent>, before: map<Segment, Intent>, s: Segment, calls: Calls,
                        stage: Stage)
  {
    && after.Keys == before.Keys + {s}
    && (forall k :: k in before && k != s ==> after[k] == before[k])
    && var i := after[s];
    && i.content == calls.content
    && (i.fallible <==> calls.fallible || (s in before && before[s].fallible))
    && if s in before
       then i.commitment == before[s].commitment && i.deploys == before[s].deploys && i.stage == before[s].stage
       else i.commitment == Randomness(calls.opening) && !i.deploys && i.stage == stage
  }

  /** The offers after the coins of calls were merged in. */
  ghost predicate Collected(after: Parts, before: Parts, s: Segment, calls: Calls) {
    && Collects(after.guaranteed, before.guaranteed, calls.guaranteedCoins)
    && Collects(Find(after.fallible, s), Find(before.fallible, s), calls.fallibleCoins)
    && forall k: Segment :: k != s ==> Find(after.fallible, k) == Find(before.fallible, k)
  }

  lemma CalledPartsFile(tx: Transaction, s: Segment, calls: Calls)
    requires tx.body.Standard? && CalledParts(tx, s, calls).Ok?
    ensures Files(CalledParts(tx, s, calls).value.intents, tx.body.parts.intents, s, calls, tx.stage)
  {}

  lemma CalledPartsCollect(tx: Transaction, s: Segment, calls: Calls)
    requires tx.body.Standard? && CalledParts(tx, s, calls).Ok?
    ensures Collected(CalledParts(tx, s, calls).value, tx.body.parts, s, calls)
  {
    MergeCollects(tx.body.parts.guaranteed, calls.guaranteedCoins);
    MergeCollects(Find(tx.body.parts.fallible, s), calls.fallibleCoins);
  }

  lemma StoreKeeps(tx: Transaction, p: Parts)
    ensures var q := Store(tx, p).body.parts;
            p.intents == q.intents && p.guaranteed == q.guaranteed && p.fallible == q.fallible
  {}

  predicate Clashes(o: Option<Offer>, coins: multiset<Coin>) { o.Some? && exists c :: c in o.value.coins && c in coins }

  lemma MergeClashes(o: Option<Offer>, coins: multiset<Coin>)
    ensures if Clashes(o, coins) then MergeOption(o, CoinsOffer(coins)) == Err(CoinOverlap)
            else MergeOption(o, CoinsOffer(coins)).Ok?
  {}

  /** Adding calls: the errors in their order of precedence. */
  lemma AddCallsDecides(tx: Transaction, at: Where, random: Segment, calls: Calls)
    ensures var r := AddCalls(tx, at, random, calls);
            if Sealed(tx) then r == Err(AlreadyBound)
            else if tx.stage.phase == Proven(false) then r == Err(AlreadyProven)
            else if tx.stage.phase == ProofErased then r == Err(ProofsErased)
            else if tx.body.ClaimRewards? then r == Err(NotStandard)
            else if !calls.partitions then r == Err(PartitionFailed)
            else if at == GuaranteedOnly && calls.fallible then r == Err(NotGuaranteed)
            else if at == Specific(0) then r == Err(SegmentZero)
            else if Clashes(tx.body.parts.guaranteed, calls.guaranteedCoins)
                    || Clashes(Find(tx.body.parts.fallible, CallSegment(at, random)), calls.fallibleCoins)
            then r == Err(CoinOverlap)
            else r.Ok?
  {
    if tx.body.Standard? {
      MergeClashes(tx.body.parts.guaranteed, calls.guaranteedCoins);
      MergeClashes(Find(tx.body.parts.fallible, CallSegment(at, random)), calls.fallibleCoins);
    }
  }

  /** Adding calls files their content and collects the coins of both sides under one segment, and touches no other. */
  lemma AddCallsEdits(tx: Transaction, at: Where, random: Segment, calls: Calls)
    requires AddCalls(tx, at, random, calls).Ok?
    ensures tx.stage.phase == Unproven(false) && tx.body.Standard? && calls.partitions && at != Specific(0)
    ensures at == GuaranteedOnly ==> !calls.fallible
    ensures var next, s := AddCalls(tx, at, random, calls).value, CallSegment(at, random);
            && Edits(tx, next, true, true, true)
            && Files(next.body.parts.intents, tx.body.parts.intents, s, calls, tx.stage)
            && Collected(next.body.parts, tx.body.parts, s, calls)
  {
    var s := CallSegment(at, random);
    var p := CalledParts(tx, s, calls).value;
    CalledPartsFile(tx, s, calls);
    CalledPartsCollect(tx, s, calls);
    StoreEdits(tx, p);
    StoreKeeps(tx, p);
  }

  // ----- Commands -----

  predicate Editable(tx: Transaction) { !Sealed(tx) && tx.body.Standard? }

  /** When a command succeeds. */
  ghost predicate Allowed(tx: Transaction, c: Command) {
    match c
    case DoProve(succeeds) => tx.stage.phase == Unproven(false) && succeeds
    case DoMockProve(succeeds) => tx.stage.phase == Unproven(false) && succeeds
    case DoEraseProofs => true
    case DoEraseSignatures => true
    case DoBind => true
    case DoMerge(other) => tx.stage == other.stage && Mergeable(tx.body, other.body)
    case DoSetGuaranteed(o) => Editable(tx) && (o.Some? ==> o.value.proofs == ProofsIn(tx))
    case DoSetFallible(offers) => Editable(tx) && forall k :: k in offers ==> offers[k].proofs == ProofsIn(tx)
    case DoSetIntents(intents) => Editable(tx) && forall k :: k in intents ==> intents[k].stage == tx.stage
    case DoAddOffer(at, _, o) =>
      || (!ToGuaranteed(at) && FallibleOf(tx) == map[] && o == None)
      || (Editable(tx) && (o.Some? ==> o.value.proofs == ProofsIn(tx)))
    case DoAddIntent(at, _, i) =>
      || (IntentsOf(tx) == map[] && i == None)
      || (Editable(tx) && at != Specific(0)
          && (i.Some? ==> i.value.stage == tx.stage)
          && (i.Some? && at == GuaranteedOnly ==> !i.value.deploys && !i.value.fallible))
    case DoAddCalls(at, draw, calls) =>
      && tx.stage.phase == Unproven(false) && tx.body.Standard? && calls.partitions && at != Specific(0)
      && (at == GuaranteedOnly ==> !calls.fallible)
      && !Clashes(tx.body.parts.guaranteed, calls.guaranteedCoins)
      && !Clashes(Find(tx.body.parts.fallible, CallSegment(at, draw)), calls.fallibleCoins)
  }

  predicate ToGuaranteed(at: Where) { at == GuaranteedOnly || at == Specific(0) }

  /** Exactly one segment was set, to `v`. */
  ghost predicate Sets<T>(before: map<Segment, T>, after: map<Segment, T>, s: Segment, v: Option<T>) {
    Find(after, s) == v && forall k: Segment :: k != s ==> Find(after, k) == Find(before, k)
  }

  /** What a command that succeeds does. */
  ghost predicate Performs(tx: Transaction, c: Command, next: Transaction) {
    match c
    case DoProve(_) => next.stage == Stage(tx.stage.signed, Proven(false)) && SameContent(tx.body, next.body)
    case DoMockProve(_) => next.stage == Stage(tx.stage.signed, Proven(true)) && SameButSealed(tx.body, next.body)
    case DoEraseProofs => next.stage == Stage(tx.stage.signed, ProofErased) && SameContent(tx.body, next.body)
    case DoEraseSignatures => next.stage == Stage(false, tx.stage.phase) && SameContent(tx.body, next.body)
    case DoBind => (next.stage.phase.Bound() || next == tx) && SameContent(tx.body, next.body)
    case DoMerge(other) => next.stage == tx.stage && Grows(tx.body, next.body) && Grows(other.body, next.body)
    case DoSetGuaranteed(o) => Edits(tx, next, true, false, false) && next.body.parts.guaranteed == o
    case DoSetFallible(offers) => Edits(tx, next, false, true, false) && next.body.parts.fallible == offers
    case DoSetIntents(intents) => Edits(tx, next, false, false, true) && next.body.parts.intents == intents
    case DoAddOffer(at, random, o) =>
      next != tx ==>
        if ToGuaranteed(at) then Edits(tx, next, true, false, false) && next.body.parts.guaranteed == o
        else && Edits(tx, next, false, true, false)
             && Sets(tx.body.parts.fallible, next.body.parts.fallible, OfferSegment(at, random), o)
    case DoAddIntent(at, random, i) =>
      next != tx ==>
        && Edits(tx, next, false, false, true)
        && Sets(tx.body.parts.intents, next.body.parts.intents, OfferSegment(at, random), i)
    case DoAddCalls(at, draw, calls) =>
      && Edits(tx, next, true, true, true)
      && Files(next.body.parts.intents, tx.body.parts.intents, CallSegment(at, draw), calls, tx.stage)
      && Collected(next.body.parts, tx.body.parts, CallSegment(at, draw), calls)
  }

  lemma StageChangePerforms(tx: Transaction, c: Command)
    requires c.DoProve? || c.DoMockProve? || c.DoEraseProofs? || c.DoEraseSignatures? || c.DoBind?
    ensures if Allowed(tx, c) then Step(tx, c).Ok? && Performs(tx, c, Step(tx, c).value) else Step(tx, c).Err?
  {
    if c.DoProve? { ProveKeeps(tx, c.succeeds); }
    if c.DoMockProve? { MockProveSeals(tx, c.succeeds); }
    BindKeeps(tx);
    ErasuresKeep(tx);
  }

  lemma MergePerforms(tx: Transaction, c: Command)
    requires c.DoMerge?
    ensures if Allowed(tx, c) then Step(tx, c).Ok? && Performs(tx, c, Step(tx, c).value) else Step(tx, c).Err?
  {
    MergeDecides(tx, c.other);
    if Merge(tx, c.other).Ok? { MergeGrows(tx, c.other); }
  }

  lemma SetterPerforms(tx: Transaction, c: Command)
    requires c.DoSetGuaranteed? || c.DoSetFallible? || c.DoSetIntents?
    ensures if Allowed(tx, c) then Step(tx, c).Ok? && Performs(tx, c, Step(tx, c).value) else Step(tx, c).Err?
  {
    if Step(tx, c).Ok? {
      var p := tx.body.parts;
      match c {
        case DoSetGuaranteed(o) => StoreEdits(tx, p.(guaranteed := o));
        case DoSetFallible(offers) => StoreEdits(tx, p.(fallible := offers));
        case DoSetIntents(intents) => StoreEdits(tx, p.(intents := intents));
      }
    }
  }

  lemma AdderPerforms(tx: Transaction, c: Command)
    requires Typed(tx) && (c.DoAddOffer? || c.DoAddIntent?)
    ensures if Allowed(tx, c) then Step(tx, c).Ok? && Performs(tx, c, Step(tx, c).value) else Step(tx, c).Err?
  {
    match c {
      case DoAddOffer(at, random, o) =>
        AddOfferDecides(tx, at, random, o);
        if Step(tx, c).Ok? && Step(tx, c).value != tx { AddOfferEdits(tx, at, random, o); }
      case DoAddIntent(at, random, i) =>
        AddIntentDecides(tx, at, random, i);
        if Step(tx, c).Ok? && Step(tx, c).value != tx { AddIntentEdits(tx, at, random, i); }
    }
  }

  lemma CallsPerform(tx: Transaction, c: Command)
    requires c.DoAddCalls?
    ensures if Allowed(tx, c) then Step(tx, c).Ok? && Performs(tx, c, Step(tx, c).value) else Step(tx, c).Err?
  {
    AddCallsDecides(tx, c.at, c.draw, c.calls);
    if Step(tx, c).Ok? { AddCallsEdits(tx, c.at, c.draw, c.calls); }
  }

  /** Every command succeeds exactly when it is allowed, does then what it says, and changes nothing otherwise. */
  lemma StepPerforms(tx: Transaction, c: Command)
    requires Typed(tx)
    ensures Step(tx, c).Ok? <==> Allowed(tx, c)
    ensures if Allowed(tx, c) then Performs(tx, c, After(tx, c)) else After(tx, c) == tx
  {
    match c {
      case DoMerge(_) => MergePerforms(tx, c);
      case DoAddOffer(_, _, _) => AdderPerforms(tx, c);
      case DoAddIntent(_, _, _) => AdderPerforms(tx, c);
      case DoAddCalls(_, _, _) => CallsPerform(tx, c);
      case DoSetGuaranteed(_) => SetterPerforms(tx, c);
      case DoSetFallible(_) => SetterPerforms(tx, c);
      case DoSetIntents(_) => SetterPerforms(tx, c);
      case _ => StageChangePerforms(tx, c);
    }
  }
}
