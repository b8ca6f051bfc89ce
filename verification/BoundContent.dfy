/** Content of transactions: kept by every change of stage, and by all that can happen to a bound transaction except
    merging, which loses no coin and no intent. */
module BoundContent {
  import opened Options
  import opened Transactions
  import opened TransactionSteps
  import opened TransactionRuns

  // ----- The same content -----

  predicate SameCoins(a: Option<Offer>, b: Option<Offer>) {
    a.Some? == b.Some? && (a.Some? ==> a.value.coins == b.value.coins)
  }

  predicate SameOffers(a: map<Segment, Offer>, b: map<Segment, Offer>) {
    a.Keys == b.Keys && forall k :: k in a ==> a[k].coins == b[k].coins
  }

  /** The same calls and flags. */
  predicate SameCalls(a: Intent, b: Intent) {
    a.content == b.content && a.deploys == b.deploys && a.fallible == b.fallible
  }

  predicate SameIntents(a: map<Segment, Intent>, b: map<Segment, Intent>) {
    a.Keys == b.Keys && forall k :: k in a ==> SameCalls(a[k], b[k]) && a[k].commitment == b[k].commitment
  }

  /** Everything but the stage and what the types of offers and intents say about it. */
  predicate SameContent(a: Body, b: Body) {
    match a
    case ClaimRewards(_) => a == b
    case Standard(p) =>
      && b.Standard? && p.network == b.parts.network && p.randomness == b.parts.randomness
      && SameCoins(p.guaranteed, b.parts.guaranteed)
      && SameOffers(p.fallible, b.parts.fallible)
      && SameIntents(p.intents, b.parts.intents)
  }

  /** The same but for the commitments, which are all placeholders. */
  predicate SameButSealed(a: Body, b: Body) {
    match a
    case ClaimRewards(_) => a == b
    case Standard(p) =>
      && b.Standard? && p.network == b.parts.network && p.randomness == b.parts.randomness
      && SameCoins(p.guaranteed, b.parts.guaranteed)
      && SameOffers(p.fallible, b.parts.fallible)
      && p.intents.Keys == b.parts.intents.Keys
      && forall k :: k in p.intents ==>
           SameCalls(p.intents[k], b.parts.intents[k]) && b.parts.intents[k].commitment == Placeholder
  }

  lemma SameContentTransitive(a: Body, b: Body, c: Body)
    requires SameContent(a, b) && SameContent(b, c)
    ensures SameContent(a, c)
  {}

  lemma MoveKeepsContent(tx: Transaction, s: Stage)
    ensures SameContent(tx.body, Move(tx, s).body) && Move(tx, s).stage == s
  {}

  // ----- Changes of stage -----

  /** Why a transaction is not proven. */
  function Unprovable(phase: Phase): Error {
    if phase.ProofErased? then ProofsErased
    else if phase.Proven? then AlreadyProven
    else if phase.bound then AlreadyBound
    else ProvingFailed
  }

  /** Proving, when it succeeds, makes an unproven, unbound transaction proven and changes nothing else. */
  lemma ProveKeeps(tx: Transaction, succeeds: bool)
    ensures Prove(tx, succeeds).Ok? <==> tx.stage.phase == Unproven(false) && succeeds
    ensures Prove(tx, succeeds).Err? ==> Prove(tx, succeeds).error == Unprovable(tx.stage.phase)
    ensures Prove(tx, succeeds).Ok? ==>
              var next := Prove(tx, succeeds).value;
              next.stage == Stage(tx.stage.signed, Proven(false)) && SameContent(tx.body, next.body)
  {
    MoveKeepsContent(tx, tx.stage.(phase := Proven(false)));
  }

  /** Binding seals an unbound transaction that still has its proofs, and changes nothing else. */
  lemma BindKeeps(tx: Transaction)
    ensures SameContent(tx.body, Bind(tx).body)
    ensures Bind(tx).stage == match tx.stage.phase
                              case Unproven(_) => Stage(tx.stage.signed, Unproven(true))
                              case Proven(_) => Stage(tx.stage.signed, Proven(true))
                              case ProofErased => tx.stage
  {
    MoveKeepsContent(tx, tx.stage.(phase := Unproven(true)));
    MoveKeepsContent(tx, tx.stage.(phase := Proven(true)));
  }

  /** Erasing proofs or signatures changes nothing else. */
  lemma ErasuresKeep(tx: Transaction)
    ensures SameContent(tx.body, EraseProofs(tx).body)
    ensures EraseProofs(tx).stage == Stage(tx.stage.signed, ProofErased)
    ensures SameContent(tx.body, EraseSignatures(tx).body)
    ensures EraseSignatures(tx).stage == Stage(false, tx.stage.phase)
  {
    MoveKeepsContent(tx, tx.stage.(phase := ProofErased));
    MoveKeepsContent(tx, tx.stage.(signed := false));
  }

  lemma HollowSeals(a: Body, tx: Transaction)
    requires SameContent(a, tx.body)
    ensures SameButSealed(a, Hollow(tx).body) && Hollow(tx).stage == tx.stage
  {}

  /** Mock proving succeeds when proving would, also binds, and of the content changes only the commitments. */
  lemma MockProveSeals(tx: Transaction, succeeds: bool)
    ensures MockProve(tx, succeeds).Ok? <==> tx.stage.phase == Unproven(false) && succeeds
    ensures MockProve(tx, succeeds).Err? ==> MockProve(tx, succeeds).error == Unprovable(tx.stage.phase)
    ensures MockProve(tx, succeeds).Ok? ==>
              var next := MockProve(tx, succeeds).value;
              next.stage == Stage(tx.stage.signed, Proven(true)) && SameButSealed(tx.body, next.body)
  {
    ProveKeeps(tx, succeeds);
    if Prove(tx, succeeds).Ok? {
      var proven := Prove(tx, succeeds).value;
      BindKeeps(proven);
      SameContentTransitive(tx.body, proven.body, Bind(proven).body);
      HollowSeals(tx.body, Bind(proven));
    }
  }

  // ----- Bound transactions -----

  lemma BoundStepFrozen(tx: Transaction, c: Command)
    requires tx.stage.phase.Bound() && !c.DoMerge?
    ensures SameContent(tx.body, After(tx, c).body)
  {
    if c.DoEraseProofs? || c.DoEraseSignatures? {
      ErasuresKeep(tx);
    } else {
      assert After(tx, c) == tx;
    }
  }

  /** While a transaction stays bound, commands other than merging leave its content alone. */
  lemma {:induction false} BoundRunFrozen(tx: Transaction, cs: seq<Command>)
    requires tx.stage.phase.Bound() && Run(tx, cs).stage.phase.Bound()
    requires forall i :: 0 <= i < |cs| ==> !cs[i].DoMerge?
    ensures SameContent(tx.body, Run(tx, cs).body)
    decreases |cs|
  {
    if cs != [] {
      var next := After(tx, cs[0]);
      BoundStepFrozen(tx, cs[0]);
      StepForward(tx, cs[0]);
      RunForward(next, cs[1..]);
      BoundRunFrozen(next, cs[1..]);
      SameContentTransitive(tx.body, next.body, Run(tx, cs).body);
    }
  }

  // ----- Merging -----

  predicate CoinsKept(a: Offer, b: Offer) { forall c :: c in a.coins ==> c in b.coins }

  predicate OfferGrows(a: Option<Offer>, b: Option<Offer>) { a.Some? ==> b.Some? && CoinsKept(a.value, b.value) }

  /** `b` has every coin of `a` in the same segment, and every intent of `a` with its calls, flags and commitment. */
  predicate Grows(a: Body, b: Body) {
    match a
    case ClaimRewards(_) => a == b
    case Standard(p) =>
      && b.Standard?
      && p.network == b.parts.network
      && OfferGrows(p.guaranteed, b.parts.guaranteed)
      && (forall k :: k in p.fallible ==> k in b.parts.fallible && CoinsKept(p.fallible[k], b.parts.fallible[k]))
      && (forall k :: k in p.intents ==>
            && k in b.parts.intents && SameCalls(p.intents[k], b.parts.intents[k])
            && p.intents[k].commitment == b.parts.intents[k].commitment)
  }

  lemma SameGrows(a: Body, b: Body)
    requires SameContent(a, b)
    ensures Grows(a, b)
  {}

  lemma GrowsTransitive(a: Body, b: Body, c: Body)
    requires Grows(a, b) && Grows(b, c)
    ensures Grows(a, c)
  {}

  lemma JoinedKeeps(x: Offer, y: Offer)
    ensures CoinsKept(x, Joined(x, y)) && CoinsKept(y, Joined(x, y))
  {}

  lemma MergedOffersKeep(a: map<Segment, Offer>, b: map<Segment, Offer>)
    ensures forall k :: k in a ==> k in MergedOffers(a, b) && CoinsKept(a[k], MergedOffers(a, b)[k])
    ensures forall k :: k in b ==> k in MergedOffers(a, b) && CoinsKept(b[k], MergedOffers(a, b)[k])
  {
    forall k | k in a && k in b ensures CoinsKept(a[k], Joined(a[k], b[k])) && CoinsKept(b[k], Joined(a[k], b[k])) {
      JoinedKeeps(a[k], b[k]);
    }
  }

  lemma MergeOptionKeeps(a: Option<Offer>, b: Option<Offer>)
    requires MergeOption(a, b).Ok?
    ensures OfferGrows(a, MergeOption(a, b).value) && OfferGrows(b, MergeOption(a, b).value)
  {
    if a.Some? && b.Some? { JoinedKeeps(a.value, b.value); }
  }

  lemma MergeGrows(tx: Transaction, other: Transaction)
    requires Merge(tx, other).Ok?
    ensures Grows(tx.body, Merge(tx, other).value.body) && Grows(other.body, Merge(tx, other).value.body)
  {
    var a, b := tx.body.parts, other.body.parts;
    MergedOffersKeep(a.fallible, b.fallible);
    MergeOptionKeeps(a.guaranteed, b.guaranteed);
  }

  predicate CoinsFrom(m: Offer, a: Option<Offer>, b: Option<Offer>) {
    forall c :: c in m.coins ==> (a.Some? && c in a.value.coins) || (b.Some? && c in b.value.coins)
  }

  /** Nothing but the two transactions ends up in a merged one, in the segment it was in. */
  lemma MergeOnly(tx: Transaction, other: Transaction)
    requires Merge(tx, other).Ok?
    ensures Merge(tx, other).value.stage == tx.stage == other.stage
    ensures tx.body.Standard? && other.body.Standard? && Merge(tx, other).value.body.Standard?
    ensures var a, b, m := tx.body.parts, other.body.parts, Merge(tx, other).value.body.parts;
            && (m.guaranteed.Some? ==> CoinsFrom(m.guaranteed.value, a.guaranteed, b.guaranteed))
            && m.fallible.Keys == a.fallible.Keys + b.fallible.Keys
            && (forall k :: k in m.fallible ==> CoinsFrom(m.fallible[k], Find(a.fallible, k), Find(b.fallible, k)))
            && a.intents.Keys !! b.intents.Keys && m.intents.Keys == a.intents.Keys + b.intents.Keys
  {}

  /** While a transaction stays bound, no run loses a coin from its segment, or removes or alters an intent. */
  lemma {:induction false} BoundRunGrows(tx: Transaction, cs: seq<Command>)
    requires tx.stage.phase.Bound() && Run(tx, cs).stage.phase.Bound()
    ensures Grows(tx.body, Run(tx, cs).body)
    decreases |cs|
  {
    if cs != [] {
      var next := After(tx, cs[0]);
      if cs[0].DoMerge? && Merge(tx, cs[0].other).Ok? {
        MergeGrows(tx, cs[0].other);
      } else if !cs[0].DoMerge? {
        BoundStepFrozen(tx, cs[0]);
        SameGrows(tx.body, next.body);
      }
      StepForward(tx, cs[0]);
      RunForward(next, cs[1..]);
      BoundRunGrows(next, cs[1..]);
      GrowsTransitive(tx.body, next.body, Run(tx, cs).body);
    }
  }
}
