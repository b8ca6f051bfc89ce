/** The operations of the transaction interface: stage changes, setters, segment edits and merging. */
module TransactionSteps {
  import opened Options
  import opened Transactions

  // ----- Stage changes -----

  function Retag(o: Offer, kind: Proofs): Offer { Offer(kind, o.coins) }

  function RetagOption(o: Option<Offer>, kind: Proofs): Option<Offer> {
    if o.Some? then Some(Retag(o.value, kind)) else None
  }

  function RetagAll(offers: map<Segment, Offer>, kind: Proofs): map<Segment, Offer> {
    map k | k in offers :: Retag(offers[k], kind)
  }

  function Restage(intents: map<Segment, Intent>, stage: Stage): map<Segment, Intent> {
    map k | k in intents :: intents[k].(stage := stage)
  }

  /** The same content, typed for another stage. */
  function Move(tx: Transaction, stage: Stage): Transaction {
    match tx.body
    case ClaimRewards(_) => Transaction(stage, tx.body)
    case Standard(p) =>
      var kind := stage.phase.Kind();
      Transaction(stage, Standard(p.(guaranteed := RetagOption(p.guaranteed, kind),
                                     fallible := RetagAll(p.fallible, kind),
                                     intents := Restage(p.intents, stage))))
  }

  function WithPhase(tx: Transaction, phase: Phase): Transaction { Move(tx, tx.stage.(phase := phase)) }

  function Prove(tx: Transaction, succeeds: bool): Result<Transaction> {
    match tx.stage.phase
    case Unproven(false) => if succeeds then Ok(WithPhase(tx, Proven(false))) else Err(ProvingFailed)
    case Unproven(true) => Err(AlreadyBound)
    case Proven(_) => Err(AlreadyProven)
    case ProofErased => Err(ProofsErased)
  }

  function Hollow(tx: Transaction): Transaction {
    match tx.body
    case ClaimRewards(_) => tx
    case Standard(p) =>
      tx.(body := Standard(p.(intents := map k | k in p.intents :: p.intents[k].(commitment := Placeholder))))
  }

  function Bind(tx: Transaction): Transaction {
    match tx.stage.phase
    case Unproven(false) => WithPhase(tx, Unproven(true))
    case Proven(false) => WithPhase(tx, Proven(true))
    case _ => tx
  }

  /** Mock proving also seals, and overwrites the intents' commitments with the largest representable one. */
  function MockProve(tx: Transaction, succeeds: bool): Result<Transaction> {
    var proven := Prove(tx, succeeds);
    if proven.Ok? then Ok(Hollow(Bind(proven.value))) else proven
  }

  function EraseProofs(tx: Transaction): Transaction { WithPhase(tx, ProofErased) }

  function EraseSignatures(tx: Transaction): Transaction {
    if tx.stage.signed then Move(tx, tx.stage.(signed := false)) else tx
  }

  // ----- Setters -----

  predicate OfferFits(stage: Stage, o: Option<Offer>) { o.Some? ==> o.value.proofs == stage.phase.Kind() }

  predicate OffersFit(stage: Stage, offers: map<Segment, Offer>) {
    forall k :: k in offers ==> offers[k].proofs == stage.phase.Kind()
  }

  predicate IntentsFit(stage: Stage, intents: map<Segment, Intent>) {
    forall k :: k in intents ==> intents[k].stage == stage
  }

  ghost function Recompute(p: Parts): Parts { p.(randomness := Recomputed(p)) }

  /** Storing edited parts: only unproven transactions recompute their randomness. */
  ghost function Store(tx: Transaction, p: Parts): Transaction {
    tx.(body := Standard(if tx.stage.phase.Unproven? then Recompute(p) else p))
  }

  ghost function SetGuaranteed(tx: Transaction, o: Option<Offer>): Result<Transaction> {
    if tx.stage.phase.Bound() then Err(AlreadyBound)
    else if tx.body.ClaimRewards? then Err(NotStandard)
    else if !OfferFits(tx.stage, o) then Err(WrongType)
    else Ok(Store(tx, tx.body.parts.(guaranteed := o)))
  }

  ghost function SetFallible(tx: Transaction, offers: map<Segment, Offer>): Result<Transaction> {
    if tx.stage.phase.Bound() then Err(AlreadyBound)
    else if tx.body.ClaimRewards? then Err(NotStandard)
    else if !OffersFit(tx.stage, offers) then Err(WrongType)
    else Ok(Store(tx, tx.body.parts.(fallible := offers)))
  }

  ghost function SetIntents(tx: Transaction, intents: map<Segment, Intent>): Result<Transaction> {
    if tx.stage.phase.Bound() then Err(AlreadyBound)
    else if tx.body.ClaimRewards? then Err(NotStandard)
    else if !IntentsFit(tx.stage, intents) then Err(WrongType)
    else Ok(Store(tx, tx.body.parts.(intents := intents)))
  }

  /** What an edit may touch: the guaranteed offer, the fallible offers or the intents, and the randomness. Unproven
      transactions end up with the recomputed randomness, others keep theirs. */
  ghost predicate Edits(before: Transaction, after: Transaction, guaranteed: bool, fallible: bool, intents: bool) {
    && before.stage == after.stage && before.body.Standard? && after.body.Standard?
    && var p, q := before.body.parts, after.body.parts;
    && p.network == q.network
    && (guaranteed || p.guaranteed == q.guaranteed)
    && (fallible || p.fallible == q.fallible)
    && (intents || p.intents == q.intents)
    && q.randomness == if after.stage.phase.Unproven? then Recomputed(q) else p.randomness
  }

  lemma StoreEdits(tx: Transaction, p: Parts)
    requires tx.body.Standard? && p.network == tx.body.parts.network && p.randomness == tx.body.parts.randomness
    ensures var q := tx.body.parts;
            Edits(tx, Store(tx, p), p.guaranteed != q.guaranteed, p.fallible != q.fallible, p.intents != q.intents)
  {
    assert Total(Recompute(p)) == Total(p);
  }

  // ----- Edits of one segment -----

  datatype Where = First | Random | GuaranteedOnly | Specific(segment: Segment)

  function Update<T>(m: map<Segment, T>, k: Segment, v: Option<T>): map<Segment, T> {
    if v.Some? then m[k := v.value] else m - {k}
  }

  function Find<T>(m: map<Segment, T>, k: Segment): Option<T> { if k in m then Some(m[k]) else None }

  function FallibleOf(tx: Transaction): map<Segment, Offer> {
    if tx.body.Standard? then tx.body.parts.fallible else map[]
  }

  function IntentsOf(tx: Transaction): map<Segment, Intent> {
    if tx.body.Standard? then tx.body.parts.intents else map[]
  }

  /** `random` is the segment drawn when one is asked for at random. */
  function OfferSegment(at: Where, random: RandomSegment): Segment {
    match at
    case First => 1
    case Specific(s) => s
    case _ => random
  }

  ghost function AddOffer(tx: Transaction, at: Where, random: RandomSegment, o: Option<Offer>): Result<Transaction> {
    if at == GuaranteedOnly || at == Specific(0) then SetGuaranteed(tx, o)
    else if FallibleOf(tx) == map[] && o == None then Ok(tx)
    else SetFallible(tx, Update(FallibleOf(tx), OfferSegment(at, random), o))
  }

  ghost function AddIntent(tx: Transaction, at: Where, random: RandomSegment, i: Option<Intent>): Result<Transaction> {
    if IntentsOf(tx) == map[] && i == None then Ok(tx)
    else if at == GuaranteedOnly && i.Some? && (i.value.deploys || i.value.fallible) then Err(NotGuaranteed)
    else if at == Specific(0) then Err(SegmentZero)
    else SetIntents(tx, Update(IntentsOf(tx), OfferSegment(at, random), i))
  }

  /** Adding an offer touches the guaranteed offer, or exactly the chosen segment of the fallible ones. */
  lemma AddOfferEdits(tx: Transaction, at: Where, random: RandomSegment, o: Option<Offer>)
    requires AddOffer(tx, at, random, o).Ok? && AddOffer(tx, at, random, o).value != tx
    ensures var next := AddOffer(tx, at, random, o).value;
            var s := OfferSegment(at, random);
            if at == GuaranteedOnly || at == Specific(0)
            then Edits(tx, next, true, false, false) && next.body.parts.guaranteed == o
            else && Edits(tx, next, false, true, false)
                 && Find(next.body.parts.fallible, s) == o
                 && forall k: Segment :: k != s ==> Find(next.body.parts.fallible, k) == Find(tx.body.parts.fallible, k)
  {
    if at == GuaranteedOnly || at == Specific(0) {
      StoreEdits(tx, tx.body.parts.(guaranteed := o));
    } else {
      StoreEdits(tx, tx.body.parts.(fallible := Update(FallibleOf(tx), OfferSegment(at, random), o)));
    }
  }

  /** Adding an intent touches exactly the chosen segment, never segment zero, and never puts fallible content where
      only guaranteed content was asked for. */
  lemma AddIntentEdits(tx: Transaction, at: Where, random: RandomSegment, i: Option<Intent>)
    requires AddIntent(tx, at, random, i).Ok? && AddIntent(tx, at, random, i).value != tx
    ensures var next := AddIntent(tx, at, random, i).value;
            var s := OfferSegment(at, random);
            && s != 0 && (at == GuaranteedOnly && i.Some? ==> !i.value.deploys && !i.value.fallible)
            && Edits(tx, next, false, false, true)
            && Find(next.body.parts.intents, s) == i
            && forall k: Segment :: k != s ==> Find(next.body.parts.intents, k) == Find(tx.body.parts.intents, k)
  {
    StoreEdits(tx, tx.body.parts.(intents := Update(IntentsOf(tx), OfferSegment(at, random), i)));
  }

  // ----- Merging -----

  /** Merging collects coins into sets first. */
  function Once(coins: multiset<Coin>): multiset<Coin> { multiset(set c | c in coins) }

  function Joined(x: Offer, y: Offer): Offer { Offer(x.proofs, Once(x.coins) + Once(y.coins)) }

  function MergeOption(a: Option<Offer>, b: Option<Offer>): Result<Option<Offer>> {
    match (a, b)
    case (Some(x), Some(y)) => if x.coins !! y.coins then Ok(Some(Joined(x, y))) else Err(CoinOverlap)
    case (Some(_), None) => Ok(a)
    case (None, _) => Ok(b)
  }

  function MergedOffer(a: map<Segment, Offer>, b: map<Segment, Offer>, k: Segment): Offer
    requires k in a || k in b
  {
    if k in a && k in b then Joined(a[k], b[k])
    else if k in a then a[k] else b[k]
  }

  function MergedOffers(a: map<Segment, Offer>, b: map<Segment, Offer>): map<Segment, Offer> {
    map k | k in a.Keys + b.Keys :: MergedOffer(a, b, k)
  }

  predicate Overlap(a: map<Segment, Offer>, b: map<Segment, Offer>) {
    exists k :: k in a && k in b && !(a[k].coins !! b[k].coins)
  }

  function MergeParts(a: Parts, b: Parts): Result<Parts> {
    if a.network != b.network then Err(WrongNetwork)
    else if !(a.intents.Keys !! b.intents.Keys) then Err(SegmentCollision)
    else
      var g := MergeOption(a.guaranteed, b.guaranteed);
      if g.Err? then Err(g.error)
      else if Overlap(a.fallible, b.fallible) then Err(CoinOverlap)
      else Ok(Parts(a.network, g.value, MergedOffers(a.fallible, b.fallible), a.intents + b.intents,
                    Plus(a.randomness, b.randomness)))
  }

  function Merge(tx: Transaction, other: Transaction): Result<Transaction> {
    if tx.stage != other.stage then Err(DifferentTypes)
    else if tx.body.ClaimRewards? || other.body.ClaimRewards? then Err(NotStandard)
    else
      var p := MergeParts(tx.body.parts, other.body.parts);
      if p.Ok? then Ok(tx.(body := Standard(p.value))) else Err(p.error)
  }

  // ----- Calls -----

  /**
   * What partitioning a batch of calls yields: whether it succeeds, whether any call has a fallible part,
   * the content the target intent ends up with, the randomness of a new intent, and the coins of each side.
   */
  datatype Calls = Calls(partitions: bool, fallible: bool, content: int, opening: Scalar,
                         guaranteedCoins: multiset<Coin>, fallibleCoins: multiset<Coin>)

  function CoinsOffer(coins: multiset<Coin>): Option<Offer> {
    if coins == multiset{} then None else Some(Offer(Preimages, coins))
  }

  function CallIntent(tx: Transaction, s: Segment, calls: Calls): Intent {
    var before := if s in IntentsOf(tx) then IntentsOf(tx)[s]
                  else Intent(tx.stage, Randomness(calls.opening), false, false, 0);
    before.(content := calls.content, fallible := before.fallible || calls.fallible)
  }

  function CallSegment(at: Where, random: Segment): Segment {
    match at
    case First => 1
    case Specific(s) => s
    case _ => random
  }

  /** The parts with the calls added to the intent of one segment and the coins merged into the offers. */
  function CalledParts(tx: Transaction, s: Segment, calls: Calls): Result<Parts>
    requires tx.body.Standard?
  {
    var p := tx.body.parts;
    var g := MergeOption(p.guaranteed, CoinsOffer(calls.guaranteedCoins));
    var f := MergeOption(Find(p.fallible, s), CoinsOffer(calls.fallibleCoins));
    if g.Err? then Err(g.error)
    else if f.Err? then Err(f.error)
    else Ok(p.(intents := p.intents[s := CallIntent(tx, s, calls)], guaranteed := g.value,
               fallible := Update(p.fallible, s, f.value)))
  }

  ghost function AddCalls(tx: Transaction, at: Where, random: Segment, calls: Calls): Result<Transaction> {
    if tx.stage.phase.Bound() then Err(AlreadyBound)
    else if tx.stage.phase.Proven? then Err(AlreadyProven)
    else if tx.stage.phase.ProofErased? then Err(ProofsErased)
    else if tx.body.ClaimRewards? then Err(NotStandard)
    else if !calls.partitions then Err(PartitionFailed)
    else if at == GuaranteedOnly && calls.fallible then Err(NotGuaranteed)
    else if at == Specific(0) then Err(SegmentZero)
    else
      var p := CalledParts(tx, CallSegment(at, random), calls);
      if p.Ok? then Ok(Store(tx, p.value)) else Err(p.error)
  }

  // ----- The mutable transaction object -----

  class Handle {
    var tx: Transaction

    constructor (tx: Transaction)
      ensures this.tx == tx
    {
      this.tx := tx;
    }

    /** Stores edited parts in place, recomputing the randomness of unproven transactions. */
    method Assign(p: Parts)
      requires tx.body.Standard?
      modifies this
      ensures tx == Store(old(tx), p)
    {
      tx := tx.(body := Standard(p));
      if tx.stage.phase.Unproven? {
        var r := RecomputeBindingRandomness(p);
        tx := tx.(body := Standard(p.(randomness := r)));
      }
    }

    method SetGuaranteedOffer(o: Option<Offer>) returns (r: Result<()>)
      modifies this
      ensures r.Ok? <==> SetGuaranteed(old(tx), o).Ok?
      ensures r.Ok? ==> tx == SetGuaranteed(old(tx), o).value
      ensures r.Ok? ==> Edits(old(tx), tx, true, false, false) && tx.body.parts.guaranteed == o
      ensures r.Err? ==> tx == old(tx) && r.error == SetGuaranteed(old(tx), o).error
    {
      if tx.stage.phase.Bound() { return Err(AlreadyBound); }
      if tx.body.ClaimRewards? { return Err(NotStandard); }
      if o.Some? && o.value.proofs != tx.stage.phase.Kind() { return Err(WrongType); }
      StoreEdits(tx, tx.body.parts.(guaranteed := o));
      Assign(tx.body.parts.(guaranteed := o));
      return Ok(());
    }

    method SetFallibleOffer(offers: map<Segment, Offer>) returns (r: Result<()>)
      modifies this
      ensures r.Ok? <==> SetFallible(old(tx), offers).Ok?
      ensures r.Ok? ==> tx == SetFallible(old(tx), offers).value
      ensures r.Ok? ==> Edits(old(tx), tx, false, true, false) && tx.body.parts.fallible == offers
      ensures r.Err? ==> tx == old(tx) && r.error == SetFallible(old(tx), offers).error
    {
      if tx.stage.phase.Bound() { return Err(AlreadyBound); }
      if tx.body.ClaimRewards? { return Err(NotStandard); }
      if !OffersFit(tx.stage, offers) { return Err(WrongType); }
      StoreEdits(tx, tx.body.parts.(fallible := offers));
      Assign(tx.body.parts.(fallible := offers));
      return Ok(());
    }

    method SetIntentMap(intents: map<Segment, Intent>) returns (r: Result<()>)
      modifies this
      ensures r.Ok? <==> SetIntents(old(tx), intents).Ok?
      ensures r.Ok? ==> tx == SetIntents(old(tx), intents).value
      ensures r.Ok? ==> Edits(old(tx), tx, false, false, true) && tx.body.parts.intents == intents
      ensures r.Err? ==> tx == old(tx) && r.error == SetIntents(old(tx), intents).error
    {
      if tx.stage.phase.Bound() { return Err(AlreadyBound); }
      if tx.body.ClaimRewards? { return Err(NotStandard); }
      if !IntentsFit(tx.stage, intents) { return Err(WrongType); }
      StoreEdits(tx, tx.body.parts.(intents := intents));
      Assign(tx.body.parts.(intents := intents));
      return Ok(());
    }

    /** Works on a copy: the receiver keeps its transaction whatever happens. */
    method AddZswapOffer(at: Where, random: RandomSegment, o: Option<Offer>) returns (r: Result<Transaction>)
      ensures r == AddOffer(tx, at, random, o)
    {
      var copy := new Handle(tx);
      if at == GuaranteedOnly || at == Specific(0) {
        var done := copy.SetGuaranteedOffer(o);
        return if done.Ok? then Ok(copy.tx) else Err(done.error);
      }
      if FallibleOf(tx) == map[] && o == None { return Ok(tx); }
      var done := copy.SetFallibleOffer(Update(FallibleOf(tx), OfferSegment(at, random), o));
      return if done.Ok? then Ok(copy.tx) else Err(done.error);
    }

    method AddOneIntent(at: Where, random: RandomSegment, i: Option<Intent>) returns (r: Result<Transaction>)
      ensures r == AddIntent(tx, at, random, i)
    {
      var copy := new Handle(tx);
      if IntentsOf(tx) == map[] && i == None { return Ok(tx); }
      if at == GuaranteedOnly && i.Some? && (i.value.deploys || i.value.fallible) { return Err(NotGuaranteed); }
      if at == Specific(0) { return Err(SegmentZero); }
      var done := copy.SetIntentMap(Update(IntentsOf(tx), OfferSegment(at, random), i));
      return if done.Ok? then Ok(copy.tx) else Err(done.error);
    }
  }
}
