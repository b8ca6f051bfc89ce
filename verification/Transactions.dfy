/** Transactions, their stages, and the operations that move them along or edit them. */
module Transactions {
  import opened Options

  /** Order of the scalar field of the embedded curve, in which binding randomness is added up. */
  const ORDER := 0x0e7db4ea6533afa906673b0101343b00a6682093ccc81082d0970e5ed6f72cb7

  type Scalar = s: int | 0 <= s < ORDER
  type Segment = s: int | 0 <= s < 0x1_0000
  /** What `gen_range(2..u16::MAX)` can return. */
  type RandomSegment = s: Segment | 2 <= s < 0xFFFF witness 2

  datatype Proofs = Preimages | Proofs | NoProofs

  /** Proof-erased transactions are the ones with no binding, so the phase carries both. */
  datatype Phase = Unproven(bound: bool) | Proven(bound: bool) | ProofErased {
    predicate Bound() { !ProofErased? && bound }

    function Kind(): Proofs {
      match this
      case Unproven(_) => Preimages
      case Proven(_) => Proofs.Proofs
      case ProofErased => NoProofs
    }
  }

  datatype Stage = Stage(signed: bool, phase: Phase)

  datatype Coin =
    | Input(id: int, rc: Scalar)
    | Output(id: int, rc: Scalar)
    | Transient(id: int, spent: Scalar, created: Scalar)

  /** An offer may list a coin more than once. */
  datatype Offer = Offer(proofs: Proofs, coins: multiset<Coin>)

  datatype Commitment = Randomness(r: Scalar) | Placeholder

  /** `content` stands for the calls, offers and dust actions of the intent. */
  datatype Intent = Intent(stage: Stage, commitment: Commitment, deploys: bool, fallible: bool, content: int)

  datatype Parts = Parts(network: string, guaranteed: Option<Offer>, fallible: map<Segment, Offer>,
                         intents: map<Segment, Intent>, randomness: Scalar)

  datatype Body = Standard(parts: Parts) | ClaimRewards(claim: int)

  datatype Transaction = Transaction(stage: Stage, body: Body)

  datatype Error =
    | AlreadyBound | NotStandard | WrongType | AlreadyProven | ProofsErased | ProvingFailed | DifferentTypes
    | WrongNetwork | SegmentCollision | CoinOverlap | SegmentZero | NotGuaranteed | PartitionFailed

  datatype Result<+T> = Ok(value: T) | Err(error: Error)

  // ----- Binding randomness -----

  /** What a coin adds to the binding randomness; output commitments are subtracted. */
  function Contribution(c: Coin): int {
    match c
    case Input(_, rc) => rc
    case Output(_, rc) => -(rc as int)
    case Transient(_, spent, created) => spent - created
  }

  ghost function Pick(coins: multiset<Coin>): (c: Coin)
    requires coins != multiset{}
    ensures c in coins
  {
    var c :| c in coins; c
  }

  /** A list without one listing of a coin. */
  ghost function Less(coins: multiset<Coin>, c: Coin): (r: multiset<Coin>)
    requires c in coins
    ensures |r| < |coins|
  {
    coins - multiset{c}
  }

  ghost function CoinSum(coins: multiset<Coin>): int
    decreases |coins|
  {
    if coins == multiset{} then 0 else Contribution(Pick(coins)) + CoinSum(Less(coins, Pick(coins)))
  }

  lemma LessCommutes(coins: multiset<Coin>, c: Coin, d: Coin)
    requires c in coins && d in coins && c != d
    ensures d in Less(coins, c) && c in Less(coins, d) && Less(Less(coins, c), d) == Less(Less(coins, d), c)
  {}

  /** The sum does not depend on the order in which the coins are taken. */
  lemma {:induction false} CoinSumRemove(coins: multiset<Coin>, x: Coin)
    requires x in coins
    ensures CoinSum(coins) == Contribution(x) + CoinSum(Less(coins, x))
    decreases |coins|
  {
    var c := Pick(coins);
    if c != x {
      LessCommutes(coins, c, x);
      CoinSumRemove(Less(coins, c), x);
      CoinSumRemove(Less(coins, x), c);
    }
  }

  lemma LessOfUnion(a: multiset<Coin>, b: multiset<Coin>, x: Coin)
    requires x in a
    ensures x in a + b && Less(a + b, x) == Less(a, x) + b
  {}

  lemma {:induction false} CoinSumUnion(a: multiset<Coin>, b: multiset<Coin>)
    ensures CoinSum(a + b) == CoinSum(a) + CoinSum(b)
    decreases |a|
  {
    if a == multiset{} {
      assert a + b == b;
    } else {
      var x := Pick(a);
      LessOfUnion(a, b, x);
      CoinSumRemove(a, x);
      CoinSumRemove(a + b, x);
      CoinSumUnion(Less(a, x), b);
    }
  }

  function At(m: map<Segment, int>, k: int): int { if k in m then m[k] else 0 }

  /** Sum of the values filed under segments below n. */
  function SumBelow(m: map<Segment, int>, n: nat): int {
    if n == 0 then 0 else At(m, n - 1) + SumBelow(m, n - 1)
  }

  function SegmentSum(m: map<Segment, int>): int { SumBelow(m, 0x1_0000) }

  lemma {:induction false} SumBelowAdds(a: map<Segment, int>, b: map<Segment, int>, c: map<Segment, int>, n: nat)
    requires forall k: int :: 0 <= k < n ==> At(c, k) == At(a, k) + At(b, k)
    ensures SumBelow(c, n) == SumBelow(a, n) + SumBelow(b, n)
  {
    if n > 0 { SumBelowAdds(a, b, c, n - 1); }
  }

  lemma {:induction false} SumBelowSingle(k: Segment, v: int, n: nat)
    ensures SumBelow(map[k := v], n) == if k < n then v else 0
  {
    if n > 0 { SumBelowSingle(k, v, n - 1); }
  }

  lemma SegmentSumRemove(m: map<Segment, int>, k: Segment)
    requires k in m
    ensures SegmentSum(m) == m[k] + SegmentSum(m - {k})
  {
    SumBelowSingle(k, m[k], 0x1_0000);
    SumBelowAdds(map[k := m[k]], m - {k}, m, 0x1_0000);
  }

  ghost function OfferSums(offers: map<Segment, Offer>): map<Segment, int> {
    map k | k in offers :: CoinSum(offers[k].coins)
  }

  function OpenedAs(c: Commitment): Scalar { if c.Randomness? then c.r else 0 }

  function IntentSums(intents: map<Segment, Intent>): map<Segment, int> {
    map k | k in intents :: OpenedAs(intents[k].commitment)
  }

  ghost function GuaranteedSum(o: Option<Offer>): int { if o.Some? then CoinSum(o.value.coins) else 0 }

  ghost function Total(p: Parts): int {
    GuaranteedSum(p.guaranteed) + SegmentSum(OfferSums(p.fallible)) + SegmentSum(IntentSums(p.intents))
  }

  // ----- Scalars -----

  function Multiple(q: int): int { q * ORDER }

  /** `r` is the scalar that `x` reduces to. */
  ghost predicate Reduces(x: int, r: Scalar) { exists q :: x == r + Multiple(q) }

  /** Sums that are zero in the scalar field. */
  ghost predicate Vanishes(x: int) { Reduces(x, 0) }

  lemma ZeroVanishes()
    ensures Vanishes(0)
  {
    assert 0 == 0 + Multiple(0);
  }

  lemma ReducesToRemainder(x: int)
    ensures 0 <= x % ORDER < ORDER && Reduces(x, x % ORDER)
  {
    assert x == x % ORDER + Multiple(x / ORDER);
  }

  lemma ReducesOnce(x: int, r: Scalar, s: Scalar)
    requires Reduces(x, r) && Reduces(x, s)
    ensures r == s
  {
    var p :| x == r + Multiple(p);
    var q :| x == s + Multiple(q);
    assert Multiple(p) - Multiple(q) == (p - q) * ORDER;
  }

  /** The scalar of an exact sum. */
  ghost function Residue(x: int): (r: Scalar)
    ensures Reduces(x, r)
  {
    ReducesToRemainder(x);
    var r: Scalar :| Reduces(x, r); r
  }

  lemma ResidueIff(x: int, r: Scalar)
    ensures Reduces(x, r) <==> r == Residue(x)
  {
    if Reduces(x, r) { ReducesOnce(x, r, Residue(x)); }
  }

  lemma ResiduesEqualIff(a: int, b: int)
    ensures Residue(a) == Residue(b) <==> Vanishes(b - a)
  {
    var r := Residue(a);
    var p :| a == r + Multiple(p);
    if Residue(b) == r {
      var q :| b == r + Multiple(q);
      assert b - a == 0 + Multiple(q - p);
    }
    if Vanishes(b - a) {
      var q :| b - a == 0 + Multiple(q);
      assert b == r + Multiple(p + q);
      ResidueIff(b, r);
    }
  }

  ghost function Recomputed(p: Parts): Scalar { Residue(Total(p)) }

  /** Addition and negation in the scalar field. */
  function Plus(r: Scalar, s: Scalar): Scalar { if r + s < ORDER then r + s else r + s - ORDER }

  function Negate(r: Scalar): Scalar { if r == 0 then 0 else ORDER - r }

  lemma PlusReduces(x: int, r: Scalar, y: int, s: Scalar)
    requires Reduces(x, r) && Reduces(y, s)
    ensures Reduces(x + y, Plus(r, s))
  {
    var p :| x == r + Multiple(p);
    var q :| y == s + Multiple(q);
    var carry := if r + s < ORDER then 0 else 1;
    assert x + y == Plus(r, s) + Multiple(p + q + carry);
  }

  lemma ScalarReduces(r: Scalar)
    ensures Reduces(r, r) && Reduces(-(r as int), Negate(r))
  {
    assert (r as int) == r + Multiple(0);
    assert -(r as int) == Negate(r) + Multiple(if r == 0 then 0 else -1);
  }

  /** What a coin adds, as a scalar. */
  function ContributionScalar(c: Coin): Scalar {
    match c
    case Input(_, rc) => rc
    case Output(_, rc) => Negate(rc)
    case Transient(_, spent, created) => Plus(spent, Negate(created))
  }

  lemma ContributionReduces(c: Coin)
    ensures Reduces(Contribution(c), ContributionScalar(c))
  {
    match c
    case Input(_, rc) => ScalarReduces(rc);
    case Output(_, rc) => ScalarReduces(rc);
    case Transient(_, spent, created) =>
      ScalarReduces(spent);
      ScalarReduces(created);
      PlusReduces(spent, spent, -(created as int), Negate(created));
  }

  lemma TakeCoin(rest: multiset<Coin>, c: Coin, next: multiset<Coin>)
    requires c in rest && next == rest - multiset{c}
    ensures CoinSum(rest) == Contribution(c) + CoinSum(next) && |next| < |rest|
  {
    CoinSumRemove(rest, c);
  }

  /** Adds up an offer in scalar arithmetic, coin by coin in any order. */
  method OfferRandomness(o: Offer) returns (r: Scalar)
    ensures Reduces(CoinSum(o.coins), r)
  {
    r := 0;
    var rest := o.coins;
    ghost var done := 0;
    ScalarReduces(0);
    while rest != multiset{}
      invariant CoinSum(o.coins) == done + CoinSum(rest)
      invariant Reduces(done, r)
      decreases |rest|
    {
      var c :| c in rest;
      var next := rest - multiset{c};
      TakeCoin(rest, c, next);
      ContributionReduces(c);
      PlusReduces(done, r, Contribution(c), ContributionScalar(c));
      r := Plus(r, ContributionScalar(c));
      done := done + Contribution(c);
      rest := next;
    }
  }

  lemma OfferSumsRemove(rest: map<Segment, Offer>, k: Segment)
    requires k in rest
    ensures SegmentSum(OfferSums(rest)) == CoinSum(rest[k].coins) + SegmentSum(OfferSums(rest - {k}))
    ensures |(rest - {k}).Keys| < |rest.Keys|
  {
    SegmentSumRemove(OfferSums(rest), k);
    assert OfferSums(rest) - {k} == OfferSums(rest - {k});
    assert (rest - {k}).Keys == rest.Keys - {k};
  }

  method FallibleRandomness(offers: map<Segment, Offer>) returns (r: Scalar)
    ensures Reduces(SegmentSum(OfferSums(offers)), r)
  {
    r := 0;
    var rest := offers;
    ghost var done, total := 0, SegmentSum(OfferSums(offers));
    ScalarReduces(0);
    while rest.Keys != {}
      invariant total == done + SegmentSum(OfferSums(rest))
      invariant Reduces(done, r)
      decreases |rest.Keys|
    {
      var k :| k in rest.Keys;
      var one := OfferRandomness(rest[k]);
      ghost var sum := CoinSum(rest[k].coins);
      OfferSumsRemove(rest, k);
      PlusReduces(done, r, sum, one);
      r := Plus(r, one);
      done := done + sum;
      rest := rest - {k};
    }
    SegmentSumEmpty(OfferSums(rest));
  }

  lemma SegmentSumEmpty(m: map<Segment, int>)
    requires m.Keys == {}
    ensures SegmentSum(m) == 0
  {
    SumBelowAdds(m, m, m, 0x1_0000);
  }

  lemma IntentSumsRemove(rest: map<Segment, Intent>, k: Segment)
    requires k in rest
    ensures SegmentSum(IntentSums(rest)) == OpenedAs(rest[k].commitment) + SegmentSum(IntentSums(rest - {k}))
    ensures |(rest - {k}).Keys| < |rest.Keys|
  {
    SegmentSumRemove(IntentSums(rest), k);
    assert IntentSums(rest) - {k} == IntentSums(rest - {k});
    assert (rest - {k}).Keys == rest.Keys - {k};
  }

  method IntentRandomness(intents: map<Segment, Intent>) returns (r: Scalar)
    ensures Reduces(SegmentSum(IntentSums(intents)), r)
  {
    r := 0;
    var rest := intents;
    ghost var done, total := 0, SegmentSum(IntentSums(intents));
    ScalarReduces(0);
    while rest.Keys != {}
      invariant total == done + SegmentSum(IntentSums(rest))
      invariant Reduces(done, r)
      decreases |rest.Keys|
    {
      var k :| k in rest.Keys;
      var one := OpenedAs(rest[k].commitment);
      IntentSumsRemove(rest, k);
      ScalarReduces(one);
      PlusReduces(done, r, one, one);
      r := Plus(r, one);
      done := done + one;
      rest := rest - {k};
    }
    SegmentSumEmpty(IntentSums(rest));
  }

  /** Folding over hash maps in any order yields the one recomputed value. */
  method RecomputeBindingRandomness(p: Parts) returns (r: Scalar)
    ensures r == Recomputed(p)
  {
    r := 0;
    ScalarReduces(0);
    if p.guaranteed.Some? {
      r := OfferRandomness(p.guaranteed.value);
    }
    var fallible := FallibleRandomness(p.fallible);
    var intents := IntentRandomness(p.intents);
    ghost var g, f := GuaranteedSum(p.guaranteed), SegmentSum(OfferSums(p.fallible));
    ghost var i := SegmentSum(IntentSums(p.intents));
    PlusReduces(g, r, f, fallible);
    r := Plus(r, fallible);
    PlusReduces(g + f, r, i, intents);
    r := Plus(r, intents);
    ResidueIff(g + f + i, r);
  }

  // ----- What every kind of component adds -----

  lemma IntentSumAdded(intents: map<Segment, Intent>, k: Segment, i: Intent)
    requires k !in intents
    ensures SegmentSum(IntentSums(intents[k := i])) == OpenedAs(i.commitment) + SegmentSum(IntentSums(intents))
  {
    IntentSumsRemove(intents[k := i], k);
    assert intents[k := i] - {k} == intents;
  }

  lemma ResidueOfSum(x: int, y: int)
    ensures Reduces(Residue(x) + y, Residue(x + y))
  {
    var r, s := Residue(x), Residue(x + y);
    var p :| x == r + Multiple(p);
    var q :| x + y == s + Multiple(q);
    assert r + y == s + Multiple(q - p);
  }

  /** Filing an open intent under a free segment adds its own randomness; a sealed one adds nothing. */
  lemma IntentAdds(p: Parts, k: Segment, i: Intent)
    requires k !in p.intents
    ensures var s, t := Recomputed(p), Recomputed(p.(intents := p.intents[k := i]));
            match i.commitment
            case Randomness(r) => Reduces(s + r, t)
            case Placeholder => s == t
  {
    IntentSumAdded(p.intents, k, i);
    ResidueOfSum(Total(p), OpenedAs(i.commitment));
    assert Total(p.(intents := p.intents[k := i])) == Total(p) + OpenedAs(i.commitment);
  }

  /** `t` is `s` with a coin added: inputs add their randomness, outputs subtract it, transients do both. */
  ghost predicate AddsCoin(c: Coin, s: Scalar, t: Scalar) {
    match c
    case Input(_, rc) => Reduces(s + rc, t)
    case Output(_, rc) => Reduces(s - rc, t)
    case Transient(_, spent, created) => Reduces(s + spent - created, t)
  }

  lemma CoinSumAdded(coins: multiset<Coin>, c: Coin)
    ensures CoinSum(coins + multiset{c}) == Contribution(c) + CoinSum(coins)
  {
    CoinSumRemove(coins + multiset{c}, c);
    assert Less(coins + multiset{c}, c) == coins;
  }

  lemma TotalAddsCoin(c: Coin, x: int, y: int)
    requires y == Contribution(c) + x
    ensures AddsCoin(c, Residue(x), Residue(y))
  {
    ResidueOfSum(x, Contribution(c));
  }

  /** Listing one more coin in the guaranteed offer. */
  lemma GuaranteedCoinAdds(p: Parts, o: Offer, c: Coin)
    requires p.guaranteed == Some(o)
    ensures AddsCoin(c, Recomputed(p), Recomputed(p.(guaranteed := Some(o.(coins := o.coins + multiset{c})))))
  {
    CoinSumAdded(o.coins, c);
    TotalAddsCoin(c, Total(p), Total(p.(guaranteed := Some(o.(coins := o.coins + multiset{c})))));
  }

  lemma OfferSumAdded(offers: map<Segment, Offer>, k: Segment, o: Offer, c: Coin)
    requires k in offers && offers[k] == o
    ensures SegmentSum(OfferSums(offers[k := o.(coins := o.coins + multiset{c})]))
            == Contribution(c) + SegmentSum(OfferSums(offers))
  {
    var next := offers[k := o.(coins := o.coins + multiset{c})];
    CoinSumAdded(o.coins, c);
    OfferSumsRemove(offers, k);
    OfferSumsRemove(next, k);
    assert next - {k} == offers - {k};
  }

  /** Listing one more coin in a fallible offer. */
  lemma FallibleCoinAdds(p: Parts, k: Segment, o: Offer, c: Coin)
    requires k in p.fallible && p.fallible[k] == o
    ensures AddsCoin(c, Recomputed(p),
                     Recomputed(p.(fallible := p.fallible[k := o.(coins := o.coins + multiset{c})])))
  {
    OfferSumAdded(p.fallible, k, o, c);
    TotalAddsCoin(c, Total(p), Total(p.(fallible := p.fallible[k := o.(coins := o.coins + multiset{c})])));
  }

  /** Parts without coins and intents, whatever empty offers they hold, recompute to zero. */
  lemma NothingRecomputes(p: Parts)
    requires p.guaranteed.Some? ==> p.guaranteed.value.coins == multiset{}
    requires (forall k :: k in p.fallible ==> p.fallible[k].coins == multiset{}) && p.intents == map[]
    ensures Recomputed(p) == 0
  {
    forall k: int | 0 <= k < 0x1_0000 ensures At(OfferSums(p.fallible), k) == 0 {}
    SumBelowAdds(OfferSums(p.fallible), OfferSums(p.fallible), OfferSums(p.fallible), 0x1_0000);
    SegmentSumEmpty(IntentSums(p.intents));
    ScalarReduces(0);
    ResidueIff(0, 0);
  }

  lemma EmptyOfferSum(offers: map<Segment, Offer>, k: Segment, o: Offer)
    requires o.coins == multiset{} && k !in offers
    ensures SegmentSum(OfferSums(offers[k := o])) == SegmentSum(OfferSums(offers))
  {
    OfferSumsRemove(offers[k := o], k);
    assert offers[k := o] - {k} == offers;
  }

  /** An offer without coins adds nothing, wherever it is put. */
  lemma EmptyOfferAdds(p: Parts, k: Segment, o: Offer)
    requires o.coins == multiset{}
    ensures p.guaranteed.None? ==> Recomputed(p.(guaranteed := Some(o))) == Recomputed(p)
    ensures k !in p.fallible ==> Recomputed(p.(fallible := p.fallible[k := o])) == Recomputed(p)
  {
    if p.guaranteed.None? { assert Total(p.(guaranteed := Some(o))) == Total(p); }
    if k !in p.fallible {
      EmptyOfferSum(p.fallible, k, o);
      assert Total(p.(fallible := p.fallible[k := o])) == Total(p);
    }
  }

  lemma ReducesSelf(r: Scalar, t: Scalar)
    requires Reduces(0 + r, t)
    ensures r == t
  {
    ScalarReduces(r);
    ReducesOnce(r, r, t);
  }

  /** Parts with one open intent and nothing else recompute to its randomness. */
  lemma OneIntentRecomputes(p: Parts, k: Segment, r: Scalar)
    requires p.guaranteed.None? && p.fallible == map[]
    requires p.intents.Keys == {k} && p.intents[k].commitment == Randomness(r)
    ensures Recomputed(p) == r
  {
    var none := p.(intents := map[]);
    NothingRecomputes(none);
    IntentAdds(none, k, p.intents[k]);
    assert p == none.(intents := none.intents[k := p.intents[k]]);
    ReducesSelf(r, Recomputed(p));
  }
}
