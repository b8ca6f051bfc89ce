/** Building an unshielded offer: inputs, outputs and signatures are sorted consistently. */
module UnshieldedOffers {
  type Order<!T> = (T, T) -> bool

  ghost predicate TotalOrder<T(!new)>(leq: Order<T>) {
    && (forall x, y :: leq(x, y) || leq(y, x))
    && (forall x, y :: leq(x, y) && leq(y, x) ==> x == y)
    && (forall x, y, z :: leq(x, y) && leq(y, z) ==> leq(x, z))
  }

  // ----- Sorting -----

  ghost predicate Sorted<T>(leq: Order<T>, s: seq<T>) { forall i, j :: 0 <= i < j < |s| ==> leq(s[i], s[j]) }

  function Insert<T>(leq: Order<T>, x: T, s: seq<T>): (r: seq<T>)
    ensures multiset(r) == multiset(s) + multiset{x}
  {
    if s == [] then [x]
    else if leq(x, s[0]) then [x] + s
    else
      assert s == [s[0]] + s[1..];
      [s[0]] + Insert(leq, x, s[1..])
  }

  function Sort<T>(leq: Order<T>, s: seq<T>): (r: seq<T>)
    ensures multiset(r) == multiset(s)
  {
    if s == [] then []
    else
      assert s == [s[0]] + s[1..];
      Insert(leq, s[0], Sort(leq, s[1..]))
  }

  lemma SortedCons<T(!new)>(leq: Order<T>, x: T, s: seq<T>)
    requires TotalOrder(leq) && Sorted(leq, s) && forall y :: y in s ==> leq(x, y)
    ensures Sorted(leq, [x] + s)
  {}

  lemma {:induction false} InsertSorted<T(!new)>(leq: Order<T>, x: T, s: seq<T>)
    requires TotalOrder(leq) && Sorted(leq, s)
    ensures Sorted(leq, Insert(leq, x, s))
  {
    if s != [] {
      if leq(x, s[0]) {
        forall y | y in s ensures leq(x, y) { var i :| 0 <= i < |s| && s[i] == y; }
        SortedCons(leq, x, s);
      } else {
        var r := Insert(leq, x, s[1..]);
        InsertSorted(leq, x, s[1..]);
        forall y | y in r ensures leq(s[0], y) {
          assert y in multiset(r);
          assert y in s[1..] || y == x;
          if y in s[1..] { var i :| 0 < i < |s| && s[i] == y; }
        }
        SortedCons(leq, s[0], r);
      }
    }
  }

  lemma {:induction false} SortSorts<T(!new)>(leq: Order<T>, s: seq<T>)
    requires TotalOrder(leq)
    ensures Sorted(leq, Sort(leq, s))
  {
    if s != [] {
      SortSorts(leq, s[1..]);
      InsertSorted(leq, s[0], Sort(leq, s[1..]));
    }
  }

  lemma LeastFirst<T(!new)>(leq: Order<T>, a: seq<T>, b: seq<T>)
    requires TotalOrder(leq) && Sorted(leq, a) && Sorted(leq, b) && multiset(a) == multiset(b) && a != [] && b != []
    ensures a[0] == b[0]
  {
    assert a[0] in multiset(b) && b[0] in multiset(a);
    var i :| 0 <= i < |b| && b[i] == a[0];
    var j :| 0 <= j < |a| && a[j] == b[0];
    assert leq(b[0], b[i]) && leq(a[0], a[j]);
  }

  lemma TailsMatch<T>(a: seq<T>, b: seq<T>)
    requires multiset(a) == multiset(b) && a != [] && b != [] && a[0] == b[0]
    ensures multiset(a[1..]) == multiset(b[1..])
  {
    assert a == [a[0]] + a[1..] && b == [b[0]] + b[1..];
    assert multiset(a[1..]) == multiset(a) - multiset{a[0]};
    assert multiset(b[1..]) == multiset(b) - multiset{a[0]};
  }

  lemma SameSize<T>(a: seq<T>, b: seq<T>)
    requires multiset(a) == multiset(b)
    ensures |a| == |b|
  {
    assert |multiset(a)| == |a| && |multiset(b)| == |b|;
  }

  /** Sorted permutations are unique, so any sorting routine returns the same sequence. */
  lemma {:induction false} SortedUnique<T(!new)>(leq: Order<T>, a: seq<T>, b: seq<T>)
    requires TotalOrder(leq) && Sorted(leq, a) && Sorted(leq, b) && multiset(a) == multiset(b)
    ensures a == b
    decreases |a|
  {
    SameSize(a, b);
    if a != [] {
      LeastFirst(leq, a, b);
      TailsMatch(a, b);
      SortedUnique(leq, a[1..], b[1..]);
    }
  }

  // ----- Pairs -----

  function Zip<I, S>(a: seq<I>, b: seq<S>): (r: seq<(I, S)>)
    requires |a| == |b|
    ensures |r| == |a| && forall i :: 0 <= i < |a| ==> r[i] == (a[i], b[i])
  {
    if a == [] then [] else [(a[0], b[0])] + Zip(a[1..], b[1..])
  }

  function Firsts<I, S>(s: seq<(I, S)>): (r: seq<I>)
    ensures |r| == |s| && forall i :: 0 <= i < |s| ==> r[i] == s[i].0
  {
    if s == [] then [] else [s[0].0] + Firsts(s[1..])
  }

  function Seconds<I, S>(s: seq<(I, S)>): (r: seq<S>)
    ensures |r| == |s| && forall i :: 0 <= i < |s| ==> r[i] == s[i].1
  {
    if s == [] then [] else [s[0].1] + Seconds(s[1..])
  }

  /** Pairs are ordered by their first component, then by their second. */
  predicate PairLeq<I(==), S>(leqI: Order<I>, leqS: Order<S>, x: (I, S), y: (I, S)) {
    if x.0 == y.0 then leqS(x.1, y.1) else leqI(x.0, y.0)
  }

  function Lexicographic<I(==), S>(leqI: Order<I>, leqS: Order<S>): Order<(I, S)> {
    (x: (I, S), y: (I, S)) => PairLeq(leqI, leqS, x, y)
  }

  lemma PairTransitive<I(!new), S(!new)>(leqI: Order<I>, leqS: Order<S>, x: (I, S), y: (I, S), z: (I, S))
    requires TotalOrder(leqI) && TotalOrder(leqS) && PairLeq(leqI, leqS, x, y) && PairLeq(leqI, leqS, y, z)
    ensures PairLeq(leqI, leqS, x, z)
  {}

  lemma PairAntisymmetric<I(!new), S(!new)>(leqI: Order<I>, leqS: Order<S>, x: (I, S), y: (I, S))
    requires TotalOrder(leqI) && TotalOrder(leqS) && PairLeq(leqI, leqS, x, y) && PairLeq(leqI, leqS, y, x)
    ensures x == y
  {
    assert x.0 == y.0;
    assert x.1 == y.1;
  }

  lemma LexicographicTotal<I(!new), S(!new)>(leqI: Order<I>, leqS: Order<S>)
    requires TotalOrder(leqI) && TotalOrder(leqS)
    ensures TotalOrder(Lexicographic(leqI, leqS))
  {
    var lex := Lexicographic(leqI, leqS);
    forall x, y ensures lex(x, y) || lex(y, x) {
      assert PairLeq(leqI, leqS, x, y) || PairLeq(leqI, leqS, y, x);
    }
    forall x, y | lex(x, y) && lex(y, x) ensures x == y { PairAntisymmetric(leqI, leqS, x, y); }
    forall x, y, z | lex(x, y) && lex(y, z) ensures lex(x, z) { PairTransitive(leqI, leqS, x, y, z); }
  }

  lemma FirstsConcat<I, S>(a: seq<(I, S)>, b: seq<(I, S)>)
    ensures Firsts(a + b) == Firsts(a) + Firsts(b)
  {}

  /** Moving one pair to the front moves its first component to the front. */
  lemma FirstsMoved<I, S>(before: seq<(I, S)>, x: (I, S), after: seq<(I, S)>)
    ensures multiset(before + ([x] + after)) == multiset([x] + (before + after))
    ensures multiset(Firsts(before + ([x] + after))) == multiset([x.0] + Firsts(before + after))
  {
    FirstsConcat(before, [x] + after);
    FirstsConcat([x], after);
    FirstsConcat(before, after);
    assert Firsts([x]) == [x.0];
  }

  lemma FirstsCons<I, S>(x: (I, S), rest: seq<(I, S)>)
    ensures Firsts([x] + rest) == [x.0] + Firsts(rest)
  {
    FirstsConcat([x], rest);
    assert Firsts([x]) == [x.0];
  }

  lemma Extract<T>(s: seq<T>, x: T) returns (before: seq<T>, after: seq<T>)
    requires x in multiset(s)
    ensures s == before + ([x] + after)
  {
    var i :| 0 <= i < |s| && s[i] == x;
    before, after := s[..i], s[i + 1..];
  }

  lemma RestMatches<T>(a: seq<T>, x: T, before: seq<T>, after: seq<T>)
    requires a != [] && a[0] == x && multiset(a) == multiset([x] + (before + after))
    ensures multiset(a[1..]) == multiset(before + after)
  {
    TailsMatch(a, [x] + (before + after));
    assert ([x] + (before + after))[1..] == before + after;
  }

  lemma FirstsOfHead<I, S>(a: seq<(I, S)>)
    requires a != []
    ensures multiset(Firsts(a)) == multiset{a[0].0} + multiset(Firsts(a[1..]))
  {
    assert a == [a[0]] + a[1..];
    FirstsCons(a[0], a[1..]);
  }

  lemma {:induction false} FirstsMultiset<I, S>(a: seq<(I, S)>, b: seq<(I, S)>)
    requires multiset(a) == multiset(b)
    ensures multiset(Firsts(a)) == multiset(Firsts(b))
    decreases |a|
  {
    SameSize(a, b);
    if a != [] {
      assert a[0] in multiset(a);
      var before, after := Extract(b, a[0]);
      FirstsMoved(before, a[0], after);
      RestMatches(a, a[0], before, after);
      FirstsMultiset(a[1..], before + after);
      FirstsOfHead(a);
    }
  }

  /** Sorting pairs sorts their first components. */
  lemma SortedFirsts<I(!new), S(!new)>(leqI: Order<I>, leqS: Order<S>, pairs: seq<(I, S)>)
    requires TotalOrder(leqI) && TotalOrder(leqS)
    ensures Firsts(Sort(Lexicographic(leqI, leqS), pairs)) == Sort(leqI, Firsts(pairs))
  {
    var lex := Lexicographic(leqI, leqS);
    LexicographicTotal(leqI, leqS);
    SortSorts(lex, pairs);
    var sorted := Sort(lex, pairs);
    FirstsMultiset(sorted, pairs);
    SortSorts(leqI, Firsts(pairs));
    forall i, j | 0 <= i < j < |sorted| ensures leqI(sorted[i].0, sorted[j].0) { assert lex(sorted[i], sorted[j]); }
    SortedUnique(leqI, Firsts(sorted), Sort(leqI, Firsts(pairs)));
  }

  // ----- Offers -----

  datatype Offer<I, O, S> = Offer(inputs: seq<I>, outputs: seq<O>, signatures: seq<S>)

  datatype Orders<!I, !O, !S> = Orders(inputs: Order<I>, outputs: Order<O>, signatures: Order<S>)

  ghost predicate AreTotal<I(!new), O(!new), S(!new)>(orders: Orders<I, O, S>) {
    TotalOrder(orders.inputs) && TotalOrder(orders.outputs) && TotalOrder(orders.signatures)
  }

  /** Signatures follow their inputs when there is one for each; otherwise they stay as given. */
  method NewOffer<I(==, !new), O(!new), S(!new)>(orders: Orders<I, O, S>, inputs: seq<I>, outputs: seq<O>,
                                                 signatures: seq<S>)
    returns (offer: Offer<I, O, S>)
    requires AreTotal(orders)
    ensures Sorted(orders.inputs, offer.inputs) && multiset(offer.inputs) == multiset(inputs)
    ensures Sorted(orders.outputs, offer.outputs) && multiset(offer.outputs) == multiset(outputs)
    ensures |signatures| == |inputs| ==>
              && |offer.signatures| == |offer.inputs|
              && multiset(Zip(offer.inputs, offer.signatures)) == multiset(Zip(inputs, signatures))
    ensures |signatures| != |inputs| ==> offer.signatures == signatures
    ensures offer == Built(orders, inputs, outputs, signatures)
  {
    var ins, outs, sigs := inputs, outputs, signatures;
    if |sigs| == |ins| {
      var pairs := Zip(ins, sigs);
      pairs := Sort(Lexicographic(orders.inputs, orders.signatures), pairs);
      sigs := Seconds(pairs);
      PairsAligned(orders, inputs, signatures);
    }
    ins := Sort(orders.inputs, ins);
    outs := Sort(orders.outputs, outs);
    SortSorts(orders.inputs, inputs);
    SortSorts(orders.outputs, outputs);
    offer := Offer(ins, outs, sigs);
  }

  function BuiltSignatures<I(==), O, S>(orders: Orders<I, O, S>, inputs: seq<I>, signatures: seq<S>): seq<S> {
    if |signatures| == |inputs|
    then Seconds(Sort(Lexicographic(orders.inputs, orders.signatures), Zip(inputs, signatures)))
    else signatures
  }

  function Built<I(==), O, S>(orders: Orders<I, O, S>, inputs: seq<I>, outputs: seq<O>, signatures: seq<S>)
    : Offer<I, O, S>
  {
    Offer(Sort(orders.inputs, inputs), Sort(orders.outputs, outputs), BuiltSignatures(orders, inputs, signatures))
  }

  /** Zipping the sorted inputs with the carried signatures gives back the sorted pairs. */
  lemma PairsAligned<I(!new), O(!new), S(!new)>(orders: Orders<I, O, S>, inputs: seq<I>, signatures: seq<S>)
    requires AreTotal(orders) && |inputs| == |signatures|
    ensures |BuiltSignatures(orders, inputs, signatures)| == |Sort(orders.inputs, inputs)|
    ensures Zip(Sort(orders.inputs, inputs), BuiltSignatures(orders, inputs, signatures))
            == Sort(Lexicographic(orders.inputs, orders.signatures), Zip(inputs, signatures))
  {
    var sorted := Sort(Lexicographic(orders.inputs, orders.signatures), Zip(inputs, signatures));
    SortedFirsts(orders.inputs, orders.signatures, Zip(inputs, signatures));
    assert Firsts(Zip(inputs, signatures)) == inputs;
    assert Zip(Firsts(sorted), Seconds(sorted)) == sorted;
  }

  lemma SortCanonical<T(!new)>(leq: Order<T>, a: seq<T>, b: seq<T>)
    requires TotalOrder(leq) && multiset(a) == multiset(b)
    ensures Sort(leq, a) == Sort(leq, b)
  {
    SortSorts(leq, a);
    SortSorts(leq, b);
    SortedUnique(leq, Sort(leq, a), Sort(leq, b));
  }

  lemma SamePairsSameOffer<I(!new), O(!new), S(!new)>(orders: Orders<I, O, S>, ins: seq<I>, sigs: seq<S>,
                                                       ins': seq<I>, sigs': seq<S>)
    requires AreTotal(orders) && |ins| == |sigs| && |ins'| == |sigs'|
    requires multiset(Zip(ins, sigs)) == multiset(Zip(ins', sigs'))
    ensures Sort(orders.inputs, ins) == Sort(orders.inputs, ins')
    ensures BuiltSignatures(orders, ins, sigs) == BuiltSignatures(orders, ins', sigs')
  {
    LexicographicTotal(orders.inputs, orders.signatures);
    SortCanonical(Lexicographic(orders.inputs, orders.signatures), Zip(ins, sigs), Zip(ins', sigs'));
    FirstsMultiset(Zip(ins, sigs), Zip(ins', sigs'));
    assert Firsts(Zip(ins, sigs)) == ins && Firsts(Zip(ins', sigs')) == ins';
    SortCanonical(orders.inputs, ins, ins');
  }

  lemma SameOfferSamePairs<I(!new), O(!new), S(!new)>(orders: Orders<I, O, S>, ins: seq<I>, sigs: seq<S>,
                                                       ins': seq<I>, sigs': seq<S>)
    requires AreTotal(orders) && |ins| == |sigs| && |ins'| == |sigs'|
    requires Sort(orders.inputs, ins) == Sort(orders.inputs, ins')
    requires BuiltSignatures(orders, ins, sigs) == BuiltSignatures(orders, ins', sigs')
    ensures multiset(Zip(ins, sigs)) == multiset(Zip(ins', sigs'))
  {
    PairsAligned(orders, ins, sigs);
    PairsAligned(orders, ins', sigs');
    var lex := Lexicographic(orders.inputs, orders.signatures);
    assert Sort(lex, Zip(ins, sigs)) == Sort(lex, Zip(ins', sigs'));
  }

  /** The offer depends only on which inputs are signed by which signatures, not on the order given. */
  lemma OfferCanonical<I(!new), O(!new), S(!new)>(orders: Orders<I, O, S>, ins: seq<I>, outs: seq<O>, sigs: seq<S>,
                                                   ins': seq<I>, outs': seq<O>, sigs': seq<S>)
    requires AreTotal(orders) && |ins| == |sigs| && |ins'| == |sigs'|
    ensures Built(orders, ins, outs, sigs) == Built(orders, ins', outs', sigs')
            <==> multiset(Zip(ins, sigs)) == multiset(Zip(ins', sigs')) && multiset(outs) == multiset(outs')
  {
    if Built(orders, ins, outs, sigs) == Built(orders, ins', outs', sigs') {
      SameOfferSamePairs(orders, ins, sigs, ins', sigs');
      assert multiset(Sort(orders.outputs, outs)) == multiset(Sort(orders.outputs, outs'));
    } else if multiset(Zip(ins, sigs)) == multiset(Zip(ins', sigs')) && multiset(outs) == multiset(outs') {
      SamePairsSameOffer(orders, ins, sigs, ins', sigs');
      SortCanonical(orders.outputs, outs, outs');
    }
  }

  // ----- Acceptance by the ledger -----

  predicate Distinct<T(==)>(s: seq<T>) { forall i, j :: 0 <= i < j < |s| ==> s[i] != s[j] }

  predicate AllVerify<I, S>(verifies: (I, S) -> bool, inputs: seq<I>, signatures: seq<S>)
    requires |inputs| == |signatures|
  {
    forall i :: 0 <= i < |inputs| ==> verifies(inputs[i], signatures[i])
  }

  /** The ledger's check: sorted, without duplicate inputs, and a valid signature at every input's index. */
  ghost predicate Accepted<I, O, S>(orders: Orders<I, O, S>, verifies: (I, S) -> bool, offer: Offer<I, O, S>) {
    && Sorted(orders.inputs, offer.inputs)
    && Sorted(orders.outputs, offer.outputs)
    && Distinct(offer.inputs)
    && |offer.inputs| == |offer.signatures|
    && AllVerify(verifies, offer.inputs, offer.signatures)
  }

  lemma AllVerifyPairs<I, S>(verifies: (I, S) -> bool, inputs: seq<I>, signatures: seq<S>)
    requires |inputs| == |signatures|
    ensures AllVerify(verifies, inputs, signatures)
            <==> forall p :: p in multiset(Zip(inputs, signatures)) ==> verifies(p.0, p.1)
  {
    var pairs := Zip(inputs, signatures);
    if forall p: (I, S) :: p in multiset(pairs) ==> verifies(p.0, p.1) {
      forall i | 0 <= i < |inputs| ensures verifies(inputs[i], signatures[i]) { assert pairs[i] in multiset(pairs); }
    }
  }

  lemma {:induction false} DistinctCounts<T>(s: seq<T>)
    ensures Distinct(s) <==> forall x :: x in multiset(s) ==> multiset(s)[x] == 1
  {
    if Distinct(s) {
      forall x | x in multiset(s) ensures multiset(s)[x] == 1 { CountOne(s, x); }
    } else {
      var i, j :| 0 <= i < j < |s| && s[i] == s[j];
      assert s == s[..i] + [s[i]] + s[i + 1..j] + [s[j]] + s[j + 1..];
      assert multiset(s)[s[i]] >= 2;
      assert s[i] in multiset(s);
    }
  }

  lemma {:induction false} CountOne<T>(s: seq<T>, x: T)
    requires Distinct(s) && x in s
    ensures multiset(s)[x] == 1
  {
    assert s == [s[0]] + s[1..];
    if x == s[0] {
      assert x !in s[1..];
    } else {
      CountOne(s[1..], x);
    }
  }

  /** A built offer is accepted exactly when the caller's own lists pair up, verify and repeat no input. */
  lemma BuiltAcceptedIff<I(!new), O(!new), S(!new)>(orders: Orders<I, O, S>, verifies: (I, S) -> bool,
                                                     inputs: seq<I>, outputs: seq<O>, signatures: seq<S>)
    requires AreTotal(orders)
    ensures Accepted(orders, verifies, Built(orders, inputs, outputs, signatures))
            <==> |inputs| == |signatures| && Distinct(inputs) && AllVerify(verifies, inputs, signatures)
  {
    var offer := Built(orders, inputs, outputs, signatures);
    SortSorts(orders.inputs, inputs);
    SortSorts(orders.outputs, outputs);
    SameSize(offer.inputs, inputs);
    DistinctCounts(inputs);
    DistinctCounts(offer.inputs);
    if |inputs| == |signatures| {
      PairsAligned(orders, inputs, signatures);
      AllVerifyPairs(verifies, inputs, signatures);
      AllVerifyPairs(verifies, offer.inputs, offer.signatures);
    }
  }
}
