/** The meaning of programs with no-ops, and why compaction computes its unique shortest form. */
module NoopMeaning {
  import opened NoopCompaction
  import opened Sequences

  /** One step of an expanded program. */
  datatype Step<T> = Idle | Run(instr: T)

  function Idles<T>(n: nat): (s: seq<Step<T>>)
    ensures |s| == n
  {
    if n == 0 then [] else [Idle] + Idles(n - 1)
  }

  function StepsOf<T>(op: Op<T>): seq<Step<T>> {
    match op
    case Noop(n) => Idles(n)
    case Instr(t) => [Run(t)]
  }

  /** Every no-op of `n` becomes `n` idle steps, as in the field representation of programs. */
  function Expand<T>(ops: seq<Op<T>>): seq<Step<T>> {
    if ops == [] then [] else StepsOf(ops[0]) + Expand(ops[1..])
  }

  lemma {:induction false} IdlesAdd<T>(m: nat, n: nat)
    ensures Idles<T>(m) + Idles(n) == Idles(m + n)
  {
    if m > 0 {
      IdlesAdd<T>(m - 1, n);
      assert Idles<T>(m) + Idles(n) == [Idle] + (Idles(m - 1) + Idles(n));
    } else {
      assert Idles<T>(0) + Idles(n) == Idles(n);
    }
  }

  lemma IdlesShift<T>(m: nat, n: nat, rest: seq<Step<T>>)
    ensures Idles(m) + (Idles(n) + rest) == Idles(m + n) + rest
  {
    IdlesAdd<T>(m, n);
    assert Idles(m) + (Idles(n) + rest) == (Idles(m) + Idles(n)) + rest;
  }

  lemma {:induction false} ExpandConcat<T>(a: seq<Op<T>>, b: seq<Op<T>>)
    ensures Expand(a + b) == Expand(a) + Expand(b)
  {
    if a == [] {
      assert a + b == b;
      assert Expand(a) + Expand(b) == Expand(b);
    } else {
      assert (a + b)[1..] == a[1..] + b;
      ExpandConcat(a[1..], b);
      assert StepsOf(a[0]) + (Expand(a[1..]) + Expand(b)) == (StepsOf(a[0]) + Expand(a[1..])) + Expand(b);
    }
  }

  lemma ExpandPending<T>(n: U32)
    ensures Expand(Pending<T>(n)) == Idles<T>(n)
  {
    if n != 0 { assert Expand(Pending<T>(n)) == StepsOf<T>(Noop(n)) + Expand<T>([]); }
  }

  /** A pending chain, an instruction and the rest, expanded. */
  lemma ExpandInstr<T>(n: U32, t: T, rest: seq<Op<T>>)
    ensures Expand(Pending(n) + [Instr(t)] + rest) == Idles(n) + ([Run(t)] + Expand(rest))
  {
    ExpandConcat(Pending(n) + [Instr(t)], rest);
    ExpandConcat(Pending(n), [Instr(t)]);
    ExpandPending<T>(n);
    assert Expand([Instr(t)]) == [Run(t)] + Expand<T>([]);
  }

  // ----- Meaning is preserved exactly when no chain overflows -----

  /** The counter of every chain of no-ops stays below 2^32. */
  ghost predicate ChainsFit<T>(n: nat, ops: seq<Op<T>>)
    decreases |ops|
  {
    n < U32_BOUND && (ops == [] || match ops[0]
                                   case Noop(k) => ChainsFit(n + k, ops[1..])
                                   case Instr(_) => ChainsFit(0, ops[1..]))
  }

  lemma KeepsInstr<T>(n: U32, ops: seq<Op<T>>)
    requires ops != [] && ops[0].Instr? && Expand(CompactFrom(0, ops[1..])) == Idles(0) + Expand(ops[1..])
    ensures Expand(CompactFrom(n, ops)) == Idles(n) + Expand(ops)
  {
    ExpandInstr(n, ops[0].instr, CompactFrom(0, ops[1..]));
    assert Idles(0) + Expand(ops[1..]) == Expand(ops[1..]);
  }

  lemma CompactNoop<T>(n: U32, ops: seq<Op<T>>)
    requires ops != [] && ops[0].Noop?
    ensures CompactFrom(n, ops) == CompactFrom(Wrap(n + ops[0].n), ops[1..])
  {}

  lemma CompactFits<T>(n: U32, ops: seq<Op<T>>)
    requires ops != [] && ops[0].Noop? && n + ops[0].n < U32_BOUND
    ensures CompactFrom(n, ops) == CompactFrom(n + ops[0].n, ops[1..])
  {}

  lemma ExpandNoop<T>(ops: seq<Op<T>>)
    requires ops != [] && ops[0].Noop?
    ensures Expand(ops) == Idles(ops[0].n) + Expand(ops[1..])
  {}

  lemma KeepsNoop<T>(n: U32, ops: seq<Op<T>>)
    requires ops != [] && ops[0].Noop? && n + ops[0].n < U32_BOUND
    requires Expand(CompactFrom(n + ops[0].n, ops[1..])) == Idles(n + ops[0].n) + Expand(ops[1..])
    ensures Expand(CompactFrom(n, ops)) == Idles(n) + Expand(ops)
  {
    CompactFits(n, ops);
    ExpandNoop(ops);
    IdlesShift(n, ops[0].n, Expand(ops[1..]));
  }

  lemma {:induction false} CompactFromKeeps<T>(n: U32, ops: seq<Op<T>>)
    requires ChainsFit(n, ops)
    ensures Expand(CompactFrom(n, ops)) == Idles(n) + Expand(ops)
    decreases |ops|
  {
    if ops == [] {
      ExpandPending<T>(n);
      assert Idles<T>(n) + [] == Idles(n);
    } else {
      match ops[0] {
        case Noop(k) =>
          CompactFromKeeps(n + k, ops[1..]);
          KeepsNoop(n, ops);
        case Instr(_) =>
          CompactFromKeeps(0, ops[1..]);
          KeepsInstr(n, ops);
      }
    }
  }

  lemma LengthInstr<T>(n: U32, ops: seq<Op<T>>)
    requires ops != [] && ops[0].Instr?
    ensures |Expand(CompactFrom(n, ops))| == n + 1 + |Expand(CompactFrom(0, ops[1..]))|
    ensures |Expand(ops)| == 1 + |Expand(ops[1..])|
  {
    ExpandInstr(n, ops[0].instr, CompactFrom(0, ops[1..]));
  }

  /** Compaction never expands to more steps, and loses some as soon as one chain overflows. */
  lemma {:induction false} CompactFromLength<T>(n: U32, ops: seq<Op<T>>)
    ensures |Expand(CompactFrom(n, ops))| <= n + |Expand(ops)|
    ensures |Expand(CompactFrom(n, ops))| == n + |Expand(ops)| ==> ChainsFit(n, ops)
    decreases |ops|
  {
    if ops == [] {
      ExpandPending<T>(n);
    } else {
      match ops[0] {
        case Noop(k) =>
          CompactFromLength(Wrap(n + k), ops[1..]);
          CompactNoop(n, ops);
          ExpandNoop(ops);
        case Instr(_) =>
          CompactFromLength(0, ops[1..]);
          LengthInstr(n, ops);
      }
    }
  }

  /** Compaction preserves the expansion of a program exactly when every chain of no-ops fits the counter. */
  lemma CompactPreservesIff<T>(ops: seq<Op<T>>)
    ensures Expand(Compact(ops)) == Expand(ops) <==> ChainsFit(0, ops)
  {
    CompactFromLength(0, ops);
    if ChainsFit(0, ops) {
      CompactFromKeeps(0, ops);
      assert Idles(0) + Expand(ops) == Expand(ops);
    }
  }

  /** A chain of 2^32 idle steps compacts to nothing. */
  lemma CompactLosesChain<T>(ops: seq<Op<T>>)
    requires ops == [Noop(U32_BOUND - 1), Noop(1)]
    ensures Compact(ops) == [] && Expand(Compact(ops)) != Expand(ops)
  {
    var rest := [Noop(1)];
    assert ops[1..] == rest && rest[1..] == [];
    assert CompactFrom(0, ops) == CompactFrom<T>(Wrap(0 + (U32_BOUND - 1)), rest);
    assert CompactFrom<T>(U32_BOUND - 1, rest) == CompactFrom<T>(Wrap(U32_BOUND - 1 + 1), []);
    CompactPreservesIff(ops);
  }

  function InstrOf<T>(op: Op<T>): seq<T> { if op.Instr? then [op.instr] else [] }

  /** The instructions of a program, in order. */
  function Instrs<T>(ops: seq<Op<T>>): seq<T> { if ops == [] then [] else InstrOf(ops[0]) + Instrs(ops[1..]) }

  lemma InstrsCons<T>(op: Op<T>, rest: seq<Op<T>>)
    ensures Instrs([op] + rest) == InstrOf(op) + Instrs(rest)
  {
    assert ([op] + rest)[1..] == rest;
  }

  lemma {:induction false} InstrsConcat<T>(a: seq<Op<T>>, b: seq<Op<T>>)
    ensures Instrs(a + b) == Instrs(a) + Instrs(b)
  {
    if a == [] {
      assert a + b == b;
    } else {
      var op, rest := a[0], a[1..];
      InstrsConcat(rest, b);
      InstrsCons(op, rest + b);
      Associative([op], rest, b);
      Associative(InstrOf(op), Instrs(rest), Instrs(b));
      assert [op] + rest == a;
    }
  }

  /** Instructions keep their order, whatever the chains do. */
  lemma {:induction false} CompactKeepsInstrs<T>(n: U32, ops: seq<Op<T>>)
    ensures Instrs(CompactFrom(n, ops)) == Instrs(ops)
    decreases |ops|
  {
    if ops != [] {
      match ops[0] {
        case Noop(k) =>
          CompactKeepsInstrs(Wrap(n + k), ops[1..]);
        case Instr(t) =>
          CompactKeepsInstrs(0, ops[1..]);
          InstrsConcat(Pending(n) + [ops[0]], CompactFrom(0, ops[1..]));
          InstrsConcat(Pending(n), [ops[0]]);
          InstrsCons<T>(ops[0], []);
          assert [ops[0]] + [] == [ops[0]];
      }
    }
  }

  // ----- What compaction loses, and what no-ops cost -----

  /** A number of idle steps that the counter cannot see. */
  function Overflow(q: nat): nat { q * U32_BOUND }

  lemma WrapLoses(x: nat) returns (q: nat)
    ensures x == Wrap(x) + Overflow(q)
  {
    q := x / U32_BOUND;
  }

  /** Compaction only ever loses multiples of 2^32 idle steps. */
  lemma {:induction false} CompactLosesMultiples<T>(n: U32, ops: seq<Op<T>>) returns (q: nat)
    ensures n + |Expand(ops)| == |Expand(CompactFrom(n, ops))| + Overflow(q)
    decreases |ops|
  {
    if ops == [] {
      ExpandPending<T>(n);
      q := 0;
    } else {
      match ops[0] {
        case Noop(k) =>
          var rest := CompactLosesMultiples(Wrap(n + k), ops[1..]);
          var now := WrapLoses(n + k);
          CompactNoop(n, ops);
          ExpandNoop(ops);
          q := now + rest;
        case Instr(_) =>
          q := CompactLosesMultiples(0, ops[1..]);
          LengthInstr(n, ops);
      }
    }
  }

  lemma LastOf<T>(ops: seq<Op<T>>, op: Op<T>)
    ensures |Expand(ops + [op])| == |Expand(ops)| + |StepsOf(op)|
    ensures |Instrs(ops + [op])| == |Instrs(ops)| + |InstrOf(op)|
  {
    ExpandConcat(ops, [op]);
    InstrsConcat(ops, [op]);
    assert Expand([op]) == StepsOf(op) + Expand<T>([]) && Instrs([op]) == InstrOf(op) + Instrs<T>([]);
  }

  /** The constant once per no-op, the coefficient once per idle step. */
  ghost predicate IsGas(costs: NoopCosts, gas: int, noops: int, idles: int) {
    gas == costs.constant * noops + costs.coeff * idles
  }

  lemma GasAdds(costs: NoopCosts, gas: int, noops: int, idles: int, n: nat)
    requires IsGas(costs, gas, noops, idles)
    ensures IsGas(costs, gas + (costs.constant + costs.coeff * n), noops + 1, idles + n)
  {
    assert costs.constant * (noops + 1) == costs.constant * noops + costs.constant;
    assert costs.coeff * (idles + n) == costs.coeff * idles + costs.coeff * n;
  }

  lemma GasOfLast<T>(costs: NoopCosts, ops: seq<Op<T>>, op: Op<T>)
    ensures ExactGas(costs, ops + [op])
            == ExactGas(costs, ops) + if op.Noop? then costs.constant + costs.coeff * op.n else 0
  {
    assert (ops + [op])[..|ops|] == ops;
  }

  lemma {:induction false} GasMeaning<T>(costs: NoopCosts, ops: seq<Op<T>>)
    ensures IsGas(costs, ExactGas(costs, ops), |ops| - |Instrs(ops)|, |Expand(ops)| - |Instrs(ops)|)
    decreases |ops|
  {
    if ops != [] {
      var rest, op := ops[..|ops| - 1], ops[|ops| - 1];
      assert ops == rest + [op];
      GasMeaning(costs, rest);
      LastOf(rest, op);
      GasOfLast(costs, rest, op);
      if op.Noop? {
        GasAdds(costs, ExactGas(costs, rest), |rest| - |Instrs(rest)|, |Expand(rest)| - |Instrs(rest)|, op.n);
      }
    }
  }

  // ----- Canonical form -----

  /** No empty no-op and no two no-ops in a row. */
  ghost predicate Canonical<T>(ops: seq<Op<T>>) {
    ops != [] ==> (ops[0].Noop? ==> ops[0].n > 0 && (|ops| > 1 ==> ops[1].Instr?)) && Canonical(ops[1..])
  }

  lemma CanonicalInstr<T>(n: U32, op: Op<T>, rest: seq<Op<T>>)
    requires op.Instr? && Canonical(rest)
    ensures Canonical(Pending(n) + [op] + rest)
  {
    var tail := [op] + rest;
    assert tail[1..] == rest;
    if n != 0 {
      assert Pending(n) + [op] + rest == [Noop(n)] + tail;
      assert ([Noop(n)] + tail)[1..] == tail;
    } else {
      assert Pending(n) + [op] + rest == tail;
    }
  }

  /** Compaction is canonical and never longer than its input. */
  lemma {:induction false} CompactCanonical<T>(n: U32, ops: seq<Op<T>>)
    ensures Canonical(CompactFrom(n, ops))
    ensures |CompactFrom(n, ops)| <= |ops| + (if n != 0 then 1 else 0)
    decreases |ops|
  {
    if ops != [] {
      match ops[0] {
        case Noop(k) =>
          CompactCanonical(Wrap(n + k), ops[1..]);
        case Instr(_) =>
          CompactCanonical(0, ops[1..]);
          CanonicalInstr(n, ops[0], CompactFrom(0, ops[1..]));
      }
    } else if n != 0 {
      assert Pending<T>(n)[1..] == [];
    }
  }

  /** A canonical program is its own compaction. */
  lemma {:induction false} CanonicalFixed<T>(ops: seq<Op<T>>)
    requires Canonical(ops)
    ensures Compact(ops) == ops
    decreases |ops|
  {
    if ops != [] {
      CanonicalFixed(ops[1..]);
      assert ops == [ops[0]] + ops[1..];
      if ops[0].Noop? {
        var n := ops[0].n;
        assert CompactFrom(n, ops[1..]) == [ops[0]] + ops[1..] by {
          if |ops| > 1 { assert CompactFrom(0, ops[1..]) == [] + [ops[1]] + CompactFrom(0, ops[1..][1..]); }
        }
      }
    }
  }

  /** Compaction is idempotent. */
  lemma CompactIdempotent<T>(ops: seq<Op<T>>)
    ensures Compact(Compact(ops)) == Compact(ops)
  {
    CompactCanonical(0, ops);
    CanonicalFixed(Compact(ops));
  }

  // ----- Uniqueness -----

  lemma {:induction false} IdlesAreIdle<T>(n: nat, i: nat)
    requires i < n
    ensures Idles<T>(n)[i] == Idle
  {
    if i > 0 { IdlesAreIdle<T>(n - 1, i - 1); }
  }

  /** What follows a leading no-op of a canonical program is an instruction or nothing. */
  lemma AfterNoop<T>(ops: seq<Op<T>>)
    requires Canonical(ops) && ops != [] && ops[0].Noop?
    ensures var e, n := Expand(ops), ops[0].n;
            && 0 < n <= |e| && (forall i :: 0 <= i < n ==> e[i] == Idle)
            && (|e| == n || e[n].Run?) && e[n..] == Expand(ops[1..])
  {
    var n := ops[0].n;
    forall i | 0 <= i < n ensures Expand(ops)[i] == Idle { IdlesAreIdle<T>(n, i); }
  }

  lemma SameLeadingNoop<T>(a: seq<Op<T>>, b: seq<Op<T>>)
    requires Canonical(a) && Canonical(b) && a != [] && b != [] && a[0].Noop? && b[0].Noop? && Expand(a) == Expand(b)
    ensures a[0] == b[0] && Expand(a[1..]) == Expand(b[1..])
  {
    AfterNoop(a);
    AfterNoop(b);
  }

  /** Canonical programs with the same expansion are equal. */
  lemma {:induction false} CanonicalUnique<T>(a: seq<Op<T>>, b: seq<Op<T>>)
    requires Canonical(a) && Canonical(b) && Expand(a) == Expand(b)
    ensures a == b
    decreases |a|
  {
    if a != [] && a[0].Noop? { AfterNoop(a); }
    if b != [] && b[0].Noop? { AfterNoop(b); }
    if a != [] && b != [] {
      if a[0].Noop? {
        SameLeadingNoop(a, b);
      } else {
        assert Expand(a)[1..] == Expand(a[1..]) && Expand(b)[1..] == Expand(b[1..]);
      }
      CanonicalUnique(a[1..], b[1..]);
      assert a == [a[0]] + a[1..] && b == [b[0]] + b[1..];
    }
  }

  /** Programs whose chains fit compact to the same program exactly when they mean the same. */
  lemma CompactDecidesMeaning<T>(a: seq<Op<T>>, b: seq<Op<T>>)
    requires ChainsFit(0, a) && ChainsFit(0, b)
    ensures Compact(a) == Compact(b) <==> Expand(a) == Expand(b)
  {
    CompactPreservesIff(a);
    CompactPreservesIff(b);
    CompactCanonical(0, a);
    CompactCanonical(0, b);
    if Expand(a) == Expand(b) { CanonicalUnique(Compact(a), Compact(b)); }
  }
}
