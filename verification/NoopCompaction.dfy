/** Merging adjacent no-ops of a transcript program in place, and what the result means. */
module NoopCompaction {
  import opened Arithmetic
  import opened FixedPoint
  import opened Fees
  import opened RunningCosts

  const U32_BOUND: int := 0x1_0000_0000

  type U32 = x: int | 0 <= x < U32_BOUND

  function Wrap(x: nat): U32 { x % U32_BOUND }

  /** A program step: a no-op standing for `n` empty steps, or an instruction. */
  datatype Op<T> = Noop(n: U32) | Instr(instr: T)

  // ----- Compaction -----

  /** A pending chain of no-ops, written out. */
  function Pending<T>(n: U32): seq<Op<T>> { if n != 0 then [Noop(n)] else [] }

  /** The compacted rest of a program behind a pending chain of `n` no-ops. */
  function CompactFrom<T>(n: U32, ops: seq<Op<T>>): seq<Op<T>>
    decreases |ops|
  {
    if ops == [] then Pending(n)
    else match ops[0]
      case Noop(k) => CompactFrom(Wrap(n + k), ops[1..])
      case Instr(_) => Pending(n) + [ops[0]] + CompactFrom(0, ops[1..])
  }

  function Compact<T>(ops: seq<Op<T>>): seq<Op<T>> { CompactFrom(0, ops) }

  /** What a no-op costs: a constant and a coefficient per step. */
  datatype NoopCosts = NoopCosts(constant: U64, coeff: U64)

  function SatMul(a: U64, b: U64): U64 {
    MulMono(0, 0, a, b);
    Min(a * b, U64_MAX)
  }

  function NoopGas(costs: NoopCosts, n: U32): U64 { SatAdd(costs.constant, SatMul(costs.coeff, n)) }

  /** The exact cost of the no-ops of a program. */
  function ExactGas<T>(costs: NoopCosts, ops: seq<Op<T>>): nat {
    if ops == [] then 0
    else
      MulMono(0, 0, costs.coeff, if ops[|ops| - 1].Noop? then ops[|ops| - 1].n else 0);
      var op := ops[|ops| - 1];
      ExactGas(costs, ops[..|ops| - 1]) + if op.Noop? then costs.constant + costs.coeff * op.n else 0
  }

  lemma GasAppend<T>(costs: NoopCosts, ops: seq<Op<T>>, op: Op<T>, gas: U64)
    requires gas == Capped(ExactGas(costs, ops))
    ensures Capped(ExactGas(costs, ops + [op])) == if op.Noop? then SatAdd(gas, NoopGas(costs, op.n)) else gas
  {
    assert (ops + [op])[..|ops|] == ops;
    if op.Noop? { MulMono(0, 0, costs.coeff, op.n); }
  }

  /** Writes a pending chain at the write head and charges for it. */
  method Flush<T>(prog: array<Op<T>>, i: nat, n: U32, costs: NoopCosts, gas: U64) returns (i': nat, gas': U64)
    requires i + (if n != 0 then 1 else 0) <= prog.Length && gas == Capped(ExactGas(costs, prog[..i]))
    modifies prog
    ensures i' == i + (if n != 0 then 1 else 0) <= prog.Length
    ensures prog[..i'] == old(prog[..i]) + Pending(n) && prog[i'..] == old(prog[i'..])
    ensures gas' == Capped(ExactGas(costs, prog[..i']))
  {
    i', gas' := i, gas;
    if n != 0 {
      GasAppend(costs, prog[..i], Noop(n), gas);
      prog[i] := Noop(n);
      assert prog[..i + 1] == old(prog[..i]) + [Noop(n)];
      gas' := SatAdd(gas, NoopGas(costs, n));
      i' := i + 1;
    }
  }

  /** Writes a pending chain and then an instruction. */
  method Emit<T>(prog: array<Op<T>>, i: nat, n: U32, op: Op<T>, costs: NoopCosts, gas: U64) returns (i': nat, gas': U64)
    requires i + (if n != 0 then 1 else 0) < prog.Length && gas == Capped(ExactGas(costs, prog[..i])) && op.Instr?
    modifies prog
    ensures i' == i + (if n != 0 then 1 else 0) + 1
    ensures prog[..i'] == old(prog[..i]) + Pending(n) + [op] && prog[i'..] == old(prog[i'..])
    ensures gas' == Capped(ExactGas(costs, prog[..i']))
  {
    var k: nat;
    k, gas' := Flush(prog, i, n, costs, gas);
    GasAppend(costs, prog[..k], op, gas');
    ghost var flushed, rest := prog[..k], prog[k..];
    prog[k] := op;
    i' := k + 1;
    assert prog[..i'] == flushed + [op];
    assert prog[i'..] == rest[1..];
  }

  /** What has been written and what is still to be compacted make up the compacted program. */
  ghost predicate Progress<T>(written: seq<Op<T>>, n: U32, unread: seq<Op<T>>, input: seq<Op<T>>) {
    written + CompactFrom(n, unread) == Compact(input)
  }

  lemma ProgressNoop<T>(written: seq<Op<T>>, n: U32, k: U32, unread: seq<Op<T>>, input: seq<Op<T>>)
    requires Progress(written, n, [Noop(k)] + unread, input)
    ensures Progress(written, Wrap(n + k), unread, input)
  {
    assert ([Noop(k)] + unread)[1..] == unread;
  }

  lemma ProgressInstr<T>(written: seq<Op<T>>, n: U32, op: Op<T>, unread: seq<Op<T>>, input: seq<Op<T>>)
    requires Progress(written, n, [op] + unread, input) && op.Instr?
    ensures Progress(written + Pending(n) + [op], 0, unread, input)
  {
    assert ([op] + unread)[1..] == unread;
    assert written + (Pending(n) + [op] + CompactFrom(0, unread))
           == (written + Pending(n) + [op]) + CompactFrom(0, unread);
  }

  lemma ProgressStarts<T>(input: seq<Op<T>>)
    ensures Progress([], 0, input[0..], input)
  {
    assert input[0..] == input && [] + Compact(input) == Compact(input);
  }

  lemma ProgressEnds<T>(written: seq<Op<T>>, n: U32, input: seq<Op<T>>)
    requires Progress(written, n, input[|input|..], input)
    ensures written + Pending(n) == Compact(input)
  {
    assert input[|input|..] == [];
  }

  /** Where the loop stands: `i` is the write head, `j` the read head, `n` the pending chain. The write head has not
      passed an unread step. */
  ghost predicate Underway<T>(prog: array<Op<T>>, i: nat, j: nat, n: U32, costs: NoopCosts, gas: U64, input: seq<Op<T>>)
    reads prog
  {
    && prog.Length == |input| && i + (if n != 0 then 1 else 0) <= j <= |input|
    && prog[j..] == input[j..]
    && Progress(prog[..i], n, input[j..], input)
    && gas == Capped(ExactGas(costs, prog[..i]))
  }

  lemma ReadHead<T>(s: seq<Op<T>>, j: nat)
    requires j < |s|
    ensures s[j..] == [s[j]] + s[j + 1..]
  {}

  /** One turn of the loop. */
  method Advance<T>(prog: array<Op<T>>, i: nat, j: nat, n: U32, costs: NoopCosts, gas: U64, ghost input: seq<Op<T>>)
    returns (i': nat, n': U32, gas': U64)
    requires Underway(prog, i, j, n, costs, gas, input) && j < prog.Length
    modifies prog
    ensures Underway(prog, i', j + 1, n', costs, gas', input)
  {
    var op := prog[j];
    assert op == prog[j..][0] == input[j];
    ReadHead(input, j);
    match op {
      case Noop(k) =>
        ProgressNoop(prog[..i], n, k, input[j + 1..], input);
        i', n', gas' := i, Wrap(n + k), gas;
        assert prog[j + 1..] == prog[j..][1..];
      case Instr(_) =>
        ProgressInstr(prog[..i], n, op, input[j + 1..], input);
        ghost var unread := prog[j + 1..];
        assert unread == prog[j..][1..];
        i', gas' := Emit(prog, i, n, op, costs, gas);
        n' := 0;
        assert prog[j + 1..] == prog[i'..][j + 1 - i'..];
    }
  }

  /** Compaction in place, then writing out the last chain. */
  method CompactInPlace<T>(prog: array<Op<T>>, costs: NoopCosts) returns (len: nat, gas: U64)
    modifies prog
    ensures len <= prog.Length
    ensures prog[..len] == Compact(old(prog[..]))
    ensures gas == Capped(ExactGas(costs, Compact(old(prog[..]))))
  {
    ghost var input := prog[..];
    var i: nat, n: U32 := 0, 0;
    gas := 0;
    ProgressStarts(input);
    assert prog[..0] == [];
    for j := 0 to prog.Length
      invariant Underway(prog, i, j, n, costs, gas, input)
    {
      i, n, gas := Advance(prog, i, j, n, costs, gas, input);
    }
    ProgressEnds(prog[..i], n, input);
    i, gas := Flush(prog, i, n, costs, gas);
    len := i;
  }
}
