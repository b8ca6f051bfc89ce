/** Rewriting the transcripts of a contract call while it is proven: weaving in no-ops, compacting them,
    charging gas. */
module TranscriptProving {
  import opened FixedPoint
  import opened Fees
  import opened Options
  import opened RunningCosts
  import opened NoopCompaction
  import opened NoopMeaning
  import opened Sequences

  /** The skip list of a proof: an active step, or a number of skipped ones. */
  type Skips = seq<Option<nat>>

  datatype Woven<T> = Woven(prog: seq<Op<T>>, rest: Skips)

  /** A result with more steps in front. */
  function Prepend<T>(prog: seq<Op<T>>, w: Option<Woven<T>>): Option<Woven<T>> {
    match w
    case None => None
    case Some(v) => Some(Woven(prog + v.prog, v.rest))
  }

  /** Weaving one transcript: skips become no-ops, active entries consume the next step. Running out of the skip
      list panics. */
  function Weave<T>(ops: seq<Op<T>>, skips: Skips): Option<Woven<T>>
    decreases |skips|
  {
    if skips != [] && skips[0].Some? then Prepend([Noop(Wrap(skips[0].value))], Weave(ops, skips[1..]))
    else if ops == [] then Some(Woven([], skips))
    else if skips == [] then None
    else Prepend([ops[0]], Weave(ops[1..], skips[1..]))
  }

  lemma PrependConcat<T>(a: seq<Op<T>>, b: seq<Op<T>>, w: Option<Woven<T>>)
    ensures Prepend(a + b, w) == Prepend(a, Prepend(b, w))
  {
    if w.Some? { assert (a + b) + w.value.prog == a + (b + w.value.prog); }
  }

  lemma PrependNothing<T>(w: Option<Woven<T>>)
    ensures Prepend([], w) == w
  {
    if w.Some? { assert [] + w.value.prog == w.value.prog; }
  }

  /** Takes leading skips off the shared list as no-ops. */
  method TakeSkips<T>(prog: seq<Op<T>>, skips: Skips, ghost ops: seq<Op<T>>) returns (prog': seq<Op<T>>, skips': Skips)
    ensures Prepend(prog', Weave(ops, skips')) == Prepend(prog, Weave(ops, skips))
    ensures skips' == [] || skips'[0].None?
  {
    prog', skips' := prog, skips;
    while skips' != [] && skips'[0].Some?
      invariant Prepend(prog', Weave(ops, skips')) == Prepend(prog, Weave(ops, skips))
      decreases |skips'|
    {
      var noop: Op<T> := Noop(Wrap(skips'[0].value));
      PrependConcat(prog', [noop], Weave(ops, skips'[1..]));
      prog', skips' := prog' + [noop], skips'[1..];
    }
  }

  /** The first pass over one transcript. */
  method WeaveTranscript<T>(ops: seq<Op<T>>, skips: Skips) returns (r: Option<Woven<T>>)
    ensures r == Weave(ops, skips)
  {
    var prog: seq<Op<T>>, rest := [], skips;
    assert ops[0..] == ops;
    PrependNothing(Weave(ops, skips));
    for i := 0 to |ops|
      invariant Prepend(prog, Weave(ops[i..], rest)) == Weave(ops, skips)
    {
      prog, rest := TakeSkips(prog, rest, ops[i..]);
      if rest == [] { return None; }
      assert ops[i..][1..] == ops[i + 1..];
      PrependConcat(prog, [ops[i]], Weave(ops[i + 1..], rest[1..]));
      prog, rest := prog + [ops[i]], rest[1..];
    }
    prog, rest := TakeSkips(prog, rest, ops[|ops|..]);
    assert prog + [] == prog;
    r := Some(Woven(prog, rest));
  }

  // ----- When weaving succeeds, and what it means -----

  function Active(skips: Skips): nat {
    if skips == [] then 0 else (if skips[0].None? then 1 else 0) + Active(skips[1..])
  }

  /** The skip list with active entries replaced by the steps and skips by idle steps. */
  function Fill<T>(skips: Skips, ops: seq<Op<T>>): seq<Step<T>>
    requires Active(skips) == |ops|
  {
    if skips == [] then []
    else match skips[0]
      case Some(k) => Idles(Wrap(k)) + Fill(skips[1..], ops)
      case None => StepsOf(ops[0]) + Fill(skips[1..], ops[1..])
  }

  /** What the skip list asks for: the steps in the active places, and every skipped step as an idle one. */
  function Spell<T>(skips: Skips, ops: seq<Op<T>>): seq<Step<T>>
    requires Active(skips) == |ops|
  {
    if skips == [] then []
    else match skips[0]
      case Some(k) => Idles(k) + Spell(skips[1..], ops)
      case None => StepsOf(ops[0]) + Spell(skips[1..], ops[1..])
  }

  /** Every single skip fits the counter of a no-op. */
  predicate SkipsFit(skips: Skips) { forall i :: 0 <= i < |skips| && skips[i].Some? ==> skips[i].value < U32_BOUND }

  lemma SkipsFitTail(skips: Skips)
    requires skips != []
    ensures SkipsFit(skips) <==> SkipsFit(skips[1..]) && (skips[0].Some? ==> skips[0].value < U32_BOUND)
  {
    if SkipsFit(skips[1..]) && (skips[0].Some? ==> skips[0].value < U32_BOUND) {
      forall i | 0 <= i < |skips| && skips[i].Some? ensures skips[i].value < U32_BOUND {
        if i > 0 { assert skips[i] == skips[1..][i - 1]; }
      }
    }
  }

  /** Truncating skips only loses idle steps, and loses none exactly when they all fit. */
  lemma {:induction false} FillSpells<T>(skips: Skips, ops: seq<Op<T>>)
    requires Active(skips) == |ops|
    ensures |Fill(skips, ops)| <= |Spell(skips, ops)|
    ensures |Fill(skips, ops)| == |Spell(skips, ops)| ==> SkipsFit(skips)
    ensures SkipsFit(skips) ==> Fill(skips, ops) == Spell(skips, ops)
    decreases |skips|
  {
    if skips != [] {
      SkipsFitTail(skips);
      if skips[0].Some? {
        FillSpells(skips[1..], ops);
      } else {
        FillSpells(skips[1..], ops[1..]);
      }
    }
  }

  /** The instructions of a transcript stay in it, in order. */
  ghost predicate KeepsOps<T>(w: Woven<T>, ops: seq<Op<T>>) { Instrs(w.prog) == Instrs(ops) }

  /** What one transcript consumes is a prefix with one active entry per step, and the rest starts with an
      active entry. */
  ghost predicate Consumes<T>(w: Woven<T>, ops: seq<Op<T>>, skips: Skips) {
    && |w.rest| <= |skips|
    && skips[|skips| - |w.rest|..] == w.rest
    && Active(skips[..|skips| - |w.rest|]) == |ops|
    && (w.rest == [] || w.rest[0].None?)
    && Expand(w.prog) == Fill(skips[..|skips| - |w.rest|], ops)
  }

  lemma ConsumesSkip<T>(w: Woven<T>, ops: seq<Op<T>>, skips: Skips, k: nat)
    requires Consumes(w, ops, skips) && KeepsOps(w, ops)
    ensures var v: Woven<T> := Woven([Noop(Wrap(k))] + w.prog, w.rest);
            Consumes(v, ops, [Some(k)] + skips) && KeepsOps(v, ops)
  {
    var all, n := [Some(k)] + skips, |skips| - |w.rest|;
    var prog: seq<Op<T>> := [Noop(Wrap(k))] + w.prog;
    assert prog[1..] == w.prog;
    assert all[..n + 1] == [Some(k)] + skips[..n];
    assert all[..n + 1][1..] == skips[..n];
    assert all[n + 1..] == skips[n..];
  }

  lemma ConsumesOp<T>(w: Woven<T>, op: Op<T>, ops: seq<Op<T>>, skips: Skips)
    requires Consumes(w, ops, skips) && KeepsOps(w, ops)
    ensures var v: Woven<T> := Woven([op] + w.prog, w.rest);
            Consumes(v, [op] + ops, [None] + skips) && KeepsOps(v, [op] + ops)
  {
    var all, n := [None] + skips, |skips| - |w.rest|;
    assert ([op] + w.prog)[1..] == w.prog && ([op] + ops)[1..] == ops;
    assert all[..n + 1] == [None] + skips[..n];
    assert all[..n + 1][1..] == skips[..n];
    assert all[n + 1..] == skips[n..];
  }

  lemma ConsumesNothing<T>(skips: Skips)
    requires skips == [] || skips[0].None?
    ensures Consumes<T>(Woven([], skips), [], skips) && KeepsOps<T>(Woven([], skips), [])
  {
    assert skips[0..] == skips && skips[..0] == [];
  }

  /** Weaving succeeds exactly when there is an active entry for every step. */
  lemma {:induction false} WeaveSucceedsIff<T>(ops: seq<Op<T>>, skips: Skips)
    ensures Weave(ops, skips).Some? <==> Active(skips) >= |ops|
    decreases |skips|
  {
    if skips != [] {
      if skips[0].Some? {
        WeaveSucceedsIff(ops, skips[1..]);
      } else if ops != [] {
        WeaveSucceedsIff(ops[1..], skips[1..]);
      }
    }
  }

  /** A woven transcript keeps its steps in order and spells out the part of the skip list it consumed. */
  lemma {:induction false} WeaveMeaning<T>(ops: seq<Op<T>>, skips: Skips)
    requires Weave(ops, skips).Some?
    ensures Consumes(Weave(ops, skips).value, ops, skips) && KeepsOps(Weave(ops, skips).value, ops)
    decreases |skips|
  {
    if skips != [] && skips[0].Some? {
      var tail := skips[1..];
      WeaveMeaning(ops, tail);
      ConsumesSkip(Weave(ops, tail).value, ops, tail, skips[0].value);
      assert [Some(skips[0].value)] + tail == skips;
    } else if ops != [] {
      var op, rest, tail := ops[0], ops[1..], skips[1..];
      WeaveMeaning(rest, tail);
      ConsumesOp(Weave(rest, tail).value, op, rest, tail);
      assert [None] + tail == skips && [op] + rest == ops;
    } else {
      ConsumesNothing<T>(skips);
    }
  }

  // ----- Both transcripts of a call -----

  datatype Transcript<T, E, V> = Transcript(gas: RunningCost, effects: E, program: seq<Op<T>>, version: V)

  function ProgramOf<T, E, V>(t: Option<Transcript<T, E, V>>): seq<Op<T>> { if t.Some? then t.value.program else [] }

  /** An absent transcript leaves the skip list alone. */
  function WeaveOptional<T, E, V>(t: Option<Transcript<T, E, V>>, skips: Skips): Option<Woven<T>> {
    if t.Some? then Weave(t.value.program, skips) else Some(Woven([], skips))
  }

  lemma {:induction false} ActiveConcat(a: Skips, b: Skips)
    ensures Active(a + b) == Active(a) + Active(b)
  {
    if a == [] {
      assert a + b == b;
    } else {
      assert (a + b)[1..] == a[1..] + b;
      ActiveConcat(a[1..], b);
    }
  }

  lemma FillSkip<T>(k: nat, skips: Skips, ops: seq<Op<T>>)
    requires Active(skips) == |ops|
    ensures Active([Some(k)] + skips) == |ops| && Fill([Some(k)] + skips, ops) == Idles(Wrap(k)) + Fill(skips, ops)
  {
    assert ([Some(k)] + skips)[1..] == skips;
  }

  lemma FillActive<T>(op: Op<T>, skips: Skips, ops: seq<Op<T>>)
    requires Active(skips) == |ops|
    ensures Active([None] + skips) == |[op] + ops|
    ensures Fill([None] + skips, [op] + ops) == StepsOf(op) + Fill(skips, ops)
  {
    assert ([None] + skips)[1..] == skips && ([op] + ops)[1..] == ops;
  }

  lemma {:induction false} FillConcat<T>(a: Skips, b: Skips, x: seq<Op<T>>, y: seq<Op<T>>)
    requires Active(a) == |x| && Active(b) == |y|
    ensures Active(a + b) == |x + y| && Fill(a + b, x + y) == Fill(a, x) + Fill(b, y)
    decreases |a|
  {
    if a == [] {
      assert a + b == b && x + y == y;
    } else {
      var rest := a[1..];
      assert [a[0]] + rest == a;
      Associative([a[0]], rest, b);
      if a[0].Some? {
        var k := a[0].value;
        FillConcat(rest, b, x, y);
        FillSkip(k, rest, x);
        FillSkip(k, rest + b, x + y);
        Associative(Idles<T>(Wrap(k)), Fill(rest, x), Fill(b, y));
      } else {
        var op, ops := x[0], x[1..];
        assert [op] + ops == x;
        Associative([op], ops, y);
        FillConcat(rest, b, ops, y);
        FillActive(op, rest, ops);
        FillActive(op, rest + b, ops + y);
        Associative(StepsOf(op), Fill(rest, ops), Fill(b, y));
      }
    }
  }

  /** What weaving a present or absent transcript takes from the list. */
  lemma WeaveOptionalMeaning<T, E, V>(t: Option<Transcript<T, E, V>>, skips: Skips) returns (w: Woven<T>, used: Skips)
    requires Active(skips) >= |ProgramOf(t)|
    ensures WeaveOptional(t, skips) == Some(w) && skips == used + w.rest
    ensures Active(used) == |ProgramOf(t)| && Active(w.rest) == Active(skips) - |ProgramOf(t)|
    ensures Expand(w.prog) == Fill(used, ProgramOf(t)) && Instrs(w.prog) == Instrs(ProgramOf(t))
    ensures if t.Some? then w.rest == [] || w.rest[0].None? else w.rest == skips
  {
    WeaveSucceedsIff(ProgramOf(t), skips);
    WeaveMeaning(ProgramOf(t), skips);
    w := WeaveOptional(t, skips).value;
    used := skips[..|skips| - |w.rest|];
    assert skips == used + w.rest;
    ActiveConcat(used, w.rest);
  }

  /** With an active entry for every step, the woven programs together spell out the part of the list that they
      use: all of it when there is exactly one entry per step and a transcript to take them. */
  lemma WeaveBothMeaning<T, E, V>(guaranteed: Option<Transcript<T, E, V>>, fallible: Option<Transcript<T, E, V>>,
                                  skips: Skips)
    returns (g: Woven<T>, f: Woven<T>, used: Skips)
    requires Active(skips) >= |ProgramOf(guaranteed)| + |ProgramOf(fallible)|
    ensures WeaveOptional(guaranteed, skips) == Some(g) && WeaveOptional(fallible, g.rest) == Some(f)
    ensures skips == used + f.rest && Active(used) == |ProgramOf(guaranteed) + ProgramOf(fallible)|
    ensures guaranteed.Some? || fallible.Some? ==> f.rest == [] || f.rest[0].None?
    ensures Expand(g.prog) + Expand(f.prog) == Fill(used, ProgramOf(guaranteed) + ProgramOf(fallible))
    ensures Instrs(g.prog) == Instrs(ProgramOf(guaranteed)) && Instrs(f.prog) == Instrs(ProgramOf(fallible))
  {
    var first, second;
    g, first := WeaveOptionalMeaning(guaranteed, skips);
    f, second := WeaveOptionalMeaning(fallible, g.rest);
    used := first + second;
    Associative(first, second, f.rest);
    FillConcat(first, second, ProgramOf(guaranteed), ProgramOf(fallible));
  }

  lemma CompactBothLength<T>(g: seq<Op<T>>, f: seq<Op<T>>)
    ensures |Expand(Compact(g)) + Expand(Compact(f))| <= |Expand(g) + Expand(f)|
    ensures |Expand(Compact(g)) + Expand(Compact(f))| == |Expand(g) + Expand(f)| ==> ChainsFit(0, g) && ChainsFit(0, f)
  {
    CompactFromLength(0, g);
    CompactFromLength(0, f);
  }

  /** No skip and no chain of no-ops in either woven program overflows the counter of a no-op. */
  ghost predicate NothingOverflows<T, E, V>(guaranteed: Option<Transcript<T, E, V>>,
                                            fallible: Option<Transcript<T, E, V>>, skips: Skips, used: Skips)
  {
    var g := WeaveOptional(guaranteed, skips);
    g.Some? && SkipsFit(used) && ChainsFit(0, g.value.prog)
    && var f := WeaveOptional(fallible, g.value.rest); f.Some? && ChainsFit(0, f.value.prog)
  }

  /** The compacted programs together spell out the used part of the skip list exactly when nothing overflows. */
  lemma RewrittenMeaning<T, E, V>(guaranteed: Option<Transcript<T, E, V>>, fallible: Option<Transcript<T, E, V>>,
                                  skips: Skips)
    returns (g: Woven<T>, f: Woven<T>, used: Skips)
    requires Active(skips) >= |ProgramOf(guaranteed)| + |ProgramOf(fallible)|
    ensures WeaveOptional(guaranteed, skips) == Some(g) && WeaveOptional(fallible, g.rest) == Some(f)
    ensures skips == used + f.rest && Active(used) == |ProgramOf(guaranteed) + ProgramOf(fallible)|
    ensures guaranteed.Some? || fallible.Some? ==> f.rest == [] || f.rest[0].None?
    ensures Expand(Compact(g.prog)) + Expand(Compact(f.prog))
            == Spell(used, ProgramOf(guaranteed) + ProgramOf(fallible))
            <==> NothingOverflows(guaranteed, fallible, skips, used)
    ensures Instrs(g.prog) == Instrs(ProgramOf(guaranteed)) && Instrs(f.prog) == Instrs(ProgramOf(fallible))
  {
    g, f, used := WeaveBothMeaning(guaranteed, fallible, skips);
    CompactBothLength(g.prog, f.prog);
    CompactPreservesIff(g.prog);
    CompactPreservesIff(f.prog);
    FillSpells(used, ProgramOf(guaranteed) + ProgramOf(fallible));
  }

  // ----- The result -----

  /** What rewriting may and must do to a transcript: the same instructions in canonical form, the no-ops of the new
      program charged as compute time, everything else untouched. */
  ghost predicate RewrittenFrom<T, E, V>(before: Transcript<T, E, V>, after: Transcript<T, E, V>, costs: NoopCosts) {
    && Canonical(after.program) && Instrs(after.program) == Instrs(before.program)
    && after.gas.computeTime == Capped(before.gas.computeTime + ExactGas(costs, after.program))
    && after.gas.readTime == before.gas.readTime
    && after.gas.bytesWritten == before.gas.bytesWritten && after.gas.bytesDeleted == before.gas.bytesDeleted
    && after.effects == before.effects && after.version == before.version
  }

  ghost predicate RewrittenOption<T, E, V>(before: Option<Transcript<T, E, V>>, after: Option<Transcript<T, E, V>>,
                                           costs: NoopCosts)
  {
    before.Some? == after.Some? && (before.Some? ==> RewrittenFrom(before.value, after.value, costs))
  }

  datatype Rewritten<T, E, V> = Rewritten(
    guaranteed: Option<Transcript<T, E, V>>, fallible: Option<Transcript<T, E, V>>)

  /** The programs are the woven ones, compacted, whether or not anything overflows. */
  ghost predicate CompactsWoven<T, E, V>(guaranteed: Option<Transcript<T, E, V>>,
                                         fallible: Option<Transcript<T, E, V>>, skips: Skips, r: Rewritten<T, E, V>)
  {
    var g := WeaveOptional(guaranteed, skips);
    g.Some? && ProgramOf(r.guaranteed) == Compact(g.value.prog)
    && var f := WeaveOptional(fallible, g.value.rest); f.Some? && ProgramOf(r.fallible) == Compact(f.value.prog)
  }

  /** The second pass over one program. */
  method CompactProgram<T>(prog: seq<Op<T>>, costs: NoopCosts) returns (r: seq<Op<T>>, gas: U64)
    ensures r == Compact(prog) && gas == Capped(ExactGas(costs, r))
    ensures Canonical(r) && Instrs(r) == Instrs(prog)
  {
    var buffer := new Op<T>[|prog|](i requires 0 <= i < |prog| => prog[i]);
    assert buffer[..] == prog;
    var len;
    len, gas := CompactInPlace(buffer, costs);
    r := buffer[..len];
    CompactCanonical(0, prog);
    CompactKeepsInstrs(0, prog);
  }

  /** The first pass over both transcripts; none when the skip list runs out, which panics. */
  method WeaveBoth<T, E, V>(guaranteed: Option<Transcript<T, E, V>>, fallible: Option<Transcript<T, E, V>>,
                            skips: Skips)
    returns (ok: bool, g: seq<Op<T>>, f: seq<Op<T>>)
    ensures ok <==> WeaveOptional(guaranteed, skips).Some?
                    && WeaveOptional(fallible, WeaveOptional(guaranteed, skips).value.rest).Some?
    ensures ok ==> var w := WeaveOptional(guaranteed, skips).value;
                   g == w.prog && f == WeaveOptional(fallible, w.rest).value.prog
  {
    var rest := skips;
    ok, g, f := false, [], [];
    if guaranteed.Some? {
      var w := WeaveTranscript(guaranteed.value.program, rest);
      if w.None? { return; }
      g, rest := w.value.prog, w.value.rest;
    }
    if fallible.Some? {
      var w := WeaveTranscript(fallible.value.program, rest);
      if w.None? { return; }
      f := w.value.prog;
    }
    ok := true;
  }

  /** A transcript with its compacted program, charged for it. */
  method Recharge<T, E, V>(t: Transcript<T, E, V>, program: seq<Op<T>>, gas: U64, ghost costs: NoopCosts)
    returns (after: Transcript<T, E, V>)
    requires Canonical(program) && Instrs(program) == Instrs(t.program) && gas == Capped(ExactGas(costs, program))
    ensures RewrittenFrom(t, after, costs) && after.program == program
  {
    after := Transcript(t.gas.(computeTime := SatAdd(gas, t.gas.computeTime)), t.effects, program, t.version);
  }

  /** The woven programs of both transcripts, or that weaving fails exactly when active entries are missing. */
  lemma WovenIff<T, E, V>(guaranteed: Option<Transcript<T, E, V>>, fallible: Option<Transcript<T, E, V>>, skips: Skips)
    ensures WeaveOptional(guaranteed, skips).Some?
            && WeaveOptional(fallible, WeaveOptional(guaranteed, skips).value.rest).Some?
            <==> Active(skips) >= |ProgramOf(guaranteed)| + |ProgramOf(fallible)|
  {
    WeaveSucceedsIff(ProgramOf(guaranteed), skips);
    if Active(skips) >= |ProgramOf(guaranteed)| {
      var g, _ := WeaveOptionalMeaning(guaranteed, skips);
      WeaveSucceedsIff(ProgramOf(fallible), g.rest);
    }
  }

  /** The transcript part of `ContractCall::prove`; none when the skip list runs out, which panics. `used` is the part
      of the list that the transcripts take. */
  method ProveTranscripts<T, E, V>(guaranteed: Option<Transcript<T, E, V>>, fallible: Option<Transcript<T, E, V>>,
                                   skips: Skips, costs: NoopCosts)
    returns (r: Option<Rewritten<T, E, V>>, ghost used: Skips)
    ensures r.Some? <==> Active(skips) >= |ProgramOf(guaranteed)| + |ProgramOf(fallible)|
    ensures r.Some? ==>
              && RewrittenOption(guaranteed, r.value.guaranteed, costs)
              && RewrittenOption(fallible, r.value.fallible, costs)
              && CompactsWoven(guaranteed, fallible, skips, r.value)
              && used <= skips && Active(used) == |ProgramOf(guaranteed) + ProgramOf(fallible)|
              && (guaranteed.Some? || fallible.Some? ==> used == skips || skips[|used|].None?)
              && (Expand(ProgramOf(r.value.guaranteed)) + Expand(ProgramOf(r.value.fallible))
                  == Spell(used, ProgramOf(guaranteed) + ProgramOf(fallible))
                  <==> NothingOverflows(guaranteed, fallible, skips, used))
  {
    used := [];
    var ok, gProg, fProg := WeaveBoth(guaranteed, fallible, skips);
    WovenIff(guaranteed, fallible, skips);
    if !ok { return None, []; }
    ghost var w, v, taken := RewrittenMeaning(guaranteed, fallible, skips);
    used := taken;
    var gCompact, gGas := CompactProgram(gProg, costs);
    var fCompact, fGas := CompactProgram(fProg, costs);
    var g, f := guaranteed, fallible;
    if g.Some? {
      var t := Recharge(guaranteed.value, gCompact, gGas, costs);
      g := Some(t);
    }
    if f.Some? {
      var t := Recharge(fallible.value, fCompact, fGas, costs);
      f := Some(t);
    }
    r := Some(Rewritten(g, f));
  }
}
