/** Costs accumulated while a transaction runs, in saturating 64-bit counters. */
module RunningCosts {
  import opened Arithmetic
  import opened FixedPoint
  import opened Fees
  import opened Sequences

  datatype RunningCost = RunningCost(readTime: U64, computeTime: U64, bytesWritten: U64, bytesDeleted: U64)

  const ZERO: RunningCost := RunningCost(0, 0, 0, 0)

  function AddRunning(x: RunningCost, y: RunningCost): RunningCost {
    RunningCost(SatAdd(x.readTime, y.readTime), SatAdd(x.computeTime, y.computeTime),
                SatAdd(x.bytesWritten, y.bytesWritten), SatAdd(x.bytesDeleted, y.bytesDeleted))
  }

  function SatSub(a: U64, b: U64): U64 { Max(a - b, 0) }

  /** Absolute bytes written become net bytes written and churn. */
  function ToSynthetic(x: RunningCost): SyntheticCost {
    var net := SatSub(x.bytesWritten, x.bytesDeleted);
    SyntheticCost(x.readTime, x.computeTime, 0, net, x.bytesWritten - net)
  }

  /** The times carry over, and the net bytes are the least number that makes up, with the deleted ones, for all bytes
      written; the rest is churn. */
  lemma SyntheticMeaning(x: RunningCost, n: nat)
    ensures var s := ToSynthetic(x);
            && s.readTime == x.readTime && s.computeTime == x.computeTime && s.blockUsage == 0
            && (s.bytesWritten <= n <==> x.bytesWritten <= n + x.bytesDeleted)
            && s.bytesWritten + s.bytesChurned == x.bytesWritten
  {}

  type Counter = RunningCost -> nat

  /** The exact total of one counter over a sequence of costs. */
  function Total(counter: Counter, costs: seq<RunningCost>): nat {
    if costs == [] then 0 else counter(costs[0]) + Total(counter, costs[1..])
  }

  const READ: Counter := (c: RunningCost) => c.readTime
  const COMPUTE: Counter := (c: RunningCost) => c.computeTime
  const WRITTEN: Counter := (c: RunningCost) => c.bytesWritten
  const DELETED: Counter := (c: RunningCost) => c.bytesDeleted
  const NET: Counter := (c: RunningCost) => SatSub(c.bytesWritten, c.bytesDeleted)

  function Capped(n: nat): U64 { Min(n, U64_MAX) }

  /** The counters after capping each exact total once. */
  function CappedTotals(costs: seq<RunningCost>): RunningCost {
    RunningCost(Capped(Total(READ, costs)), Capped(Total(COMPUTE, costs)),
                Capped(Total(WRITTEN, costs)), Capped(Total(DELETED, costs)))
  }

  lemma {:induction false} TotalConcat(counter: Counter, a: seq<RunningCost>, b: seq<RunningCost>)
    ensures Total(counter, a + b) == Total(counter, a) + Total(counter, b)
  {
    if a == [] {
      assert a + b == b;
    } else {
      assert (a + b)[1..] == a[1..] + b;
      TotalConcat(counter, a[1..], b);
    }
  }

  lemma TotalAppend(counter: Counter, costs: seq<RunningCost>, c: RunningCost)
    ensures Total(counter, costs + [c]) == Total(counter, costs) + counter(c)
  {
    TotalConcat(counter, costs, [c]);
    assert Total(counter, [c]) == counter(c) + Total(counter, []);
  }

  lemma CappedAppend(costs: seq<RunningCost>, c: RunningCost)
    ensures CappedTotals(costs + [c]) == AddRunning(CappedTotals(costs), c)
  {
    TotalAppend(READ, costs, c);
    TotalAppend(COMPUTE, costs, c);
    TotalAppend(WRITTEN, costs, c);
    TotalAppend(DELETED, costs, c);
  }

  /** Summation accumulates with saturation, yet the result is the exact total of each counter, capped once. */
  method Sum(costs: seq<RunningCost>) returns (res: RunningCost)
    ensures res == CappedTotals(costs)
  {
    res := ZERO;
    for i := 0 to |costs|
      invariant res == CappedTotals(costs[..i])
    {
      assert costs[..i + 1] == costs[..i] + [costs[i]];
      CappedAppend(costs[..i], costs[i]);
      res := AddRunning(res, costs[i]);
    }
    assert costs[..|costs|] == costs;
  }

  lemma TotalAround(counter: Counter, before: seq<RunningCost>, c: RunningCost, after: seq<RunningCost>)
    ensures Total(counter, (before + [c]) + after) == Total(counter, before + after) + counter(c)
  {
    TotalConcat(counter, before + [c], after);
    TotalAppend(counter, before, c);
    TotalConcat(counter, before, after);
  }

  lemma TotalWithout(counter: Counter, b: seq<RunningCost>, i: nat)
    requires i < |b|
    ensures Total(counter, b) == Total(counter, Without(b, i)) + counter(b[i])
  {
    SplitAt(b, i);
    TotalAround(counter, b[..i], b[i], b[i + 1..]);
  }

  /** No total, and so no sum, depends on the order of the costs. */
  lemma {:induction false} TotalOrderFree(counter: Counter, a: seq<RunningCost>, b: seq<RunningCost>)
    requires multiset(a) == multiset(b)
    ensures Total(counter, a) == Total(counter, b)
    decreases |a|
  {
    if a == [] {
      assert |multiset(b)| == 0;
    } else {
      assert a[0] in multiset(b);
      var i :| 0 <= i < |b| && b[i] == a[0];
      MultisetWithout(a, 0);
      MultisetWithout(b, i);
      TotalOrderFree(counter, Without(a, 0), Without(b, i));
      TotalWithout(counter, a, 0);
      TotalWithout(counter, b, i);
    }
  }

  lemma {:induction false} NetOfTotals(costs: seq<RunningCost>)
    ensures Total(WRITTEN, costs) - Total(DELETED, costs) <= Total(NET, costs) <= Total(WRITTEN, costs)
  {
    if costs != [] { NetOfTotals(costs[1..]); }
  }

  /** Net bytes and churn always add up to the bytes written; the net of a saturated sum never exceeds the
      capped total of the separate nets. */
  lemma NetOfSum(costs: seq<RunningCost>)
    ensures var sum := CappedTotals(costs);
            && ToSynthetic(sum).bytesWritten + ToSynthetic(sum).bytesChurned == sum.bytesWritten
            && ToSynthetic(sum).bytesWritten <= Capped(Total(NET, costs))
  {
    NetOfTotals(costs);
  }
}
