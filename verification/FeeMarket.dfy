/** Block prices: scaling by fullness, a floor relative to the dearest dimension, renormalisation to mean one. */
module FeeMarket {
  import opened Arithmetic
  import opened FixedPoint
  import opened PriceCurve

  datatype NormalizedCost = NormalizedCost(
    readTime: Fixed, computeTime: Fixed, blockUsage: Fixed, bytesWritten: Fixed, bytesChurned: Fixed)

  datatype FeePrices = FeePrices(
    overallPrice: Fixed, readFactor: Fixed, computeFactor: Fixed, blockUsageFactor: Fixed, writeFactor: Fixed)
  {
    function Factors(): Quad { Quad(readFactor, computeFactor, blockUsageFactor, writeFactor) }
  }

  /** One number per priced dimension: read, compute, block usage, write. */
  datatype Quad = Quad(r: Fixed, c: Fixed, b: Fixed, w: Fixed)
  {
    function Top(): Fixed { Max(Max(r, c), Max(b, w)) }

    function Sum(): int { r + c + b + w }

    function RaisedTo(floor: Fixed): Quad { Quad(Max(r, floor), Max(c, floor), Max(b, floor), Max(w, floor)) }

    function DividedBy(d: Fixed): Quad { Quad(Div(r, d), Div(c, d), Div(b, d), Div(w, d)) }

    function At(i: int): Fixed { if i == 0 then r else if i == 1 then c else if i == 2 then b else w }

    predicate AllAtLeast(x: int) { r >= x && c >= x && b >= x && w >= x }
  }

  /** How full a block was, per dimension and overall. */
  datatype Block = Block(detailed: NormalizedCost, overall: Fixed)

  const MIN_COST: int := 100

  predicate IsFraction(x: int) { 0 <= x <= ONE }

  /** What the ledger checks of every block before it updates prices. */
  predicate ValidBlock(b: Block) {
    && IsFraction(b.detailed.readTime)
    && IsFraction(b.detailed.computeTime)
    && IsFraction(b.detailed.blockUsage)
    && IsFraction(b.detailed.bytesWritten)
    && IsFraction(b.detailed.bytesChurned)
    && IsFraction(b.overall)
  }

  // ----- The update -----

  /** The factor per fullness, as the update closes over it. */
  type Scaling = Fixed -> Fixed

  /** The scaling given by the price curve with steepness parameter `a`. */
  function CurveScaling(a: Fixed): Scaling { (usage: Fixed) => Multiplier(usage, a) }

  function Multipliers(b: Block, scaling: Scaling): Quad {
    var d := b.detailed;
    Quad(scaling(d.readTime), scaling(d.computeTime), scaling(d.blockUsage),
         scaling(Max(d.bytesWritten, d.bytesChurned)))
  }

  function Scaled(f: Quad, m: Quad): Quad { Quad(Mul(f.r, m.r), Mul(f.c, m.c), Mul(f.b, m.b), Mul(f.w, m.w)) }

  function Floored(s: Quad, minRatio: Fixed): Quad { s.RaisedTo(Mul(s.Top(), minRatio)) }

  function Mean(t: Quad): Fixed { Div(Add(Add(Add(Add(0, t.r), t.c), t.b), t.w), FromU64Div(4, 1)) }

  function Renormalised(t: Quad): Quad { t.DividedBy(Mean(t)) }

  function NextFactors(f: Quad, m: Quad, minRatio: Fixed): Quad { Renormalised(Floored(Scaled(f, m), minRatio)) }

  function NextPrice(price: Fixed, multiplier: Fixed): Fixed { Max(Mul(price, multiplier), MIN_COST) }

  function Updated(p: FeePrices, b: Block, minRatio: Fixed, scaling: Scaling): FeePrices {
    var f := NextFactors(p.Factors(), Multipliers(b, scaling), minRatio);
    FeePrices(NextPrice(p.overallPrice, scaling(b.overall)), f.r, f.c, f.b, f.w)
  }

  /** The four mutable dimensions hold a quadruple. */
  ghost predicate Holds(dims: array<Fixed>, q: Quad)
    reads dims
  {
    dims.Length == 4 && dims[0] == q.r && dims[1] == q.c && dims[2] == q.b && dims[3] == q.w
  }

  method MostExpensive(dims: array<Fixed>, ghost q: Quad) returns (top: Fixed)
    requires Holds(dims, q)
    ensures top == q.Top()
  {
    top := dims[0];
    for i := 1 to 4
      invariant forall k :: 0 <= k < i ==> dims[k] <= top
      invariant exists k :: 0 <= k < i && dims[k] == top
    {
      if dims[i] >= top { top := dims[i]; }
    }
  }

  method RaiseToFloor(dims: array<Fixed>, floor: Fixed, ghost q: Quad)
    requires Holds(dims, q)
    modifies dims
    ensures Holds(dims, q.RaisedTo(floor))
  {
    for i := 0 to 4
      invariant forall k :: 0 <= k < 4 ==> dims[k] == if k < i then q.RaisedTo(floor).At(k) else q.At(k)
    {
      dims[i] := Max(dims[i], floor);
    }
  }

  method DivideBy(dims: array<Fixed>, d: Fixed, ghost q: Quad)
    requires Holds(dims, q)
    modifies dims
    ensures Holds(dims, q.DividedBy(d))
  {
    for i := 0 to 4
      invariant forall k :: 0 <= k < 4 ==> dims[k] == if k < i then q.DividedBy(d).At(k) else q.At(k)
    {
      dims[i] := Div(dims[i], d);
    }
  }

  /** The dimensions are scaled, then rewritten in place: first to the floor, then to mean one. */
  method AdjustFactors(f: Quad, m: Quad, minRatio: Fixed) returns (g: Quad)
    ensures g == NextFactors(f, m, minRatio)
  {
    var dims := new Fixed[4];
    dims[0], dims[1], dims[2], dims[3] := Mul(f.r, m.r), Mul(f.c, m.c), Mul(f.b, m.b), Mul(f.w, m.w);
    ghost var scaled := Scaled(f, m);
    var top := MostExpensive(dims, scaled);
    RaiseToFloor(dims, Mul(top, minRatio), scaled);
    ghost var floored := Floored(scaled, minRatio);
    var mean := Div(Add(Add(Add(Add(0, dims[0]), dims[1]), dims[2]), dims[3]), FromU64Div(4, 1));
    DivideBy(dims, mean, floored);
    g := Quad(dims[0], dims[1], dims[2], dims[3]);
  }

  /** `update_from_fullness`. */
  method UpdateFromFullness(p: FeePrices, b: Block, minRatio: Fixed, a: Fixed) returns (updated: FeePrices)
    ensures updated == Updated(p, b, minRatio, CurveScaling(a))
  {
    var scaling := CurveScaling(a);
    var price := Mul(p.overallPrice, scaling(b.overall));
    var g := AdjustFactors(p.Factors(), Multipliers(b, scaling), minRatio);
    price := Max(price, MIN_COST);
    updated := FeePrices(price, g.r, g.c, g.b, g.w);
  }
}
