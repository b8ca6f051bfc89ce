/** Deterministic fixed-point numbers: an `i128` counting units of 2^-64. */
module FixedPoint {
  import opened Arithmetic

  const ONE: int := 0x1_0000_0000_0000_0000
  const I128_MAX: int := 0x7FFF_FFFF_FFFF_FFFF_FFFF_FFFF_FFFF_FFFF
  const I128_MIN: int := -0x8000_0000_0000_0000_0000_0000_0000_0000
  const U64_MAX: int := 0xFFFF_FFFF_FFFF_FFFF
  const U128_MAX: int := 0xFFFF_FFFF_FFFF_FFFF_FFFF_FFFF_FFFF_FFFF

  type Fixed = x: int | I128_MIN <= x <= I128_MAX
  type U64 = x: int | 0 <= x <= U64_MAX
  type U128 = x: int | 0 <= x <= U128_MAX

  /** The two's complement truncation done by a narrowing cast. */
  function AsI128(x: int): Fixed {
    (x + 0x8000_0000_0000_0000_0000_0000_0000_0000) % 0x1_0000_0000_0000_0000_0000_0000_0000_0000
    - 0x8000_0000_0000_0000_0000_0000_0000_0000
  }

  function Saturate(x: int): Fixed { Max(I128_MIN, Min(I128_MAX, x)) }

  function Add(a: Fixed, b: Fixed): Fixed { Saturate(a + b) }

  function Sub(a: Fixed, b: Fixed): Fixed { Saturate(a - b) }

  /** Multiplication rounds down; it saturates upward but wraps downward. */
  function Mul(a: Fixed, b: Fixed): Fixed { AsI128(Min(I128_MAX, a * b / ONE)) }

  function FromU64Div(a: U64, b: U64): Fixed {
    if b == 0 then I128_MAX else AsI128(CeilDiv(a * ONE, b))
  }

  function FromU128Div(a: U128, b: U128): Fixed {
    if b == 0 then I128_MAX
    else
      var c := CeilDiv(a * ONE, b);
      if c > U128_MAX then I128_MAX else AsI128(c)
  }

  /** A magnitude multiplied by the signs of both operands. */
  function WithSigns(m: int, a: int, b: int): int {
    if a == 0 || b == 0 then 0 else if (a < 0) == (b < 0) then m else -m
  }

  /** Division by magnitudes; the signs are multiplied back in afterwards. */
  function Div(a: Fixed, b: Fixed): Fixed {
    if b == 0 then I128_MAX else AsI128(WithSigns(FromU128Div(Abs(a), Abs(b)), a, b))
  }

  /** Conversion to a base unit: rounds up, zero for negatives, capped at `u128::MAX`. */
  function IntoAtomicUnits(x: Fixed, baseUnit: U128): U128 {
    var raw := x * baseUnit;
    var truncated := if raw < 0 then -((-raw) / ONE) else raw / ONE;
    var rem := raw - truncated * ONE;
    var res := (if rem <= 0 then 0 else 1) + truncated;
    if res < 0 then 0 else if res > U128_MAX then U128_MAX else res
  }

  // ----- Exact behaviour of the operators -----

  /** Sums and differences are exact whenever they are representable, and else the nearest representable number. */
  lemma SumsSaturate(a: Fixed, b: Fixed, x: Fixed)
    ensures Abs(Add(a, b) - (a + b)) <= Abs(x - (a + b))
    ensures Abs(Sub(a, b) - (a - b)) <= Abs(x - (a - b))
  {}

  /** Full turns of the 128-bit counter. */
  function Turns(q: int): int { q * 0x1_0000_0000_0000_0000_0000_0000_0000_0000 }

  lemma CastTurns(x: int) returns (q: int)
    ensures AsI128(x) == x + Turns(q)
  {
    q := -((x + 0x8000_0000_0000_0000_0000_0000_0000_0000) / 0x1_0000_0000_0000_0000_0000_0000_0000_0000);
  }

  /** A product is its floor, the maximum when it is too large, and wraps by full turns when it is too small. */
  lemma MulCases(a: Fixed, b: Fixed) returns (q: int)
    ensures a * b >= (I128_MAX + 1) * ONE ==> Mul(a, b) == I128_MAX
    ensures a * b < (I128_MAX + 1) * ONE ==>
              (Mul(a, b) - Turns(q)) * ONE <= a * b < (Mul(a, b) - Turns(q) + 1) * ONE
  {
    FloorDivBounds(a * b, ONE);
    if a * b >= (I128_MAX + 1) * ONE {
      FloorDivAtLeast(a * b, ONE, I128_MAX + 1);
      q := 0;
    } else {
      q := CastTurns(a * b / ONE);
    }
  }

  /** A product is the floor of the exact one precisely when that floor is representable. */
  lemma MulExactIff(a: Fixed, b: Fixed)
    ensures (Mul(a, b) * ONE <= a * b < (Mul(a, b) + 1) * ONE) <==> I128_MIN * ONE <= a * b < (I128_MAX + 1) * ONE
  {
    FloorDivBounds(a * b, ONE);
  }

  /** On non-negative operands a product is the floor of the exact one, capped at the maximum. */
  lemma MulNonneg(a: Fixed, b: Fixed)
    requires 0 <= a && 0 <= b
    ensures 0 <= Mul(a, b) == Min(I128_MAX, a * b / ONE)
    ensures Mul(a, b) * ONE <= a * b
    ensures Mul(a, b) == I128_MAX || a * b < (Mul(a, b) + 1) * ONE
  {
    MulMono(0, 0, a, b);
    FloorDivBounds(a * b, ONE);
  }

  lemma MulMonotone(a: Fixed, b: Fixed, c: Fixed, d: Fixed)
    requires 0 <= a <= c && 0 <= b <= d
    ensures 0 <= Mul(a, b) <= Mul(c, d)
  {
    MulNonneg(a, b);
    MulNonneg(c, d);
    MulMono(a, b, c, d);
    FloorDivBounds(a * b, ONE);
    FloorDivAtLeast(c * d, ONE, a * b / ONE);
  }

  lemma MulByOne(a: Fixed)
    ensures Mul(ONE, a) == a == Mul(a, ONE)
  {}

  /** `from_u64_div` rounds up, except that it wraps exactly when dividing by one a numerator of 2^63 or more. */
  lemma FromU64DivExactIff(a: U64, b: U64)
    requires b != 0
    ensures FromU64Div(a, b) == CeilDiv(a * ONE, b) <==> !(b == 1 && a >= 0x8000_0000_0000_0000)
    ensures FromU64Div(a, b) != CeilDiv(a * ONE, b) ==> FromU64Div(a, b) < 0
  {
    var c := CeilDiv(a * ONE, b);
    CeilDivAtMost(a * ONE, b, -1);
    if b == 1 {
      CeilDivUnique(a * ONE, 1, a * ONE);
    } else {
      MulLe(2, b, I128_MAX);
      MulMono(I128_MAX, 2, I128_MAX, b);
      CeilDivAtMost(a * ONE, b, I128_MAX);
    }
  }

  /** The magnitude a division is meant to produce. */
  function Quotient(a: Fixed, b: Fixed): (q: int)
    requires b != 0
    ensures q >= 0
  {
    CeilDivAtMost(Abs(a) * ONE, Abs(b), -1);
    CeilDiv(Abs(a) * ONE, Abs(b))
  }

  /** The narrowing cast is the identity in range and subtracts 2^128 in the upper half. */
  lemma AsI128Cases(c: int)
    requires I128_MIN <= c <= U128_MAX
    ensures AsI128(c) == if c <= I128_MAX then c else c - U128_MAX - 1
  {}

  lemma FromU128DivCases(a: U128, b: U128)
    requires b != 0
    ensures var c := CeilDiv(a * ONE, b);
            && 0 <= c
            && FromU128Div(a, b) == if c <= I128_MAX then c else if c <= U128_MAX then c - U128_MAX - 1 else I128_MAX
  {
    CeilDivAtMost(a * ONE, b, -1);
    var c := CeilDiv(a * ONE, b);
    if c <= U128_MAX { AsI128Cases(c); }
  }

  lemma DivCases(a: Fixed, b: Fixed)
    requires b != 0
    ensures var m: int := FromU128Div(Abs(a), Abs(b));
            Div(a, b) == if a == 0 then 0 else if (a < 0) == (b < 0) then m else AsI128(-m)
  {
    AsI128Cases(FromU128Div(Abs(a), Abs(b)));
  }

  /** A quotient of positive numbers is rounded up when it fits, wraps to a negative number when it
      lies in [2^63, 2^64), and saturates above that. */
  lemma DivPositive(a: Fixed, b: Fixed)
    requires 0 < a && 0 < b
    ensures Div(a, b) == Quotient(a, b) <==> Quotient(a, b) <= I128_MAX
    ensures Div(a, b) < 0 <==> I128_MAX < Quotient(a, b) <= U128_MAX
    ensures Div(a, b) == I128_MAX <== Quotient(a, b) > U128_MAX
  {
    DivCases(a, b);
    FromU128DivCases(a, b);
  }

  /** One divided by two units of 2^-64, a quotient of 2^63, comes out negative. */
  lemma DivWraps()
    ensures Div(ONE, 2) < 0 < Quotient(ONE, 2)
  {
    CeilDivUnique(ONE * ONE, 2, 0x8000_0000_0000_0000_0000_0000_0000_0000);
    DivPositive(ONE, 2);
  }

  lemma DivNonneg(a: Fixed, b: Fixed)
    requires 0 <= a && 0 < b && a * ONE <= I128_MAX * b
    ensures Div(a, b) == CeilDiv(a * ONE, b) >= 0
  {
    CeilDivAtMost(a * ONE, b, I128_MAX);
    FromU128DivCases(a, b);
    DivCases(a, b);
    if a == 0 { CeilDivUnique(0, b, 0); }
  }

  /** The quotient with its sign, rounded away from zero. */
  function SignedQuotient(a: Fixed, b: Fixed): int
    requires b != 0
  {
    if (a < 0) == (b < 0) then Quotient(a, b) else -Quotient(a, b)
  }

  lemma ZeroQuotient(b: Fixed)
    requires b != 0
    ensures Quotient(0, b) == 0
  {
    CeilDivUnique(0, Abs(b), 0);
  }

  /** A quotient is rounded away from zero whenever it is representable. */
  lemma DivFits(a: Fixed, b: Fixed)
    requires b != 0 && Quotient(a, b) <= if (a < 0) == (b < 0) then I128_MAX else -I128_MIN
    ensures Div(a, b) == SignedQuotient(a, b)
  {
    if a == 0 {
      ZeroQuotient(b);
    } else {
      DivCases(a, b);
      MagnitudeFits(Abs(a), Abs(b));
    }
  }

  lemma MagnitudeFits(a: U128, b: U128)
    requires b != 0 && CeilDiv(a * ONE, b) <= -I128_MIN
    ensures var c, m: int := CeilDiv(a * ONE, b), FromU128Div(a, b);
            (c <= I128_MAX ==> m == c) && AsI128(-m) == -c
  {
    FromU128DivCases(a, b);
    var m: int := FromU128Div(a, b);
    AsI128Cases(-m);
  }

  /** Dividing by at least one never leaves the range, and rounds away from zero. */
  lemma DivShrinks(a: Fixed, b: Fixed)
    requires b >= ONE
    ensures Div(a, b) == if a < 0 then -Quotient(a, b) else Quotient(a, b)
    ensures Quotient(a, b) <= Abs(a)
  {
    MulLe(ONE, b, Abs(a));
    CeilDivAtMost(Abs(a) * ONE, b, Abs(a));
    DivFits(a, b);
  }

  lemma SignedQuotientMonotone(a: Fixed, c: Fixed, b: Fixed)
    requires b > 0 && a <= c
    ensures SignedQuotient(a, b) <= SignedQuotient(c, b)
  {
    if 0 <= a {
      CeilDivMono(a * ONE, c * ONE, b);
    } else if c < 0 {
      var x: int, y: int := a, c;
      CeilDivMono(-y * ONE, -x * ONE, b);
    }
  }

  lemma DivMonotone(a: Fixed, c: Fixed, b: Fixed)
    requires b >= ONE && a <= c
    ensures Div(a, b) <= Div(c, b)
  {
    DivShrinks(a, b);
    DivShrinks(c, b);
    SignedQuotientMonotone(a, c, b);
  }

  /** The conversion returns the least `u128` amount worth at least the exact product, or the cap. */
  lemma AtomicUnitsLeast(x: Fixed, baseUnit: U128, n: U128)
    ensures n >= IntoAtomicUnits(x, baseUnit) <==> n * ONE >= x * baseUnit || n == U128_MAX
  {
    var raw := x * baseUnit;
    if raw < 0 { FloorDivBounds(-raw, ONE); } else { FloorDivBounds(raw, ONE); }
  }

  lemma AtomicUnitsMonotone(x: Fixed, y: Fixed, baseUnit: U128)
    requires x <= y
    ensures IntoAtomicUnits(x, baseUnit) <= IntoAtomicUnits(y, baseUnit)
  {
    MulLe(x, y, baseUnit);
    var n := IntoAtomicUnits(y, baseUnit);
    AtomicUnitsLeast(y, baseUnit, n);
    AtomicUnitsLeast(x, baseUnit, n);
  }
}
