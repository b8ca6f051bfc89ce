/** Integer powers of fixed-point numbers by square and multiply, against exact real powers. */
module Powers {
  import opened Arithmetic
  import opened FixedPoint

  const I32_MAX: int := 0x7FFF_FFFF

  /** Exponents `powi` can serve: it negates its argument, so `i32::MIN` is not one of them. */
  type Exponent = x: int | -I32_MAX <= x <= I32_MAX

  /** What remains to be computed when the loop holds `acc`, `cur` and `exp`. */
  function PowerFrom(acc: Fixed, cur: Fixed, exp: nat): Fixed
    decreases exp
  {
    if exp == 0 then acc
    else PowerFrom(if exp % 2 != 0 then Mul(acc, cur) else acc, Mul(cur, cur), exp / 2)
  }

  function Power(x: Fixed, exp: Exponent): Fixed {
    if exp < 0 then Div(ONE, PowerFrom(ONE, x, -exp)) else PowerFrom(ONE, x, exp)
  }

  method Powi(x: Fixed, exp: Exponent) returns (r: Fixed)
    ensures r == Power(x, exp)
    decreases exp < 0
  {
    if exp < 0 {
      var p := Powi(x, -exp);
      return Div(ONE, p);
    }
    var acc: Fixed, cur: Fixed, e: nat := ONE, x, exp;
    while e >= 1
      invariant PowerFrom(acc, cur, e) == PowerFrom(ONE, x, exp)
      decreases e
    {
      if e % 2 != 0 {
        acc := Mul(acc, cur);
      }
      cur := Mul(cur, cur);
      e := e / 2;
    }
    r := acc;
  }

  /** A negative power is the reciprocal of the positive one, rounded up, whenever that is representable. */
  lemma ReciprocalPower(x: Fixed, n: Exponent)
    requires n > 0 && Power(x, n) >= 3
    ensures (Power(x, -n) - 1) * Power(x, n) < ONE * ONE <= Power(x, -n) * Power(x, n)
  {
    var p := Power(x, n);
    MulLe(3, p, I128_MAX);
    DivNonneg(ONE, p);
    CeilDivAtMost(ONE * ONE, p, Power(x, -n));
    CeilDivAtMost(ONE * ONE, p, Power(x, -n) - 1);
  }

  // ----- Exact powers -----

  const UNIT: real := 1.0 / 18446744073709551616.0

  /** The number a representation stands for. */
  function Value(x: int): real { x as real / 18446744073709551616.0 }

  function RealPow(b: real, n: nat): real { if n == 0 then 1.0 else b * RealPow(b, n - 1) }

  lemma RealMulMono(a: real, b: real, c: real, d: real)
    requires 0.0 <= a <= c && 0.0 <= b <= d
    ensures 0.0 <= a * b <= c * d
  {
    assert a * b <= c * b;
    assert c * b <= c * d;
  }

  lemma {:induction false} RealPowNonneg(b: real, n: nat)
    requires 0.0 <= b
    ensures 0.0 <= RealPow(b, n)
    ensures b <= 1.0 ==> RealPow(b, n) <= 1.0
  {
    if n > 0 {
      RealPowNonneg(b, n - 1);
      if b <= 1.0 { RealMulMono(b, RealPow(b, n - 1), 1.0, 1.0); }
    }
  }

  lemma {:induction false} RealPowMono(b: real, c: real, n: nat)
    requires 0.0 <= b <= c
    ensures 0.0 <= RealPow(b, n) <= RealPow(c, n)
  {
    if n > 0 {
      RealPowMono(b, c, n - 1);
      RealMulMono(b, RealPow(b, n - 1), c, RealPow(c, n - 1));
    }
  }

  lemma {:induction false} RealPowSquare(b: real, n: nat)
    ensures RealPow(b * b, n) == RealPow(b, 2 * n)
  {
    if n > 0 {
      RealPowSquare(b, n - 1);
      var p := RealPow(b, 2 * n - 2);
      assert RealPow(b, 2 * n) == b * (b * p);
      assert (b * b) * p == b * (b * p);
    }
  }

  /** Square and multiply without rounding. */
  function ExactFrom(a: real, c: real, n: nat): real
    decreases n
  {
    if n == 0 then a
    else if n % 2 != 0 then ExactFrom(a * c, c * c, n / 2)
    else ExactFrom(a, c * c, n / 2)
  }

  lemma HalvedPower(c: real, n: nat)
    requires n > 0
    ensures RealPow(c, n) == if n % 2 != 0 then c * RealPow(c * c, n / 2) else RealPow(c * c, n / 2)
  {
    RealPowSquare(c, n / 2);
  }

  lemma ExactHalved(a: real, c: real, n: nat)
    requires n > 0
    ensures ExactFrom(a, c, n) == if n % 2 != 0 then ExactFrom(a * c, c * c, n / 2) else ExactFrom(a, c * c, n / 2)
  {}

  lemma {:induction false} ExactIsPower(a: real, c: real, n: nat)
    ensures ExactFrom(a, c, n) == a * RealPow(c, n)
    decreases n
  {
    if n > 0 {
      var d, k := c * c, n / 2;
      HalvedPower(c, n);
      ExactHalved(a, c, n);
      ExactIsPower(a * c, d, k);
      ExactIsPower(a, d, k);
      Reassociate(a, c, RealPow(d, k));
    }
  }

  lemma Reassociate(a: real, b: real, c: real)
    ensures (a * b) * c == a * (b * c)
  {}

  // ----- One rounded product -----

  lemma ValueMono(a: int, b: int)
    requires a <= b
    ensures Value(a) <= Value(b)
  {}

  /** A rounded product lies at most one unit below the exact one, unless it saturates. */
  lemma ValueMul(a: Fixed, b: Fixed)
    requires 0 <= a && 0 <= b
    ensures 0.0 <= Value(Mul(a, b)) <= Value(a) * Value(b)
    ensures Mul(a, b) == I128_MAX || Value(a) * Value(b) - UNIT <= Value(Mul(a, b))
  {
    MulNonneg(a, b);
    var m: int := Mul(a, b);
    var p: int := a * b;
    assert p as real == a as real * b as real;
    assert Value(a) * Value(b) == p as real * UNIT * UNIT;
    assert (m * ONE) as real * UNIT == m as real;
    assert ((m + 1) * ONE) as real * UNIT == m as real + 1.0;
  }

  lemma ValueMulFraction(a: Fixed, b: Fixed)
    requires 0 <= a <= ONE && 0 <= b <= ONE
    ensures 0 <= Mul(a, b) <= ONE
    ensures Value(a) * Value(b) - UNIT <= Value(Mul(a, b))
  {
    MulMonotone(a, b, ONE, ONE);
    ValueMul(a, b);
  }

  // ----- Accuracy -----

  lemma ProductAtMost(x: Fixed, y: Fixed, a: real, b: real)
    requires 0 <= x && 0 <= y && Value(x) <= a && Value(y) <= b
    ensures 0 <= Mul(x, y) && Value(Mul(x, y)) <= a * b && 0.0 <= a * b
  {
    ValueMul(x, y);
    ValueMono(0, x);
    ValueMono(0, y);
    RealMulMono(Value(x), Value(y), a, b);
    MulNonneg(x, y);
  }

  /** `powi` never exceeds the true power of a non-negative base, saturated or not. */
  lemma {:induction false} PowerAtMostExact(acc: Fixed, cur: Fixed, n: nat, a: real, c: real)
    requires 0 <= acc && 0 <= cur && Value(acc) <= a && Value(cur) <= c
    ensures 0 <= PowerFrom(acc, cur, n)
    ensures Value(PowerFrom(acc, cur, n)) <= ExactFrom(a, c, n)
    decreases n
  {
    if n > 0 {
      ProductAtMost(acc, cur, a, c);
      ProductAtMost(cur, cur, c, c);
      if n % 2 != 0 {
        PowerAtMostExact(Mul(acc, cur), Mul(cur, cur), n / 2, a * c, c * c);
      } else {
        PowerAtMostExact(acc, Mul(cur, cur), n / 2, a, c * c);
      }
    }
  }

  lemma RealScale(x: real, y: real, k: real)
    requires x <= y && 0.0 <= k
    ensures x * k <= y * k
  {}

  lemma ErrorTerms(a: real, b: real, A: real, B: real)
    ensures (b - B) * a + (a - A) * B == a * b - A * B
  {}

  lemma ErrorTerm(x: real, e: real, k: real)
    requires -e <= x && 0.0 <= e && 0.0 <= k <= 1.0
    ensures -e <= x * k
  {
    RealScale(0.0, x + e, k);
    RealScale(0.0, 1.0 - k, e);
    assert x * k + e == (x + e) * k + (1.0 - k) * e;
  }

  /** Errors of two fractions add up in their product. */
  lemma ProductError(a: real, b: real, A: real, B: real, ea: real, eb: real)
    requires 0.0 <= a <= 1.0 && 0.0 <= B <= 1.0
    requires A - ea <= a && B - eb <= b && 0.0 <= ea && 0.0 <= eb
    ensures A * B - ea - eb <= a * b
  {
    ErrorTerm(b - B, eb, a);
    ErrorTerm(a - A, ea, B);
    ErrorTerms(a, b, A, B);
  }

  lemma ProductAtLeast(x: Fixed, y: Fixed, a: real, b: real, ea: real, eb: real)
    requires 0 <= x <= ONE && 0 <= y <= ONE && 0.0 <= a <= 1.0 && 0.0 <= b <= 1.0 && 0.0 <= ea && 0.0 <= eb
    requires a - ea <= Value(x) && b - eb <= Value(y)
    ensures 0 <= Mul(x, y) <= ONE && 0.0 <= a * b <= 1.0
    ensures a * b - (ea + eb + UNIT) <= Value(Mul(x, y))
  {
    ValueMono(0, x);
    ValueMono(x, ONE);
    ProductError(Value(x), Value(y), a, b, ea, eb);
    ValueMulFraction(x, y);
    RealMulMono(a, b, 1.0, 1.0);
  }

  /** The error bound of the loop, given bounds on the errors of `acc` and `cur`. */
  function ErrorFrom(ea: real, ec: real, n: nat): real
    decreases n
  {
    if n == 0 then ea else ErrorFrom(if n % 2 != 0 then ea + ec + UNIT else ea, ec + ec + UNIT, n / 2)
  }

  lemma {:induction false} ErrorIsLinear(ea: real, ec: real, n: nat)
    ensures ErrorFrom(ea, ec, n) == ea + n as real * (ec + UNIT)
    decreases n
  {
    if n > 0 {
      ErrorIsLinear(if n % 2 != 0 then ea + ec + UNIT else ea, ec + ec + UNIT, n / 2);
      var k := (n / 2) as real;
      var e := ec + UNIT;
      assert n as real == k + k + (if n % 2 != 0 then 1.0 else 0.0);
      assert (ec + ec + UNIT) + UNIT == 2.0 * e;
      assert n as real * e == (k + k) * e + (if n % 2 != 0 then e else 0.0);
    }
  }

  /** The loop loses at most one unit for every unit of the exponent when the base is at most one. */
  lemma {:induction false} PowerFractionError(acc: Fixed, cur: Fixed, n: nat, a: real, c: real, ea: real, ec: real)
    requires 0 <= acc <= ONE && 0 <= cur <= ONE
    requires 0.0 <= a <= 1.0 && 0.0 <= c <= 1.0 && 0.0 <= ea && 0.0 <= ec
    requires a - ea <= Value(acc) && c - ec <= Value(cur)
    ensures ExactFrom(a, c, n) - ErrorFrom(ea, ec, n) <= Value(PowerFrom(acc, cur, n))
    decreases n
  {
    if n > 0 {
      ProductAtLeast(acc, cur, a, c, ea, ec);
      ProductAtLeast(cur, cur, c, c, ec, ec);
      if n % 2 != 0 {
        PowerFractionError(Mul(acc, cur), Mul(cur, cur), n / 2, a * c, c * c, ea + ec + UNIT, ec + ec + UNIT);
      } else {
        PowerFractionError(acc, Mul(cur, cur), n / 2, a, c * c, ea, ec + ec + UNIT);
      }
    }
  }

  lemma PowiLowerBound(x: Fixed, n: Exponent)
    requires 0 <= x <= ONE && n >= 0
    ensures RealPow(Value(x), n) - n as real * UNIT <= Value(Power(x, n))
  {
    ValueMono(0, x);
    ValueMono(x, ONE);
    PowerFractionError(ONE, x, n, 1.0, Value(x), 0.0, 0.0);
    ErrorIsLinear(0.0, 0.0, n);
    ExactIsPower(1.0, Value(x), n);
  }

  /** For a base between zero and one, `powi` is within `n` units below the true power. */
  lemma PowiErrorBound(x: Fixed, n: Exponent)
    requires 0 <= x <= ONE && n >= 0
    ensures RealPow(Value(x), n) - n as real * UNIT <= Value(Power(x, n)) <= RealPow(Value(x), n)
  {
    PowiLowerBound(x, n);
    PowiUpperBound(x, n);
  }

  /** The true power bounds `powi` from above for every non-negative base. */
  lemma PowiUpperBound(x: Fixed, n: Exponent)
    requires 0 <= x && n >= 0
    ensures 0.0 <= Value(Power(x, n)) <= RealPow(Value(x), n)
  {
    PowerAtMostExact(ONE, x, n, 1.0, Value(x));
    ExactIsPower(1.0, Value(x), n);
  }

  // ----- Bases of at least one: relative accuracy and saturation -----

  lemma {:induction false} PowerSaturated(acc: Fixed, cur: Fixed, n: nat)
    requires acc >= ONE && cur >= ONE
    requires acc == I128_MAX || (cur == I128_MAX && n > 0)
    ensures PowerFrom(acc, cur, n) == I128_MAX
    decreases n
  {
    if n > 0 {
      MulMonotone(ONE, acc, cur, acc);
      MulMonotone(ONE, cur, acc, cur);
      MulMonotone(ONE, cur, cur, cur);
      MulByOne(acc);
      MulByOne(cur);
      assert acc == I128_MAX ==> Mul(acc, cur) == I128_MAX by { assert Mul(acc, cur) == Mul(cur, acc); }
      PowerSaturated(if n % 2 != 0 then Mul(acc, cur) else acc, Mul(cur, cur), n / 2);
    }
  }

  const SHRINK: real := 1.0 - UNIT

  /** A product shrunk by one part in `1/u` absorbs a rounding of `u` once it is at least one. */
  lemma RelativeChain(a: real, b: real, v: real, w: real, u: real, m: real)
    requires 0.0 <= a <= v && 0.0 <= b <= w * (1.0 - u) && 1.0 <= v && 1.0 <= w && 0.0 <= u && v * w - u <= m
    ensures a * b <= m
  {
    RealMulMono(a, b, v, w * (1.0 - u));
    Reassociate(v, w, 1.0 - u);
    RealMulMono(1.0, 1.0, v, w);
    RealScale(1.0, v * w, u);
    assert (v * w) * (1.0 - u) == v * w - (v * w) * u;
  }

  lemma ProductRelative(x: Fixed, y: Fixed, a: real, b: real)
    requires ONE <= x && ONE <= y && 0.0 <= a <= Value(x) && 0.0 <= b <= Value(y) * SHRINK
    ensures ONE <= Mul(x, y)
    ensures Mul(x, y) == I128_MAX || a * b <= Value(Mul(x, y))
  {
    MulMonotone(ONE, ONE, x, y);
    ValueMul(x, y);
    ValueMono(ONE, x);
    ValueMono(ONE, y);
    if Mul(x, y) != I128_MAX { RelativeChain(a, b, Value(x), Value(y), UNIT, Value(Mul(x, y))); }
  }

  lemma SquareRelative(y: Fixed, b: real)
    requires ONE <= y && 0.0 <= b <= Value(y) * SHRINK
    ensures ONE <= Mul(y, y)
    ensures Mul(y, y) == I128_MAX || 0.0 <= b * b <= Value(Mul(y, y)) * SHRINK
  {
    var w := Value(y);
    ValueMono(ONE, y);
    ProductRelative(y, y, w, w * SHRINK);
    RealMulMono(b, b, w * SHRINK, w * SHRINK);
    var m := Value(Mul(y, y));
    if Mul(y, y) != I128_MAX {
      RealMulMono(w * (w * SHRINK), SHRINK, m, SHRINK);
      assert (w * SHRINK) * (w * SHRINK) == (w * (w * SHRINK)) * SHRINK;
    }
  }

  /** For a base of at least one the loop either saturates or loses at most one part in 2^64 per factor. */
  lemma {:induction false} PowerRelativeError(acc: Fixed, cur: Fixed, n: nat, a: real, c: real)
    requires ONE <= acc && ONE <= cur && 0.0 <= a <= Value(acc) && 0.0 <= c <= Value(cur) * SHRINK
    ensures PowerFrom(acc, cur, n) == I128_MAX || ExactFrom(a, c, n) <= Value(PowerFrom(acc, cur, n))
    decreases n
  {
    if n > 0 {
      var acc' := if n % 2 != 0 then Mul(acc, cur) else acc;
      var cur' := Mul(cur, cur);
      ProductRelative(acc, cur, a, c);
      SquareRelative(cur, c);
      if acc' == I128_MAX || (cur' == I128_MAX && n / 2 > 0) {
        PowerSaturated(acc', cur', n / 2);
      } else if n / 2 > 0 {
        RealMulMono(0.0, 0.0, a, c);
        PowerRelativeError(acc', cur', n / 2, if n % 2 != 0 then a * c else a, c * c);
      }
    }
  }

  /** For a base of at least one, `powi` saturates or stays within one part in 2^64 per factor of the true power. */
  lemma PowiRelativeBound(x: Fixed, n: Exponent)
    requires ONE <= x && n >= 0
    ensures Value(Power(x, n)) <= RealPow(Value(x), n)
    ensures Power(x, n) == I128_MAX || RealPow(Value(x) * SHRINK, n) <= Value(Power(x, n))
  {
    ValueMono(ONE, x);
    PowiUpperBound(x, n);
    PowerRelativeError(ONE, x, n, 1.0, Value(x) * SHRINK);
    ExactIsPower(1.0, Value(x) * SHRINK, n);
  }

  // ----- Monotonicity through the rounded products -----

  lemma {:induction false} PowerFromMonotone(acc: Fixed, cur: Fixed, acc': Fixed, cur': Fixed, n: nat)
    requires 0 <= acc <= acc' && 0 <= cur <= cur'
    ensures 0 <= PowerFrom(acc, cur, n) <= PowerFrom(acc', cur', n)
    decreases n
  {
    if n > 0 {
      MulMonotone(acc, cur, acc', cur');
      MulMonotone(cur, cur, cur', cur');
      if n % 2 != 0 {
        PowerFromMonotone(Mul(acc, cur), Mul(cur, cur), Mul(acc', cur'), Mul(cur', cur'), n / 2);
      } else {
        PowerFromMonotone(acc, Mul(cur, cur), acc', Mul(cur', cur'), n / 2);
      }
    }
  }

  /** `powi` is monotone in a non-negative base. */
  lemma PowiMonotoneInBase(x: Fixed, y: Fixed, n: Exponent)
    requires 0 <= x <= y && n >= 0
    ensures 0 <= Power(x, n) <= Power(y, n)
  {
    PowerFromMonotone(ONE, x, ONE, y, n);
  }

  /** Carry into the next exponent, bases of at least one: the product `acc` of a run of set low bits is
      at most the square `cur` that replaces it. */
  lemma {:induction false} CarryUp(acc: Fixed, cur: Fixed, n: nat)
    requires ONE <= cur && 0 <= acc <= cur
    ensures PowerFrom(acc, cur, n) <= PowerFrom(ONE, cur, n + 1)
    decreases n
  {
    MulByOne(cur);
    MulMonotone(ONE, cur, cur, cur);
    if n % 2 == 0 {
      PowerFromMonotone(acc, Mul(cur, cur), cur, Mul(cur, cur), n / 2);
    } else {
      MulMonotone(acc, cur, cur, cur);
      assert (n + 1) / 2 == n / 2 + 1;
      CarryUp(Mul(acc, cur), Mul(cur, cur), n / 2);
    }
  }

  /** The same carry for bases of at most one, in the other direction. */
  lemma {:induction false} CarryDown(acc: Fixed, cur: Fixed, n: nat)
    requires 0 <= cur <= ONE && cur <= acc
    ensures PowerFrom(ONE, cur, n + 1) <= PowerFrom(acc, cur, n)
    decreases n
  {
    MulByOne(cur);
    MulMonotone(cur, cur, cur, ONE);
    if n % 2 == 0 {
      PowerFromMonotone(cur, Mul(cur, cur), acc, Mul(cur, cur), n / 2);
    } else {
      MulMonotone(cur, cur, acc, cur);
      assert (n + 1) / 2 == n / 2 + 1;
      CarryDown(Mul(acc, cur), Mul(cur, cur), n / 2);
    }
  }

  lemma {:induction false} GrowingPowers(x: Fixed, m: nat, n: nat)
    requires ONE <= x && m <= n
    ensures ONE <= PowerFrom(ONE, x, m) <= PowerFrom(ONE, x, n)
    decreases n
  {
    if m < n {
      GrowingPowers(x, m, n - 1);
      CarryUp(ONE, x, n - 1);
    } else if n > 0 {
      GrowingPowers(x, 0, n - 1);
      CarryUp(ONE, x, n - 1);
    }
  }

  lemma ReciprocalOfLarge(p: Fixed)
    requires ONE <= p
    ensures 0 < Div(ONE, p) == CeilDiv(ONE * ONE, p) <= ONE
  {
    DivShrinks(ONE, p);
    CeilDivAtMost(ONE * ONE, p, 0);
  }

  lemma ReciprocalAntitone(p: Fixed, q: Fixed)
    requires ONE <= p <= q
    ensures Div(ONE, q) <= Div(ONE, p)
  {
    ReciprocalOfLarge(p);
    ReciprocalOfLarge(q);
    CeilDivAntitone(ONE * ONE, p, q);
  }

  lemma NegativePower(x: Fixed, m: Exponent)
    requires ONE <= x && m < 0
    ensures 0 < Power(x, m) <= ONE
  {
    GrowingPowers(x, 0, -m);
    var p := PowerFrom(ONE, x, -m);
    ReciprocalOfLarge(p);
    assert Power(x, m) == Div(ONE, p);
  }

  lemma NegativePowersGrow(x: Fixed, m: Exponent, n: Exponent)
    requires ONE <= x && m <= n < 0
    ensures Power(x, m) <= Power(x, n)
  {
    var p, q := PowerFrom(ONE, x, -m), PowerFrom(ONE, x, -n);
    GrowingPowers(x, 0, -n);
    GrowingPowers(x, -n, -m);
    ReciprocalAntitone(q, p);
  }

  lemma PowersGrow(x: Fixed, m: Exponent, n: Exponent)
    requires ONE <= x && 0 <= m <= n
    ensures ONE <= Power(x, m) <= Power(x, n)
  {
    GrowingPowers(x, m, n);
  }

  /** `powi` is monotone in the exponent, negative ones included, when the base is at least one. */
  lemma PowiMonotoneInExponent(x: Fixed, m: Exponent, n: Exponent)
    requires ONE <= x && m <= n
    ensures 0 < Power(x, m) <= Power(x, n)
  {
    if m >= 0 {
      PowersGrow(x, m, n);
    } else {
      NegativePower(x, m);
      if n < 0 { NegativePowersGrow(x, m, n); } else { PowersGrow(x, 0, n); ZerothPower(x); }
    }
  }

  lemma ZerothPower(x: Fixed)
    ensures Power(x, 0) == ONE
  {}

  /** `powi` is antitone in the exponent when the base is between zero and one. */
  lemma {:induction false} PowiAntitoneInExponent(x: Fixed, m: Exponent, n: Exponent)
    requires 0 <= x <= ONE && 0 <= m <= n
    ensures Power(x, n) <= Power(x, m)
    decreases n
  {
    if m < n {
      PowiAntitoneInExponent(x, m, n - 1);
      CarryDown(ONE, x, n - 1);
    }
  }
}
