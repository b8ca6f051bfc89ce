/** Rounding of integer quotients, characterised by the products they bound. */
module Arithmetic {

  function Min(a: int, b: int): int { if a <= b then a else b }

  function Max(a: int, b: int): int { if a <= b then b else a }

  function Abs(a: int): nat { if a < 0 then -a else a }

  /** The quotient rounded up. */
  function CeilDiv(n: int, d: int): (q: int)
    requires d > 0
    ensures (q - 1) * d < n <= q * d
  {
    (n + d - 1) / d
  }

  lemma MulLe(a: int, b: int, c: int)
    requires a <= b && 0 <= c
    ensures a * c <= b * c
  {}

  lemma MulLt(a: int, b: int, c: int)
    requires a < b && 0 < c
    ensures a * c < b * c
  {}

  /** A product is monotone in both non-negative arguments. */
  lemma MulMono(a: int, b: int, c: int, d: int)
    requires 0 <= a <= c && 0 <= b <= d
    ensures 0 <= a * b <= c * d
  {
    MulLe(a, c, b);
    MulLe(b, d, c);
  }

  lemma CeilDivAtMost(n: int, d: int, q: int)
    requires d > 0
    ensures CeilDiv(n, d) <= q <==> n <= q * d
  {
    var c := CeilDiv(n, d);
    if c <= q { MulLe(c, q, d); } else { MulLe(q, c - 1, d); }
  }

  lemma FloorDivBounds(n: int, d: int)
    requires d > 0
    ensures (n / d) * d <= n < (n / d + 1) * d
  {}

  lemma FloorDivAtLeast(n: int, d: int, q: int)
    requires d > 0
    ensures q <= n / d <==> q * d <= n
  {
    var f := n / d;
    FloorDivBounds(n, d);
    if q <= f { MulLe(q, f, d); } else { MulLe(f + 1, q, d); }
  }

  lemma CeilDivMono(n: int, m: int, d: int)
    requires n <= m && d > 0
    ensures CeilDiv(n, d) <= CeilDiv(m, d)
  {
    CeilDivAtMost(n, d, CeilDiv(m, d));
  }

  lemma CeilDivUnique(n: int, d: int, q: int)
    requires d > 0 && (q - 1) * d < n <= q * d
    ensures CeilDiv(n, d) == q
  {
    CeilDivAtMost(n, d, q);
    CeilDivAtMost(n, d, q - 1);
  }

  /** Rounding up a sum never exceeds the sum of the roundings. */
  lemma CeilDivSubadditive(n: int, m: int, d: int)
    requires d > 0
    ensures CeilDiv(n + m, d) <= CeilDiv(n, d) + CeilDiv(m, d)
  {
    CeilDivAtMost(n + m, d, CeilDiv(n, d) + CeilDiv(m, d));
  }

  /** A larger divisor gives a smaller quotient. */
  lemma CeilDivAntitone(n: int, d: int, e: int)
    requires 0 <= n && 0 < d <= e
    ensures 0 <= CeilDiv(n, e) <= CeilDiv(n, d)
  {
    var r := CeilDiv(n, d);
    CeilDivAtMost(n, d, -1);
    CeilDivAtMost(n, e, -1);
    MulLe(d, e, r);
    CeilDivAtMost(n, e, r);
  }
}
