/** Little-endian bytes. */
module Bytes {

  type Byte = x: int | 0 <= x < 256

  type Hash = h: seq<Byte> | |h| == 32 witness seq(32, _ => 0)

  function Pow256(k: nat): (r: nat)
    ensures r >= 1
  {
    if k == 0 then 1 else 256 * Pow256(k - 1)
  }

  function FromLe(b: seq<Byte>): nat { if b == [] then 0 else b[0] + 256 * FromLe(b[1..]) }

  function ToLe(n: nat, k: nat): (b: seq<Byte>)
    ensures |b| == k
  {
    if k == 0 then [] else [n % 256] + ToLe(n / 256, k - 1)
  }

  lemma {:induction false} FromLeBound(b: seq<Byte>)
    ensures FromLe(b) < Pow256(|b|)
  {
    if b != [] { FromLeBound(b[1..]); }
  }

  lemma FromLeCons(x: Byte, rest: seq<Byte>)
    ensures FromLe([x] + rest) == x + 256 * FromLe(rest)
  {
    assert ([x] + rest)[1..] == rest;
  }

  lemma Shifted(x: int, t: int, p: int, y: int)
    ensures x + 256 * (t + p * y) == x + 256 * t + (256 * p) * y
  {}

  /** What follows is worth 256 times more per byte in front of it. */
  lemma {:induction false} FromLeConcat(a: seq<Byte>, b: seq<Byte>)
    ensures FromLe(a + b) == FromLe(a) + Pow256(|a|) * FromLe(b)
  {
    if a == [] {
      assert a + b == b;
    } else {
      var rest := a[1..];
      FromLeConcat(rest, b);
      FromLeCons(a[0], rest);
      FromLeCons(a[0], rest + b);
      assert [a[0]] + rest == a && [a[0]] + (rest + b) == a + b;
      Shifted(a[0], FromLe(rest), Pow256(|rest|), FromLe(b));
    }
  }

  lemma {:induction false} FromToLe(n: nat, k: nat)
    requires n < Pow256(k)
    ensures FromLe(ToLe(n, k)) == n
  {
    if k > 0 {
      var tail := ToLe(n / 256, k - 1);
      FromToLe(n / 256, k - 1);
      assert ToLe(n, k) == [n % 256] + tail && ([n % 256] + tail)[1..] == tail;
    }
  }

  lemma ToLeCons(x: Byte, y: nat, k: nat)
    ensures ToLe(x + 256 * y, k + 1) == [x] + ToLe(y, k)
  {
    assert (x + 256 * y) % 256 == x && (x + 256 * y) / 256 == y;
  }

  lemma {:induction false} ToFromLe(b: seq<Byte>)
    ensures ToLe(FromLe(b), |b|) == b
  {
    if b != [] {
      ToFromLe(b[1..]);
      ToLeCons(b[0], FromLe(b[1..]), |b| - 1);
      assert b == [b[0]] + b[1..];
    }
  }

  lemma Shift(x: int, y: int)
    ensures 256 * (x * y) == (256 * x) * y
  {}

  lemma {:induction false} Pow256Add(a: nat, b: nat)
    ensures Pow256(a + b) == Pow256(a) * Pow256(b)
  {
    if a > 0 {
      Pow256Add(a - 1, b);
      Shift(Pow256(a - 1), Pow256(b));
    }
  }

  /** 16 bytes hold a `u128`; 31 bytes hold 248 bits. */
  lemma Pow256Values()
    ensures Pow256(16) == 0x1_0000_0000_0000_0000_0000_0000_0000_0000
    ensures Pow256(31) == 0x1_000000_00000000_00000000_00000000_00000000_00000000_00000000_00000000
  {
    assert Pow256(2) == 0x10000;
    assert Pow256(3) == 0x1000000;
    Pow256Add(2, 2);
    Pow256Add(3, 4);
    Pow256Add(4, 4);
    Pow256Add(7, 8);
    Pow256Add(8, 8);
    Pow256Add(15, 16);
  }
}
