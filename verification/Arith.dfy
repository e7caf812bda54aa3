/** Powers of two and the division facts the bit-level code rests on. */
module Arith {

  type byte = x: int | 0 <= x < 256
  type uint16 = x: int | 0 <= x < 0x1_0000
  type uint32 = x: int | 0 <= x < 0x1_0000_0000
  type int16 = x: int | -0x8000 <= x < 0x8000
  type int32 = x: int | -0x8000_0000 <= x < 0x8000_0000

  function Min(a: int, b: int): int { if a < b then a else b }

  function Max(a: int, b: int): int { if a < b then b else a }

  function Pow2(n: nat): (p: nat)
    ensures p >= 1
  {
    if n == 0 then 1 else 2 * Pow2(n - 1)
  }

  lemma {:induction false} Pow2Add(a: nat, b: nat)
    ensures Pow2(a + b) == Pow2(a) * Pow2(b)
  {
    if b > 0 {
      Pow2Add(a, b - 1);
      assert Pow2(a) * (2 * Pow2(b - 1)) == 2 * (Pow2(a) * Pow2(b - 1));
    }
  }

  lemma {:induction false} Pow2Mono(a: nat, b: nat)
    requires a <= b
    ensures Pow2(a) <= Pow2(b)
  {
    if a < b {
      Pow2Mono(a, b - 1);
    }
  }

  /** The powers the coder names as constants. */
  lemma Pow2Values()
    ensures Pow2(7) == 0x80 && Pow2(8) == 0x100 && Pow2(14) == 0x4000 && Pow2(15) == 0x8000
    ensures Pow2(16) == 0x1_0000 && Pow2(22) == 0x40_0000 && Pow2(23) == 0x80_0000
    ensures Pow2(24) == 0x100_0000 && Pow2(30) == 0x4000_0000
    ensures Pow2(31) == 0x8000_0000 && Pow2(32) == 0x1_0000_0000
  {
    assert Pow2(4) == 16;
    Pow2Add(4, 3);
    Pow2Add(4, 4);
    Pow2Add(8, 7);
    Pow2Add(7, 7);
    Pow2Add(8, 8);
    Pow2Add(16, 8);
    Pow2Add(16, 7);
    Pow2Add(15, 7);
    Pow2Add(16, 16);
    Pow2Add(16, 15);
    Pow2Add(16, 14);
  }

  /** x >> n. */
  function Shr(x: nat, n: nat): nat {
    DivAtMost(x, Pow2(n));
    x / Pow2(n)
  }

  lemma DivAtMost(x: nat, p: nat)
    requires p > 0
    ensures 0 <= x / p <= x && 0 <= x % p < p && x / p * p + x % p == x
  {
    QuotientInside(x, p, x / p, x % p);
  }

  lemma QuotientInside(x: nat, p: nat, q: int, r: nat)
    requires r < p && x == q * p + r
    ensures 0 <= q <= x
  {
    assert -q * p == -(q * p);
    if q < 0 {
      MulAtLeast(-q, p);
    } else if p > 1 {
      assert q * p == q + q * (p - 1);
      assert q * (p - 1) >= 0;
    }
  }

  lemma QuotientRange(x: int, d: int)
    requires 1 <= d <= x
    ensures 1 <= x / d <= x
  {
    DivAtMost(x, d);
    QuotientPositive(x / d, d, x % d);
  }

  lemma QuotientPositive(q: int, d: int, r: int)
    requires q >= 0 && 0 <= r < d && q * d + r >= d
    ensures q >= 1
  {
  }

  lemma Cancel(d: nat, a: int, b: int)
    requires d * a < d * b
    ensures a < b
  {
    if a >= b {
      MulOrder(d, b, a);
    }
  }

  lemma MultiplesWithin(q: nat, a: nat, x: nat)
    requires a >= 1 && q * a <= x
    ensures q <= x / a
  {
    DivAtMost(x, a);
    assert (x / a + 1) * a == x / a * a + a;
    Cancel(a, q, x / a + 1);
  }

  lemma QuotientGrows(a: nat, b: nat, c: nat, d: nat)
    requires a <= c && 1 <= d <= b
    ensures 0 <= a / b <= c / d
  {
    DivAtMost(a, b);
    MulOrder(a / b, d, b);
    MultiplesWithin(a / b, d, c);
  }

  lemma Pow2Less(a: nat, b: nat)
    requires Pow2(a) < Pow2(b)
    ensures a < b
  {
    if a >= b {
      Pow2Mono(b, a);
    }
  }

  lemma Pow2AtMost32(n: nat)
    requires n <= 32
    ensures Pow2(n) <= 0x1_0000_0000
  {
    Pow2Mono(n, 32);
    Pow2Values();
  }

  lemma MulAtLeast(k: int, d: nat)
    requires k >= 1
    ensures k * d >= d
  {
    assert k * d == (k - 1) * d + d;
  }

  lemma MulSub(r: int, x: int, y: int)
    ensures r * (x - y) == r * x - r * y
  {
  }

  lemma MulOrder(r: nat, x: int, y: int)
    requires x <= y
    ensures r * x <= r * y
  {
  }

  lemma DivModUnique(x: int, d: int, q: int, r: int)
    requires 0 <= r < d && x == q * d + r
    ensures x / d == q && x % d == r
  {
    var p, m := x / d, x % d;
    assert x == p * d + m && 0 <= m < d;
    assert (q - p) * d == q * d - p * d;
    assert (p - q) * d == p * d - q * d;
    if q > p {
      MulAtLeast(q - p, d);
    } else if p > q {
      MulAtLeast(p - q, d);
    }
  }

  lemma DivDiv(x: nat, a: nat, b: nat)
    requires a > 0 && b > 0
    ensures a * b > 0
    ensures x / (a * b) == x / a / b
    ensures x % (a * b) == x % a + a * (x / a % b)
  {
    var q, r := x / a / b, x / a % b;
    assert x / a == q * b + r;
    assert x == (q * b + r) * a + x % a;
    assert (q * b + r) * a == q * (a * b) + a * r;
    assert a * r + a <= a * b by {
      assert a * (r + 1) <= a * b;
    }
    DivModUnique(x, a * b, q, x % a + a * r);
  }

  lemma ShrShr(x: nat, a: nat, b: nat)
    ensures Shr(Shr(x, a), b) == Shr(x, a + b)
  {
    Pow2Add(a, b);
    DivDiv(x, Pow2(a), Pow2(b));
  }

  /** Both halves of a modulus: the low part survives, the high part is the modulus of the quotient. */
  lemma ModOfProduct(x: nat, a: nat, b: nat)
    requires a > 0 && b > 0
    ensures a * b > 0
    ensures x % (a * b) % a == x % a
    ensures x % (a * b) / a == x / a % b
  {
    DivDiv(x, a, b);
    DivModUnique(x % (a * b), a, x / a % b, x % a);
  }

  lemma DivMulBounds(x: nat, d: nat)
    requires d > 0
    ensures 0 <= x / d * d <= x < x / d * d + d
  {
  }

  /** Bit length: floor(log2 x) + 1, and 0 for 0. */
  function Ilog(x: nat): nat {
    if x == 0 then 0 else 1 + Ilog(x / 2)
  }

  lemma {:induction false} IlogExact(x: nat)
    requires x > 0
    ensures Ilog(x) >= 1 && Pow2(Ilog(x) - 1) <= x < Pow2(Ilog(x))
  {
    if x > 1 {
      IlogExact(x / 2);
    } else {
      assert Ilog(0) == 0;
    }
  }

  /** The number of bits is one more than the octave. */
  lemma IlogUnique(x: nat, n: nat)
    requires Pow2(n) <= x < Pow2(n + 1)
    ensures Ilog(x) == n + 1
  {
    IlogExact(x);
    Pow2Less(n, Ilog(x));
    Pow2Less(Ilog(x) - 1, n + 1);
  }

  /** Exclusive or of the low n bits. */
  function XorBits(a: nat, b: nat, n: nat): (r: nat)
    ensures r < Pow2(n)
  {
    if n == 0 then 0 else 2 * XorBits(a / 2, b / 2, n - 1) + if a % 2 == b % 2 then 0 else 1
  }

  lemma {:induction false} XorCancels(a: nat, b: nat, n: nat)
    requires a < Pow2(n)
    ensures XorBits(XorBits(a, b, n), b, n) == a
  {
    if n > 0 {
      var x := XorBits(a / 2, b / 2, n - 1);
      XorCancels(a / 2, b / 2, n - 1);
      assert XorBits(a, b, n) / 2 == x;
    }
  }

  lemma {:induction false} XorBitsSwap(a: nat, b: nat, n: nat)
    ensures XorBits(a, b, n) == XorBits(b, a, n)
  {
    if n > 0 {
      XorBitsSwap(a / 2, b / 2, n - 1);
    }
  }

  lemma {:induction false} XorBitsZero(a: nat, n: nat)
    requires a < Pow2(n)
    ensures XorBits(a, 0, n) == a
  {
    if n > 0 {
      XorBitsZero(a / 2, n - 1);
    }
  }
}
