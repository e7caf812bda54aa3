/** The 32-bit fixed-point primitives that the voice activity detector and the pulse tables share. */
module FixedPoint {
  import opened Arith

  const INT32_MAX := 0x7FFF_FFFF

  /** Truncation to 16 bits. */
  function Int16(a: int): (r: int16)
    ensures -0x8000 <= a < 0x8000 ==> r == a
  {
    (a + 0x8000) % 0x1_0000 - 0x8000
  }

  function Sat16(a: int): (r: int16)
    ensures -0x8000 <= a < 0x8000 ==> r == a
  {
    if a < -0x8000 then -0x8000 else if a > 0x7FFF then 0x7FFF else a
  }

  function Smulwb(a: int32, b: int32): int {
    a * Int16(b) / 0x1_0000
  }

  function Smlawb(a: int32, b: int32, c: int32): int {
    a + b * Int16(c) / 0x1_0000
  }

  function AddPosSat32(a: int32, b: int32): (r: int32)
    requires a >= 0 && b >= 0
    ensures r == if a + b > INT32_MAX then INT32_MAX else a + b
  {
    if (a + b) / 0x8000_0000 % 2 != 0 then INT32_MAX else a + b
  }

  /** Leading zeros of a positive number. */
  function Clz(x: int32): (lz: int)
    requires x > 0
    ensures 1 <= lz <= 31
  {
    BitLength(x);
    32 - Ilog(x)
  }

  lemma BitLength(x: int32)
    requires x > 0
    ensures 1 <= Ilog(x) <= 31
    ensures x < 0x100_0000 ==> Ilog(x) <= 24
    ensures x < 0x10_0000 ==> Ilog(x) <= 20
  {
    IlogExact(x);
    Pow2Values();
    Pow2Add(16, 4);
    if Ilog(x) > 31 {
      Pow2Mono(31, Ilog(x) - 1);
    }
    if Ilog(x) > 24 {
      Pow2Mono(24, Ilog(x) - 1);
    }
    if Ilog(x) > 20 {
      Pow2Mono(20, Ilog(x) - 1);
    }
  }

  /** The seven bits below the leading one. */
  function Frac(x: int32): (f: int32)
    requires x > 0
    ensures 0 <= f <= 127
  {
    BitLength(x);
    var e := Ilog(x) - 1;
    if e >= 7 then x / Pow2(e - 7) % 128 else x * Pow2(7 - e) % 128
  }

  /** About 128 log2 x. */
  function Lin2log(x: int32): (r: int32)
    requires x > 0
    ensures 0 <= r <= 3978
  {
    var f := Frac(x);
    Parabola(f);
    Smlawb(f, f * (128 - f), 179) + (31 - Clz(x)) * 128
  }

  lemma Parabola(f: int)
    requires 0 <= f <= 127
    ensures 0 <= f * (128 - f) <= 4096
  {
    assert f * (128 - f) == 4096 - (f - 64) * (f - 64);
  }

  /** About 2 to the q / 128: the inverse of Lin2log, zero below zero and saturated above 3967. */
  function Log2lin(q: int32): (r: int32)
    ensures 0 <= r && (q >= 0 ==> r >= 1)
    ensures q < 3840 ==> r < 0x4000_0000
  {
    if q < 0 then 0
    else if q >= 3967 then INT32_MAX
    else
      ExponentRange(q);
      if q < 2048 then Raised(Pow2(q / 128), BentDown(q % 128)) else RaisedFar(Pow2(q / 128), BentDown(q % 128))
  }

  /** The fraction f of an octave as a linear fraction. */
  function BentDown(f: int32): (r: int32)
    requires 0 <= f <= 127
    ensures 0 <= r <= 127
  {
    Parabola(f);
    Bend(f, f * (128 - f));
    Smlawb(f, Int16(f) * Int16(128 - f), -174)
  }

  lemma Bend(f: int, x: int)
    requires 0 <= f <= 127 && 0 <= x == f * (128 - f)
    ensures 0 <= f + x * -174 / 0x1_0000 <= f
  {
    assert x == 128 * f - f * f;
    assert f * f >= 0;
  }

  function Raised(out: int32, inner: int32): (r: int32)
    requires 1 <= out <= 0x8000 && 0 <= inner <= 127
    ensures out <= r <= 2 * out
  {
    MulOrder(out, 0, inner);
    MulOrder(out, inner, 128);
    out + out * inner / 128
  }

  function RaisedFar(out: int32, inner: int32): (r: int32)
    requires 1 <= out <= 0x4000_0000 && 0 <= inner <= 127
    ensures out <= r < 2 * out
  {
    MulOrder(out / 128, 0, inner);
    MulOrder(out / 128, inner, 127);
    out + out / 128 * inner
  }

  lemma ExponentRange(q: int)
    requires 0 <= q < 3967
    ensures Pow2(q / 128) <= 0x4000_0000
    ensures q < 2048 ==> Pow2(q / 128) <= 0x8000
    ensures q < 3840 ==> Pow2(q / 128) <= 0x2000_0000
  {
    Pow2Values();
    Pow2Add(15, 14);
    Pow2Mono(q / 128, 30);
    if q < 2048 {
      Pow2Mono(q / 128, 15);
    }
    if q < 3840 {
      Pow2Mono(q / 128, 29);
    }
  }

  function SqrtApprox(x: int32): (r: int32)
    ensures 0 <= r <= 65290
    ensures x < 0x100_0000 ==> r <= 4081
    ensures x < 0x10_0000 ==> r <= 1021
  {
    if x <= 0 then 0
    else
      var lz := Clz(x);
      var y := Shr(if lz % 2 != 0 then 32768 else 46214, lz / 2);
      RootBound(x, y);
      assert y * 27051 / 0x1_0000 <= y * 27051;
      RootStep(y, 213 * Frac(x));
      Smlawb(y, y, 213 * Frac(x))
  }

  lemma RootBound(x: int32, y: nat)
    requires x > 0 && y == Shr(if Clz(x) % 2 != 0 then 32768 else 46214, Clz(x) / 2)
    ensures y <= 46214
    ensures x < 0x100_0000 ==> y <= 2888
    ensures x < 0x10_0000 ==> y <= 722
  {
    BitLength(x);
    var y0: nat := if Clz(x) % 2 != 0 then 32768 else 46214;
    var s: nat := Clz(x) / 2;
    if x < 0x100_0000 {
      ShrMore(y0, 4, s);
    }
    if x < 0x10_0000 {
      ShrMore(y0, 6, s);
    }
  }

  lemma ShrMore(y: nat, a: nat, b: nat)
    requires a <= b
    ensures Shr(y, b) <= Shr(y, a)
  {
    ShrShr(y, a, b - a);
    DivAtMost(Shr(y, a), Pow2(b - a));
  }

  lemma RootStep(y: int, c: int)
    requires 0 <= y <= 46214 && 0 <= c <= 27051
    ensures 0 <= y * c <= y * 27051 && Int16(c) == c
  {
  }

  /** Piecewise linear between 0 and 32767: a start value and a slope for every 32 steps. */
  function SigmQ15(inQ5: int32): (r: int32)
    requires inQ5 > -0x8000_0000
    ensures 0 <= r <= 32767
  {
    if inQ5 < 0 then (if -inQ5 >= 192 then 0 else Falling(-inQ5)) else if inQ5 >= 192 then 32767 else Rising(inQ5)
  }

  function Rising(q: int32): (r: int32)
    requires 0 <= q < 192
    ensures 16384 <= r <= 32767
  {
    var d := q % 32;
    match q / 32
    case 0 => 16384 + 237 * d
    case 1 => 23955 + 153 * d
    case 2 => 28861 + 73 * d
    case 3 => 31213 + 30 * d
    case 4 => 32178 + 12 * d
    case _ => 32548 + 7 * d
  }

  function Falling(q: int32): (r: int32)
    requires 0 <= q < 192
    ensures 0 <= r <= 16384
  {
    var d := q % 32;
    match q / 32
    case 0 => 16384 - 237 * d
    case 1 => 8812 - 153 * d
    case 2 => 3906 - 73 * d
    case 3 => 1554 - 30 * d
    case 4 => 589 - 12 * d
    case _ => 219 - 7 * d
  }
}
