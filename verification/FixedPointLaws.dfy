/** What the fixed-point primitives approximate: logarithm, power, root and sigmoid. */
module FixedPointLaws {
  import opened Arith
  import opened FixedPoint

  /** x lies in the f-th of 128 equal steps of its octave. */
  lemma FracBounds(x: int32)
    requires x > 0
    ensures var e := Ilog(x) - 1;
            e >= 0 && (128 + Frac(x)) * Pow2(e) <= 128 * x < (129 + Frac(x)) * Pow2(e)
  {
    var e := Ilog(x) - 1;
    IlogExact(x);
    Pow2Values();
    Pow2Double(e);
    hide Pow2, Ilog;
    if e >= 7 {
      Pow2Add(e - 7, 7);
      FarStep(x, Pow2(e - 7), Pow2(e));
    } else {
      Pow2Add(e, 7 - e);
      NearStep(x, Pow2(e), Pow2(7 - e));
    }
  }

  lemma Pow2Double(e: nat)
    ensures Pow2(e + 1) == 2 * Pow2(e)
  {
  }

  lemma QuotientWithin(x: nat, d: nat, a: nat, b: nat)
    requires d > 0 && d * a <= x < d * b
    ensures a <= x / d < b
  {
    DivAtMost(x, d);
    var q := x / d;
    assert d * (q + 1) == q * d + d;
    Cancel(d, a, q + 1);
    Cancel(d, q, b);
  }

  lemma FarStep(x: nat, d: nat, p: nat)
    requires d > 0 && p == d * 128 && p <= x < 2 * p
    ensures var f := x / d % 128;
            (128 + f) * p <= 128 * x < (129 + f) * p
  {
    var q := x / d;
    DivAtMost(x, d);
    QuotientWithin(x, d, 128, 256);
    DivModUnique(q, 128, 1, q - 128);
    assert q * (d * 128) == 128 * (q * d);
    assert (q + 1) * (d * 128) == 128 * (q * d) + 128 * d;
  }

  lemma NearStep(x: nat, p: nat, d: nat)
    requires p > 0 && d > 0 && p * d == 128 && p <= x < 2 * p
    ensures var f := x * d % 128;
            (128 + f) * p <= 128 * x < (129 + f) * p
  {
    MulOrder(d, p, x);
    MulOrder(d, x + 1, 2 * p);
    assert d * (x + 1) == x * d + d && d * (2 * p) == 256;
    DivModUnique(x * d, 128, 1, x * d - 128);
    assert x * d * p == 128 * x by {
      assert x * d * p == x * (p * d);
    }
    assert (x * d + 1) * p == x * d * p + p;
  }

  // ---- The logarithm rises ----

  /** The bent fraction of an octave, before rounding, in 65536ths. */
  function Bow(f: int): int {
    0x1_0000 * f + 179 * (f * (128 - f))
  }

  lemma BowRises(f: int, g: int)
    requires 0 <= f <= g <= 128
    ensures Bow(f) <= Bow(g)
  {
    var d := g - f;
    assert g * (128 - g) - f * (128 - f) == d * (128 - f - g);
    MulOrder(d, -128, 128 - f - g);
  }

  lemma BowRounds(f: int)
    requires 0 <= f <= 127
    ensures f + f * (128 - f) * 179 / 0x1_0000 == Bow(f) / 0x1_0000
  {
    var t := f * (128 - f) * 179;
    assert Bow(f) == f * 0x1_0000 + t;
    DivModUnique(Bow(f), 0x1_0000, f + t / 0x1_0000, t % 0x1_0000);
  }

  lemma LogOfParts(x: int32)
    requires x > 0
    ensures Lin2log(x) == 128 * (Ilog(x) - 1) + Bow(Frac(x)) / 0x1_0000
  {
    hide Frac, Ilog, Pow2, Bow;
    Parabola(Frac(x));
    BowRounds(Frac(x));
  }

  lemma Lin2logRises(x: int32, y: int32)
    requires 0 < x <= y
    ensures Lin2log(x) <= Lin2log(y)
  {
    hide Frac, Lin2log, Ilog, Bow;
    LogOfParts(x);
    LogOfParts(y);
    FracBounds(x);
    FracBounds(y);
    var e, d := Ilog(x) - 1, Ilog(y) - 1;
    BowBounds(Frac(x));
    BowBounds(Frac(y));
    if e == d {
      if Frac(x) > Frac(y) {
        MulOrder(Pow2(e), 129 + Frac(y), 128 + Frac(x));
      }
      BowRises(Frac(x), Frac(y));
    } else {
      OctavesRise(x, y);
    }
  }

  /** The logarithm of a power of two is exact. */
  lemma LogOfPower(x: int32, e: nat)
    requires x > 0 && x == Pow2(e)
    ensures Lin2log(x) == 128 * e
  {
    hide *;
    Pow2Double(e);
    IlogUnique(x, e);
    FracBounds(x);
    LogOfParts(x);
    NoFraction(Frac(x), x);
    NoBow();
  }

  lemma NoFraction(f: nat, p: nat)
    requires p > 0 && (128 + f) * p <= 128 * p
    ensures f == 0
  {
    assert (128 + f) * p == 128 * p + f * p;
    if f > 0 {
      MulOrder(p, 1, f);
    }
  }

  lemma NoBow()
    ensures Bow(0) == 0
  {
  }

  /** Within octave e the logarithm stays between 128 e and 128 (e + 1). */
  lemma LogOctave(x: int32, e: nat)
    requires x > 0
    ensures x >= Pow2(e) ==> Lin2log(x) >= 128 * e
    ensures x < Pow2(e) ==> Lin2log(x) < 128 * e
  {
    hide Frac, Lin2log, Ilog, Pow2, Bow;
    LogOfParts(x);
    BowBounds(Frac(x));
    IlogExact(x);
    if x >= Pow2(e) {
      Pow2Less(e, Ilog(x));
    } else {
      Pow2Less(Ilog(x) - 1, e);
    }
  }

  lemma BowBounds(f: int)
    requires 0 <= f <= 127
    ensures 0 <= Bow(f) / 0x1_0000 <= 127
  {
    BowRises(0, f);
    BowRises(f, 127);
    assert Bow(127) == 0x1_0000 * 127 + 179 * 127;
  }

  lemma OctavesRise(x: nat, y: nat)
    requires 0 < x <= y
    ensures Ilog(x) <= Ilog(y)
  {
    IlogExact(x);
    IlogExact(y);
    Pow2Less(Ilog(x) - 1, Ilog(y));
  }

  // ---- The power rises, doubles with every octave, and inverts the logarithm ----

  lemma BentDownRises(f: int32, g: int32)
    requires 0 <= f <= g <= 127
    ensures BentDown(f) <= BentDown(g)
  {
    var d := g - f;
    assert g * (128 - g) - f * (128 - f) == d * (128 - f - g);
    MulOrder(d, 128 - f - g, 128);
    BentDownIs(f);
    BentDownIs(g);
  }

  lemma BentDownIs(f: int32)
    requires 0 <= f <= 127
    ensures BentDown(f) == (0x1_0000 * f - 174 * (f * (128 - f))) / 0x1_0000
  {
    var t := f * (128 - f) * -174;
    DivModUnique(0x1_0000 * f - 174 * (f * (128 - f)), 0x1_0000, f + t / 0x1_0000, t % 0x1_0000);
  }

  /** The power is 2^(q / 128) with the fraction bent, rounded down. */
  lemma PowerFloor(q: int32)
    requires 0 <= q < 3967
    ensures Log2lin(q) == Pow2(q / 128) * (128 + BentDown(q % 128)) / 128
  {
    hide BentDown, Pow2;
    var out, inner := Pow2(q / 128), BentDown(q % 128);
    ExponentRange(q);
    if q < 2048 {
      SplitOff(out, inner);
    } else {
      Pow2Add(q / 128 - 7, 7);
      Pow2Values();
      Whole(Pow2(q / 128 - 7), inner);
    }
  }

  lemma SplitOff(out: nat, inner: nat)
    ensures out * (128 + inner) / 128 == out + out * inner / 128
  {
    DivModUnique(out * (128 + inner), 128, out + out * inner / 128, out * inner % 128);
  }

  lemma Whole(d: nat, inner: nat)
    ensures d * 128 / 128 == d && d * 128 * (128 + inner) / 128 == d * 128 + d * inner == d * (128 + inner)
  {
    assert d * 128 * (128 + inner) == d * (128 + inner) * 128;
    DivModUnique(d * 128 * (128 + inner), 128, d * (128 + inner), 0);
  }

  /** Below seven octaves the power is the same shape seven octaves up, without its last seven bits. */
  lemma Log2linCoarse(q: int32)
    requires 0 <= q < 896
    ensures Log2lin(q) == Log2lin(q + 896) / 128
  {
    hide BentDown, Log2lin, Pow2;
    PowerFloor(q);
    PowerFloor(q + 896);
    Pow2Add(q / 128, 7);
    Pow2Values();
    Whole(Pow2(q / 128), BentDown(q % 128));
  }

  lemma Log2linDoubles(q: int32)
    requires 0 <= q && q + 128 < 3967
    ensures 2 * Log2lin(q) <= Log2lin(q + 128) <= 2 * Log2lin(q) + 1
    ensures q >= 896 ==> Log2lin(q + 128) == 2 * Log2lin(q)
  {
    hide BentDown, Log2lin, Pow2;
    PowerFloor(q);
    PowerFloor(q + 128);
    assert Pow2(q / 128 + 1) == 2 * Pow2(q / 128) by {
      Pow2Next(q / 128);
    }
    var n := Pow2(q / 128) * (128 + BentDown(q % 128));
    assert Pow2(q / 128 + 1) * (128 + BentDown(q % 128)) == 2 * n;
    if q >= 896 {
      Pow2Add(q / 128 - 7, 7);
      Pow2Values();
      Whole(Pow2(q / 128 - 7), BentDown(q % 128));
    }
  }

  lemma Pow2Next(n: nat)
    ensures Pow2(n + 1) == 2 * Pow2(n)
  {
  }

  lemma Log2linRises(q: int32, r: int32)
    requires q <= r
    ensures Log2lin(q) <= Log2lin(r)
  {
    if 0 <= q && r < 3967 {
      hide BentDown, Log2lin, Pow2;
      PowerFloor(q);
      PowerFloor(r);
      if q / 128 == r / 128 {
        BentDownRises(q % 128, r % 128);
        MulOrder(Pow2(q / 128), 128 + BentDown(q % 128), 128 + BentDown(r % 128));
      } else {
        Pow2Next(q / 128);
        Pow2Mono(q / 128 + 1, r / 128);
        MulOrder(Pow2(q / 128), 128 + BentDown(q % 128), 256);
        MulOrder(Pow2(r / 128), 128, 128 + BentDown(r % 128));
      }
    }
  }

  /** From seven octaves up the power undoes the logarithm to within three steps below and one above. */
  lemma Log2linInverts(q: int32)
    requires 896 <= q < 3967
    ensures q - 3 <= Lin2log(Log2lin(q)) <= q + 1
  {
    hide BentDown, Log2lin, Lin2log, Pow2, Bow, Ilog, Frac;
    var p, f := q / 128, q % 128;
    var i, d := BentDown(f), Pow2(p - 7);
    PowerFloor(q);
    Pow2Add(p - 7, 7);
    Pow2Values();
    Whole(d, i);
    PartsOfPower(Log2lin(q), p, d, i);
    LogOfParts(Log2lin(q));
    NearInverse(f);
  }

  /** Octave and fraction of 128 + i units of an octave. */
  lemma PartsOfPower(x: int32, p: nat, d: nat, i: nat)
    requires x > 0 && p >= 7 && d == Pow2(p - 7) && i <= 127 && x == d * (128 + i)
    ensures Ilog(x) == p + 1 && Frac(x) == i
  {
    hide Pow2;
    Pow2Add(p - 7, 7);
    Pow2Values();
    Pow2Double(p);
    MulOrder(d, 128, 128 + i);
    MulOrder(d, 129 + i, 256);
    assert d * (129 + i) == x + d;
    IlogUnique(x, p);
    hide Ilog;
    DivModUnique(x, d, 128 + i, 0);
    DivModUnique(128 + i, 128, 1, i);
  }

  /** Bending down by del and back up again: k bounds how far f can be from the middle of the octave. */
  lemma BentBack(f: int, del: nat, k: int)
    requires k >= 0 && 0 <= f <= 127 && 0x1_0000 * (del - 1) < 174 * (f * (128 - f)) <= 0x1_0000 * del
    requires 174 * (4096 - (k + 1) * (k + 1)) <= 0x1_0000 * (del - 1)
    requires 179 * 0x1_0000 * del + 174 * 179 * (2 * (del * k) - del * del) < 174 * 0x1_0000 * (del + 2)
    requires 179 * 0x1_0000 * (del - 1) - 174 * 179 * (2 * (del * k) + del * del) >= 174 * 0x1_0000 * (del - 3)
    ensures 0x1_0000 * (f - 3) <= Bow(f - del) < 0x1_0000 * (f + 2)
  {
    hide Bow;
    var h := f - 64;
    assert f * (128 - f) == 4096 - h * h;
    NearMiddle(h, k);
    MulOrder(del, h, k);
    MulOrder(del, -k, h);
    assert del * -k == -(del * k);
    BowShift(f, del);
    BentBounds(f, del, f * (128 - f), del * h, del * k, del * del, Bow(f - del));
  }

  lemma BowShift(f: int, del: int)
    ensures Bow(f - del) == 0x1_0000 * (f - del) + 179 * (f * (128 - f) + 2 * (del * (f - 64)) - del * del)
  {
    assert (f - del) * (128 - (f - del)) == f * (128 - f) + 2 * (del * (f - 64)) - del * del;
  }

  lemma BentBounds(f: int, del: int, g: int, dh: int, dk: int, dd: int, bow: int)
    requires bow == 0x1_0000 * (f - del) + 179 * (g + 2 * dh - dd) && -dk <= dh <= dk
    requires 0x1_0000 * (del - 1) < 174 * g <= 0x1_0000 * del
    requires 179 * 0x1_0000 * del + 174 * 179 * (2 * dk - dd) < 174 * 0x1_0000 * (del + 2)
    requires 179 * 0x1_0000 * (del - 1) - 174 * 179 * (2 * dk + dd) >= 174 * 0x1_0000 * (del - 3)
    ensures 0x1_0000 * (f - 3) <= bow < 0x1_0000 * (f + 2)
  {
  }

  lemma NearMiddle(h: int, k: int)
    requires k >= 0 && h * h < (k + 1) * (k + 1)
    ensures -k <= h <= k
  {
    var a := if h < 0 then -h else h;
    assert a * a == h * h;
    SquareLess(a, k + 1);
  }

  lemma SquareLess(a: nat, b: nat)
    requires a * a < b * b
    ensures a < b
  {
    if a >= b {
      MulOrder(a, b, a);
      MulOrder(b, b, a);
    }
  }

  lemma CeilOf(f: int, t: int, del: int)
    requires 0 <= t <= 712704 && f - del == (0x1_0000 * f - t) / 0x1_0000
    ensures 0 <= del <= 11 && 0x1_0000 * (del - 1) < t <= 0x1_0000 * del
  {
  }

  lemma NoBend(f: int)
    requires 0 <= f <= 127 && 174 * (f * (128 - f)) <= 0
    ensures f == 0 && Bow(0) == 0
  {
    if f > 0 {
      MulOrder(f, 1, 128 - f);
    }
  }

  /** How far from the middle of the octave a fraction bent down by del can be. */
  function Reach(del: nat): (k: nat)
    requires 1 <= del <= 11
  {
    [63, 60, 57, 54, 50, 47, 42, 38, 32, 26, 18][del - 1]
  }

  lemma ReachEnough(del: nat)
    requires 1 <= del <= 11
    ensures var k := Reach(del);
            && 174 * (4096 - (k + 1) * (k + 1)) <= 0x1_0000 * (del - 1)
            && 179 * 0x1_0000 * del + 174 * 179 * (2 * (del * k) - del * del) < 174 * 0x1_0000 * (del + 2)
            && 179 * 0x1_0000 * (del - 1) - 174 * 179 * (2 * (del * k) + del * del) >= 174 * 0x1_0000 * (del - 3)
  {
  }

  lemma NearInverse(f: int32)
    requires 0 <= f <= 127
    ensures f - 3 <= Bow(BentDown(f)) / 0x1_0000 <= f + 1
  {
    hide Bow, BentDown;
    BentDownIs(f);
    Parabola(f);
    var del := f - BentDown(f);
    CeilOf(f, 174 * (f * (128 - f)), del);
    if del == 0 {
      NoBend(f);
    } else {
      hide Reach;
      ReachEnough(del);
      BentBack(f, del, Reach(del));
    }
  }

  // ---- The sigmoid ----

  /** The sigmoid rises from one step to the next except at two seams of its segments, where it falls by two. */
  lemma SigmStep(q: int32)
    requires -0x8000_0000 < q < 0x7FFF_FFFF
    ensures SigmQ15(q) <= SigmQ15(q + 1) <==> q != 159 && q != -160
    ensures SigmQ15(159) == SigmQ15(160) + 2 && SigmQ15(-160) == SigmQ15(-159) + 2
  {
    if 0 <= q < 191 {
      RisingStep(q);
    } else if -191 <= q < 0 {
      FallingStep(-q - 1);
    }
  }

  lemma RisingStep(q: int32)
    requires 0 <= q < 191
    ensures Rising(q) <= Rising(q + 1) <==> q != 159
  {
  }

  lemma FallingStep(q: int32)
    requires 0 <= q < 191
    ensures Falling(q + 1) <= Falling(q) <==> q != 159
  {
  }

  lemma {:induction false} SigmStretch(q: int32, r: int32)
    requires -0x8000_0000 < q <= r && (r <= -160 || -159 <= q <= r <= 159 || 160 <= q)
    ensures SigmQ15(q) <= SigmQ15(r)
    decreases r - q
  {
    hide SigmQ15;
    if q < r {
      SigmStretch(q, r - 1);
      SigmStep(r - 1);
    }
  }

  /** Over any distance it never falls by more than those two units. */
  lemma SigmRises(q: int32, r: int32)
    requires -0x8000_0000 < q <= r
    ensures SigmQ15(q) <= SigmQ15(r) + 2
  {
    SigmStep(0);
    if q < 0 <= r {
      AcrossMiddle(q, r);
    } else {
      hide SigmQ15;
      if r < 0 && q <= -160 < r {
        SigmStretch(q, -160);
        SigmStretch(-159, r);
      } else if 0 <= q <= 159 < r {
        SigmStretch(q, 159);
        SigmStretch(160, r);
      } else {
        SigmStretch(q, r);
      }
    }
  }

  lemma AcrossMiddle(q: int32, r: int32)
    requires -0x8000_0000 < q < 0 <= r
    ensures SigmQ15(q) <= 16384 <= SigmQ15(r)
  {
  }

  /** Odd about one half, to within a unit. */
  lemma SigmMirrors(q: int32)
    requires 0 <= q
    ensures 32767 <= SigmQ15(q) + SigmQ15(-q) <= 32768
    ensures SigmQ15(0) == 16384
  {
  }

  // ---- The square of the root is near ----

  /** y is the integer part of num * p / 32768: the scaled first guess, below and within one. */
  lemma FirstGuess(num: nat, j: nat)
    requires j <= 15
    ensures var y := Shr(num, 15 - j);
            y * 0x8000 <= num * Pow2(j) < (y + 1) * 0x8000
  {
    hide Pow2;
    var d, p := Pow2(15 - j), Pow2(j);
    Pow2Add(15 - j, j);
    Pow2Values();
    DivAtMost(num, d);
    var y := num / d;
    Chain(y, d, num % d, p, num);
  }

  lemma Chain(y: nat, d: nat, r: nat, p: nat, num: nat)
    requires num == y * d + r && r < d && d * p == 0x8000 && p > 0
    ensures y * 0x8000 <= num * p < (y + 1) * 0x8000
  {
    assert num * p == y * (d * p) + r * p by {
      assert y * d * p == y * (d * p);
    }
    MulOrder(p, r + 1, d);
    assert p * (r + 1) == r * p + p;
  }

  /** The steps of the root, as products: the guess y, the fraction f of the octave e, the result r. */
  lemma RootParts(x: int32)
    requires x > 0
    ensures 1 <= Ilog(x) <= 31
    ensures var e, f := Ilog(x) - 1, Frac(x);
            var y := Shr(if e % 2 == 0 then 32768 else 46214, 15 - e / 2);
            SqrtApprox(x) == y + y * (213 * f) / 0x1_0000
  {
    hide Shr, Pow2, Ilog, Frac;
    BitLength(x);
    var e := Ilog(x) - 1;
    assert (31 - e) % 2 != 0 <==> e % 2 == 0;
    assert (31 - e) / 2 == 15 - e / 2;
    var y := Shr(if e % 2 == 0 then 32768 else 46214, 15 - e / 2);
    RootBound(x, y);
    RootStep(y, 213 * Frac(x));
  }

  lemma RoundedUp(y: nat, f: nat)
    ensures var s := y + y * (213 * f) / 0x1_0000;
            0x1_0000 * s <= y * (0x1_0000 + 213 * f) < 0x1_0000 * (s + 1)
  {
    assert y * (0x1_0000 + 213 * f) == 0x1_0000 * y + y * (213 * f);
  }

  lemma Squares(a: nat, b: nat)
    requires a <= b
    ensures a * a <= b * b
  {
    MulOrder(a, a, b);
    MulOrder(b, a, b);
  }

  lemma Fraction(f: nat)
    requires f <= 127
    ensures var a := 0x1_0000 + 213 * f;
            && 512 * 128 * (a * a) <= 513 * 0x1_0000_0000 * (128 + f)
            && 2540 * (a * a) >= 19 * 0x1_0000_0000 * (129 + f)
  {
    var a, ff := 0x1_0000 + 213 * f, f * f;
    MulOrder(f, f, 127);
    assert a * a == 0x1_0000_0000 + 27918336 * f + 45369 * ff;
    assert (f - 50) * (f - 50) == ff - 100 * f + 2500;
    assert (f - 50) * (f - 50) >= 0;
  }

  /** The square of the root is at most a five-hundredth above x, and close below once rounding is made up for. */
  lemma SqrtSquares(x: int32)
    requires x > 0
    ensures var s := SqrtApprox(x);
            512 * (s * s) <= 513 * x && 20 * ((s + 3) * (s + 3)) >= 19 * x
  {
    hide Shr, Pow2, Ilog, Frac, SqrtApprox;
    RootParts(x);
    FracBounds(x);
    var e, f := Ilog(x) - 1, Frac(x);
    var num := if e % 2 == 0 then 32768 else 46214;
    var y := Shr(num, 15 - e / 2);
    FirstGuess(num, e / 2);
    RoundedUp(y, f);
    OctaveSquare(e);
    RootAbove(x, f, y, num, Pow2(e / 2), Pow2(e), SqrtApprox(x));
    RootBelow(x, f, y, num, Pow2(e / 2), Pow2(e), SqrtApprox(x));
  }

  lemma OctaveSquare(e: nat)
    ensures Pow2(e) == if e % 2 == 0 then Pow2(e / 2) * Pow2(e / 2) else 2 * (Pow2(e / 2) * Pow2(e / 2))
  {
    Pow2Add(e / 2, e / 2);
    if e % 2 != 0 {
      Pow2Next(e - 1);
    }
  }

  /** Both sides of a scaled inequality times o. */
  lemma Times(c: nat, u: nat, d: nat, v: nat, o: nat)
    requires c * u <= d * v
    ensures c * (u * o) <= d * (v * o)
  {
    MulOrder(o, c * u, d * v);
    assert o * (c * u) == c * (u * o) && o * (d * v) == d * (v * o);
  }

  lemma ProductSquare(a: nat, b: nat)
    ensures a * b * (a * b) == a * a * (b * b)
  {
    assert a * b * (a * b) == a * (b * (a * b)) && b * (a * b) == a * (b * b);
    assert a * (a * (b * b)) == a * a * (b * b);
  }

  predicate Scale(num: nat, p: nat, o: nat) {
    (num == 32768 && o == p * p) || (num == 46214 && o == 2 * (p * p))
  }

  lemma GuessBelow(y: nat, num: nat, p: nat, o: nat)
    requires y * 0x8000 <= num * p && Scale(num, p, o)
    ensures y * y <= o
  {
    Squares(y * 0x8000, num * p);
    ProductSquare(y, 0x8000);
    ProductSquare(num, p);
  }

  lemma RootAbove(x: nat, f: nat, y: nat, num: nat, p: nat, o: nat, s: nat)
    requires f <= 127 && (128 + f) * o <= 128 * x && y * 0x8000 <= num * p && Scale(num, p, o)
    requires 0x1_0000 * s <= y * (0x1_0000 + 213 * f)
    ensures 512 * (s * s) <= 513 * x
  {
    var a := 0x1_0000 + 213 * f;
    GuessBelow(y, num, p, o);
    Squares(0x1_0000 * s, y * a);
    ProductSquare(0x1_0000, s);
    ProductSquare(y, a);
    MulOrder(a * a, y * y, o);
    Fraction(f);
    Times(512 * 128, a * a, 513 * 0x1_0000_0000, 128 + f, o);
    AboveChain(s * s, y * y * (a * a), a * a * o, (128 + f) * o, x);
  }

  lemma AboveChain(ss: nat, ya: nat, ao: nat, fo: nat, x: nat)
    requires 0x1_0000 * 0x1_0000 * ss <= ya <= ao && fo <= 128 * x
    requires 512 * 128 * ao <= 513 * 0x1_0000_0000 * fo
    ensures 512 * ss <= 513 * x
  {
  }

  lemma GuessAbove(num: nat, p: nat, o: nat)
    requires Scale(num, p, o)
    ensures 128 * (num * p * (num * p)) >= 127 * 0x4000_0000 * o
  {
    ProductSquare(num, p);
  }

  lemma RootBelow(x: nat, f: nat, y: nat, num: nat, p: nat, o: nat, s: nat)
    requires f <= 127 && 128 * x < (129 + f) * o && num * p < (y + 1) * 0x8000 && Scale(num, p, o)
    requires y * (0x1_0000 + 213 * f) < 0x1_0000 * (s + 1)
    ensures 20 * ((s + 3) * (s + 3)) >= 19 * x
  {
    var a, t, g := 0x1_0000 + 213 * f, s + 3, num * p;
    ReachesRoot(a, t, y, g);
    Squares(a * g, 0x8000_0000 * t);
    ProductSquare(a, g);
    ProductSquare(0x8000_0000, t);
    GuessAbove(num, p, o);
    MulOrder(a * a, 127 * 0x4000_0000 * o, 128 * (g * g));
    assert a * a * (127 * 0x4000_0000 * o) == 127 * 0x4000_0000 * (a * a * o);
    assert a * a * (128 * (g * g)) == 128 * (a * a * (g * g));
    Fraction(f);
    Times(19 * 0x1_0000_0000, 129 + f, 2540, a * a, o);
    BelowChain(t * t, a * a * (g * g), a * a * o, (129 + f) * o, x);
  }

  lemma ReachesRoot(a: nat, t: nat, y: nat, g: nat)
    requires a <= 0x2_0000 && t >= 3 && y * a < 0x1_0000 * (t - 2) && g < (y + 1) * 0x8000
    ensures a * g <= 0x8000_0000 * t
  {
    assert (y + 1) * a == y * a + a;
    MulOrder(a, g, (y + 1) * 0x8000);
    assert a * ((y + 1) * 0x8000) == 0x8000 * ((y + 1) * a);
  }

  lemma BelowChain(tt: nat, ag: nat, ao: nat, fo: nat, x: nat)
    requires ag <= 0x8000_0000 * 0x8000_0000 * tt && 127 * 0x4000_0000 * ao <= 128 * ag && 128 * x < fo
    requires 19 * 0x1_0000_0000 * fo <= 2540 * ao
    ensures 20 * tt >= 19 * x
  {
  }
}
