/**
 * The logarithm approximation below 256, as eight parabolas before rounding down. The split tables stand on
 * one inequality about it: splitting n pulses in two is never counted as likelier than one in 2^n ways.
 */
module LogCurve {
  import opened Arith
  import opened FixedPoint

  /** 65536 times the unrounded value, f / 128 into octave p. */
  function Arc(p: nat, f: nat): int {
    0x1_0000 * (128 * p + f) + 179 * (f * (128 - f))
  }

  function Curve(x: nat): int
    requires 1 <= x < 256
  {
    if x < 2 then Arc(0, 128 * (x - 1))
    else if x < 4 then Arc(1, 64 * (x - 2))
    else if x < 8 then Arc(2, 32 * (x - 4))
    else if x < 16 then Arc(3, 16 * (x - 8))
    else if x < 32 then Arc(4, 8 * (x - 16))
    else if x < 64 then Arc(5, 4 * (x - 32))
    else if x < 128 then Arc(6, 2 * (x - 64))
    else Arc(7, x - 128)
  }

  lemma CurveOfOne()
    ensures Curve(1) == 0
  {
  }

  lemma InOctave(x: nat, p: nat)
    requires p <= 7 && Pow2(p) <= x < Pow2(p + 1)
    ensures x > 0 && x < 256 && Ilog(x) == p + 1
  {
    IlogUnique(x, p);
    Pow2Mono(p + 1, 8);
    Pow2Values();
  }

  lemma ArcRounds(p: nat, f: nat)
    requires f <= 128
    ensures Arc(p, f) / 0x1_0000 == 128 * p + f + f * (128 - f) * 179 / 0x1_0000
  {
    var x := f * (128 - f) * 179;
    assert Arc(p, f) == (128 * p + f) * 0x1_0000 + x;
    DivModUnique(Arc(p, f), 0x1_0000, 128 * p + f + x / 0x1_0000, x % 0x1_0000);
  }

  lemma OctaveScale(x: nat, p: nat, d: nat)
    requires p <= 7 && d == Pow2(7 - p) && Pow2(p) <= x < Pow2(p + 1)
    ensures 0 <= d * x - 128 < 128
  {
    hide Pow2;
    Pow2Add(7 - p, p);
    Pow2Add(7 - p, p + 1);
    Pow2Values();
    ScaleInside(d, Pow2(p), Pow2(p + 1), x);
  }

  lemma ScaleInside(d: nat, a: nat, b: nat, x: nat)
    requires a <= x < b && d >= 1 && d * a == 128 && d * b == 256
    ensures 128 <= d * x < 256
  {
    MulOrder(d, a, x);
    MulOrder(d, x + 1, b);
  }

  lemma RoundsArc(x: int32, p: nat, d: nat)
    requires p <= 7 && d == Pow2(7 - p) && Pow2(p) <= x < Pow2(p + 1)
    ensures 0 <= d * x - 128 < 128 && Lin2log(x) == Arc(p, d * x - 128) / 0x1_0000
  {
    hide Arc, Ilog;
    InOctave(x, p);
    OctaveScale(x, p, d);
    DivModUnique(d * x, 128, 1, d * x - 128);
    assert Frac(x) == d * x - 128 by {
      assert x * Pow2(7 - p) == d * x;
      assert p == 7 ==> Pow2(0) == 1;
    }
    ArcRounds(p, d * x - 128);
  }

  /** The logarithm is the curve rounded down. */
  lemma LogRounds(x: int32)
    requires 1 <= x < 256
    ensures Lin2log(x) == Curve(x) / 0x1_0000
  {
    hide Arc, Lin2log;
    Pow2Values();
    assert Pow2(0) == 1 && Pow2(1) == 2 && Pow2(2) == 4 && Pow2(3) == 8 && Pow2(4) == 16;
    assert Pow2(5) == 32 && Pow2(6) == 64;
    if x < 2 { RoundsArc(x, 0, 128); }
    else if x < 4 { RoundsArc(x, 1, 64); }
    else if x < 8 { RoundsArc(x, 2, 32); }
    else if x < 16 { RoundsArc(x, 3, 16); }
    else if x < 32 { RoundsArc(x, 4, 8); }
    else if x < 64 { RoundsArc(x, 5, 4); }
    else if x < 128 { RoundsArc(x, 6, 2); }
    else { RoundsArc(x, 7, 1); }
  }

  // ---- Steps of the curve ----

  const LOW := 21823488
  const HIGH := 25180126
  const SLOPE := 77000

  /** A step of d along an octave, scaled by its place w: what it gains depends on the step's middle alone. */
  lemma ArcStep(p: nat, f: nat, d: nat, w: nat)
    requires f + d <= 128 && w * d == 256 + 2 * f + d && d >= 1
    ensures Arc(p, f + d) - Arc(p, f) == d * (88448 - 179 * (2 * f + d)) >= 42624 * d
    ensures LOW <= w * (Arc(p, f + d) - Arc(p, f)) <= HIGH
  {
    var g := 2 * f + d;
    assert (f + d) * (128 - (f + d)) - f * (128 - f) == d * (128 - g);
    MulOrder(d, 42624, 88448 - 179 * g);
    assert w * (d * (88448 - 179 * g)) == w * d * (88448 - 179 * g) == (256 + g) * (88448 - 179 * g);
    Hump(g);
  }

  lemma Hump(g: nat)
    requires g <= 256
    ensures LOW <= (256 + g) * (88448 - 179 * g) <= HIGH
  {
    MulOrder(256 - g, 0, 179 * g + 3200);
    Nearby(g - 119);
    assert (256 + g) * (88448 - 179 * g) == 22642688 + 42624 * g - 179 * (g * g);
    assert (256 - g) * (179 * g + 3200) == 819200 + 42624 * g - 179 * (g * g);
    assert (g - 119) * (g - 119) == g * g - 238 * g + 14161;
  }

  lemma Nearby(h: int)
    ensures 179 * (h * h) - 22 * h >= -1
  {
    assert h * (179 * h - 22) == 179 * (h * h) - 22 * h;
  }

  lemma Seams()
    ensures forall p: nat :: Arc(p, 128) == Arc(p + 1, 0)
  {
  }

  lemma CurveStep(x: nat)
    requires 1 <= x <= 158
    ensures Curve(x + 1) - Curve(x) >= SLOPE
    ensures LOW <= (2 * x + 1) * (Curve(x + 1) - Curve(x)) <= HIGH
  {
    hide Arc;
    Seams();
    var w := 2 * x + 1;
    if x < 2 { ArcStep(0, 0, 128, w); }
    else if x < 4 { ArcStep(1, 64 * (x - 2), 64, w); }
    else if x < 8 { ArcStep(2, 32 * (x - 4), 32, w); }
    else if x < 16 { ArcStep(3, 16 * (x - 8), 16, w); }
    else if x < 32 { ArcStep(4, 8 * (x - 16), 8, w); }
    else if x < 64 { ArcStep(5, 4 * (x - 32), 4, w); }
    else if x < 128 { ArcStep(6, 2 * (x - 64), 2, w); }
    else { ArcStep(7, x - 128, 1, w); }
  }

  lemma {:induction false} CurveRises(x: nat, y: nat)
    requires 1 <= x <= y <= 159
    ensures Curve(y) - Curve(x) >= SLOPE * (y - x)
  {
    hide Curve;
    if x < y {
      CurveRises(x, y - 1);
      CurveStep(y - 1);
    }
  }

  lemma CurveDoubles(x: nat)
    requires 1 <= x < 128
    ensures Curve(2 * x) == Curve(x) + 128 * 0x1_0000
  {
    hide Arc;
    if x < 2 { ArcAbove(0, 128 * (x - 1)); }
    else if x < 4 { ArcAbove(1, 64 * (x - 2)); }
    else if x < 8 { ArcAbove(2, 32 * (x - 4)); }
    else if x < 16 { ArcAbove(3, 16 * (x - 8)); }
    else if x < 32 { ArcAbove(4, 8 * (x - 16)); }
    else if x < 64 { ArcAbove(5, 4 * (x - 32)); }
    else { ArcAbove(6, 2 * (x - 64)); }
  }

  lemma ArcAbove(p: nat, f: nat)
    ensures Arc(p + 1, f) == Arc(p, f) + 128 * 0x1_0000
  {
  }

  lemma Midpoint(p: nat, f: nat, h: nat)
    requires f + 2 * h <= 128
    ensures 2 * Arc(p + 1, f + h) == Arc(p, f) + Arc(p, f + 2 * h) + 256 * 0x1_0000 + 358 * (h * h)
  {
    var ff, fh, hh := f * f, f * h, h * h;
    assert f * (128 - f) == 128 * f - ff;
    assert (f + h) * (128 - (f + h)) == 128 * (f + h) - (ff + 2 * fh + hh);
    assert (f + 2 * h) * (128 - (f + 2 * h)) == 128 * (f + 2 * h) - (ff + 4 * fh + 4 * hh);
  }

  lemma Middle(p: nat, f: nat, h: nat, w: nat)
    requires f + 2 * h <= 128 && w * (358 * (h * h)) <= 10264576
    ensures var rise := 2 * Arc(p + 1, f + h) - Arc(p, f) - Arc(p, f + 2 * h) - 256 * 0x1_0000;
            0 <= rise && w * rise <= 10264576
  {
    Midpoint(p, f, h);
  }

  /** Between two neighbours, doubled: above the middle of the chord, by little. */
  lemma CurveBetween(x: nat)
    requires 1 <= x < 127
    ensures var rise := 2 * Curve(2 * x + 1) - Curve(x) - Curve(x + 1) - 256 * 0x1_0000;
            0 <= rise && (4 * x + 3) * rise <= 10264576
  {
    hide Arc;
    Seams();
    if x < 2 { Middle(0, 0, 64, 4 * x + 3); }
    else if x < 4 { Middle(1, 64 * (x - 2), 32, 4 * x + 3); }
    else if x < 8 { Middle(2, 32 * (x - 4), 16, 4 * x + 3); }
    else if x < 16 { Middle(3, 16 * (x - 8), 8, 4 * x + 3); }
    else if x < 32 { Middle(4, 8 * (x - 16), 4, 4 * x + 3); }
    else if x < 64 { Middle(5, 4 * (x - 32), 2, 4 * x + 3); }
    else { Middle(6, 2 * (x - 64), 1, 4 * x + 3); }
  }

  lemma CurveBounds(x: nat)
    requires 1 <= x < 256
    ensures 0 <= Curve(x) <= 1100 * 0x1_0000
    ensures 3 <= x <= 80 ==> Curve(x) >= 0x1_0000 * (164 + 4 * x)
    ensures x >= 2 ==> Curve(x) >= 128 * 0x1_0000
  {
    hide Arc;
    if x < 2 { ArcBounds(0, 128 * (x - 1)); }
    else if x < 4 { ArcBounds(1, 64 * (x - 2)); }
    else if x < 8 { ArcBounds(2, 32 * (x - 4)); }
    else if x < 16 { ArcBounds(3, 16 * (x - 8)); }
    else if x < 32 { ArcBounds(4, 8 * (x - 16)); }
    else if x < 64 { ArcBounds(5, 4 * (x - 32)); }
    else if x < 128 { ArcBounds(6, 2 * (x - 64)); }
    else { ArcBounds(7, x - 128); }
  }

  lemma ArcBounds(p: nat, f: nat)
    requires f <= 128
    ensures 0x1_0000 * (128 * p + f) <= Arc(p, f) <= 0x1_0000 * (128 * p + f + 12)
  {
    assert f * (128 - f) == 4096 - (f - 64) * (f - 64);
    MulOrder(f, 0, 128 - f);
  }

  // ---- Splitting ----

  function Gain(x: nat): int
    requires 1 <= x < 256
  {
    (2 * x + 1) * Curve(x)
  }

  /** One pulse moved from the smaller part to the larger. */
  lemma Unbalance(k: nat, m: nat)
    requires 1 <= k < m <= 159
    ensures Gain(k) + Gain(m) >= Gain(k + 1) + Gain(m - 1) + 2 * SLOPE * (m - k - 1) - (HIGH - LOW)
  {
    hide Curve;
    CurveStep(k);
    CurveStep(m - 1);
    CurveRises(k + 1, m);
    assert Gain(m) - Gain(m - 1) == 2 * Curve(m) + (2 * m - 1) * (Curve(m) - Curve(m - 1));
    assert Gain(k + 1) - Gain(k) == 2 * Curve(k + 1) + (2 * k + 1) * (Curve(k + 1) - Curve(k));
  }

  /** Parts c - t and n - c + t against the even parts. */
  lemma {:induction false} Spread(n: nat, t: nat)
    requires 2 <= n <= 159 && t < n / 2
    ensures Gain(n / 2 - t) + Gain(n - n / 2 + t) >= Gain(n / 2) + Gain(n - n / 2) + 2 * SLOPE * (t * t)
            - (HIGH - LOW) * t
  {
    hide Gain;
    if t > 0 {
      Spread(n, t - 1);
      Unbalance(n / 2 - t, n - n / 2 + t);
      assert t * t == (t - 1) * (t - 1) + (2 * t - 1);
      MulOrder(2 * SLOPE, 2 * t - 1, n - n / 2 + t - (n / 2 - t) - 1);
    }
  }

  const LOSS := 18300000

  lemma SpreadLoss(t: nat)
    ensures 2 * SLOPE * (t * t) - (HIGH - LOW) * t >= -LOSS
  {
    var z := 4 * SLOPE * t - (HIGH - LOW);
    assert z * z >= 0;
    assert z * z == 16 * SLOPE * SLOPE * (t * t) - 8 * SLOPE * (HIGH - LOW) * t + (HIGH - LOW) * (HIGH - LOW);
  }

  const OCTAVE := 128 * 0x1_0000

  /** What splitting n evenly leaves beyond a factor 2^n. */
  function Rest(n: nat): int
    requires 2 <= n <= 159
  {
    Gain(n) - Gain(n / 2) - Gain(n - n / 2) - 2 * n * OCTAVE
  }

  lemma RestEven(c: nat)
    requires 1 <= c <= 79
    ensures Rest(2 * c) == OCTAVE - Curve(c)
  {
    hide Curve;
    CurveDoubles(c);
    TwiceEven(c, Curve(c));
  }

  lemma RestOdd(c: nat)
    requires 1 <= c <= 79
    ensures 2 * Rest(2 * c + 1) == (4 * c + 3) * (2 * Curve(2 * c + 1) - Curve(c) - Curve(c + 1) - 2 * OCTAVE)
                                   + Curve(c) - 3 * Curve(c + 1) + 2 * OCTAVE
  {
    hide Curve;
    assert (2 * c + 1) / 2 == c;
    TwiceOdd(c, Curve(c), Curve(c + 1), Curve(2 * c + 1));
  }

  lemma EvenSplit(n: nat)
    requires 2 <= n <= 159
    ensures -3 * 1100 * 0x1_0000 <= Rest(n) <= OCTAVE + 5132288 - Curve(n - n / 2)
  {
    hide Curve, Rest;
    var c := n / 2;
    CurveBounds(c);
    CurveBounds(n - c);
    if n % 2 == 0 {
      RestEven(c);
    } else {
      RestOdd(c);
      CurveBetween(c);
      CurveRises(c, c + 1);
      MulOrder(4 * c + 3, 0, 2 * Curve(n) - Curve(c) - Curve(c + 1) - 2 * OCTAVE);
    }
  }

  lemma TwiceEven(c: nat, x: int)
    ensures (4 * c + 1) * (x + OCTAVE) - (2 * c + 1) * x - (2 * c + 1) * x - 4 * c * OCTAVE == OCTAVE - x
  {
  }

  lemma TwiceOdd(c: nat, x: int, y: int, z: int)
    ensures 2 * ((4 * c + 3) * z - (2 * c + 1) * x - (2 * c + 3) * y - 2 * (2 * c + 1) * OCTAVE)
         == (4 * c + 3) * (2 * z - x - y - 2 * OCTAVE) + x - 3 * y + 2 * OCTAVE
  {
  }

  /** No split of n pulses into two non-empty parts gets close to a factor 2^n, however uneven. */
  lemma AnySplit(k: nat, m: nat)
    requires 1 <= k <= m && k + m <= 159
    ensures Gain(k + m) - Gain(k) - Gain(m) - 2 * (k + m) * OCTAVE + 0x1_0000 * (2 * (k + m) + 2) < 324 * 0x1_0000
  {
    hide Curve, Gain;
    var n := k + m;
    EvenSplit(n);
    Spread(n, n / 2 - k);
    SpreadLoss(n / 2 - k);
    CurveBounds(n - n / 2);
    if n <= 4 {
      SmallSpread(n / 2 - k);
    }
  }

  lemma SmallSpread(t: nat)
    requires t <= 1
    ensures 2 * SLOPE * (t * t) - (HIGH - LOW) * t >= -(HIGH - LOW)
  {
  }
}
