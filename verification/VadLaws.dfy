/** What the detector's filters, levels and ratios mean, apart from how they are computed. */
module VadLaws {
  import opened Arith
  import opened FixedPoint
  import opened FixedPointLaws
  import opened Vad

  // ---- The split ----

  /** The state in which either branch repeats its sample. */
  function Settled(even: int16, odd: int16): (s: Bank)
    ensures s.Ok()
  {
    Bank(1024 * even, 1024 * odd)
  }

  /** A settled constant goes wholly to the low band. */
  lemma ConstantIsLow(v: int16)
    ensures var s := Settled(v, v);
            Next(s, v, v) == s && Low(s, v, v) == v && High(s, v, v) == 0
  {
  }

  /** A settled alternation goes wholly to the high band, with the sign of its second sample. */
  lemma AlternatingIsHigh(v: int16)
    requires v > -0x8000
    ensures var s := Settled(v, -v);
            s.Ok() && Next(s, v, -v) == s && Low(s, v, -v) == 0 && High(s, v, -v) == -v
  {
  }

  /**
   * Either branch is an all-pass: its output moves from the state towards the sample by a fixed part of the
   * distance, 36214 or 7788 in 65536, and its state passes the sample by just as much.
   */
  lemma BranchesPass(s: int32, v: int16)
    requires -0x800_0000 <= s <= 0x800_0000
    ensures var (out, next) := Even(s, v); var y := 1024 * v - s;
            next - 1024 * v == out - s && 0x1_0000 * (out - s) <= 36214 * y < 0x1_0000 * (out - s + 1)
    ensures var (out, next) := Odd(s, v); var y := 1024 * v - s;
            next - 1024 * v == out - s && 0x1_0000 * (out - s) <= 7788 * y < 0x1_0000 * (out - s + 1)
  {
  }

  /** A state that every pair of samples so far reproduces is still there. */
  lemma {:induction false} StateStays(inp: seq<int16>, s: Bank, k: nat)
    requires s.Ok() && 2 * k <= |inp| && forall j :: 0 <= j < k ==> Next(s, inp[2 * j], inp[2 * j + 1]) == s
    ensures After(inp, s, k) == s
  {
    hide Next, Bank.Ok;
    if k > 0 {
      StateStays(inp, s, k - 1);
      assert Next(s, inp[2 * (k - 1)], inp[2 * (k - 1) + 1]) == s;
    }
  }

  /** The same value throughout. */
  predicate All(xs: seq<int16>, v: int16) {
    forall i :: 0 <= i < |xs| ==> xs[i] == v
  }

  /** Over a whole stretch: the low band repeats the constant, the high band is silent. */
  lemma ConstantBands(inp: seq<int16>, v: int16)
    requires All(inp, v)
    ensures var s := Settled(v, v); s.Ok() && All(Lows(inp, s), v) && All(Highs(inp, s), 0)
  {
    ConstantIsLow(v);
    hide Next, Low, High;
    var s := Settled(v, v);
    forall k | 0 <= k < |inp| / 2
      ensures LowAt(inp, s, k) == v && HighAt(inp, s, k) == 0
    {
      StateStays(inp, s, k);
    }
  }

  predicate Pair(inp: seq<int16>, v: int16, k: nat)
    requires v > -0x8000
  {
    2 * k + 1 < |inp| ==> inp[2 * k] == v && inp[2 * k + 1] == -v
  }

  /** Sample after sample v and its negative. */
  ghost predicate Alternates(inp: seq<int16>, v: int16) {
    v > -0x8000 && forall k: nat :: Pair(inp, v, k)
  }

  lemma PairAt(inp: seq<int16>, v: int16, k: nat)
    requires Alternates(inp, v) && 2 * k + 1 < |inp|
    ensures inp[2 * k] == v && inp[2 * k + 1] == -v
  {
    assert Pair(inp, v, k);
  }

  /** Over a whole stretch of alternation: the low band is silent, the high band constant. */
  lemma AlternatingBands(inp: seq<int16>, v: int16)
    requires Alternates(inp, v)
    ensures var s := Settled(v, -v); s.Ok() && All(Lows(inp, s), 0) && All(Highs(inp, s), -v)
  {
    AlternatingIsHigh(v);
    hide Next, Low, High, Alternates;
    var s := Settled(v, -v);
    forall k | 0 <= k < |inp| / 2
      ensures LowAt(inp, s, k) == 0 && HighAt(inp, s, k) == -v
    {
      forall j | 0 <= j < k + 1
        ensures Next(s, inp[2 * j], inp[2 * j + 1]) == s && inp[2 * j] == v && inp[2 * j + 1] == -v
      {
        PairAt(inp, v, j);
      }
      StateStays(inp, s, k);
    }
  }

  /** The high-pass holds a settled constant at zero. */
  lemma ConstantIsBlocked(x: int16)
    ensures var hp := Smulwb(B, x);
            HpOk(hp) && HpOut(hp, x) == 0 && HpNext(hp, x) == hp
  {
  }

  /** From rest it passes a sample turned over, scaled by 59310 parts in 65536. */
  lemma StepIsPassed(x: int16)
    ensures HpOut(0, x) == -(59310 * x / 0x1_0000)
  {
  }

  /** Each output is the scaled input's fall since the sample before, plus 53084 parts in 65536 of the last output. */
  lemma HighpassStep(hp: int32, x: int16, x': int16)
    requires HpOk(hp)
    ensures HpOut(HpNext(hp, x), x')
         == Sat16(59310 * x / 0x1_0000 - 59310 * x' / 0x1_0000 + 53084 * HpOut(hp, x) / 0x1_0000)
  {
  }

  lemma {:induction false} StaysBlocked(xs: seq<int16>, x: int16, k: nat)
    requires k <= |xs| && All(xs, x)
    ensures HpOk(Smulwb(B, x)) && HpAfter(xs, Smulwb(B, x), k) == Smulwb(B, x)
    ensures k < |xs| ==> HpAt(xs, Smulwb(B, x), k) == 0
  {
    ConstantIsBlocked(x);
    hide HpNext, HpOut, Smulwb;
    if k > 0 {
      StaysBlocked(xs, x, k - 1);
    }
  }

  lemma ConstantSilent(xs: seq<int16>, x: int16)
    requires All(xs, x)
    ensures HpOk(Smulwb(B, x)) && All(Highpassed(xs, Smulwb(B, x)), 0)
  {
    ConstantIsBlocked(x);
    hide HpAt, Smulwb;
    forall k | 0 <= k < |xs|
      ensures HpAt(xs, Smulwb(B, x), k) == 0
    {
      StaysBlocked(xs, x, k);
    }
  }

  /**
   * A frame that repeats one value, on settled splits, leaves nothing in the three upper bands; and nothing in
   * the lowest either once the high-pass has settled.
   */
  lemma SteadyFrame(pIn: seq<int16>, v: int16, hp: int32)
    requires |pIn| == FRAME && All(pIn, v) && HpOk(hp)
    ensures var bands := Bands(pIn, Settled(v, v), Settled(v, v), Settled(v, v), hp);
            && (forall b :: 1 <= b < BANDS ==> All(bands[b], 0))
            && (hp == Smulwb(B, v) ==> All(bands[0], 0))
  {
    hide All, Lows, Highs, Smulwb, Highpassed, Bank.Ok, Settled;
    var s := Settled(v, v);
    ConstantBands(pIn, v);
    ConstantBands(Lows(pIn, s), v);
    ConstantBands(Lows(Lows(pIn, s), s), v);
    ConstantSilent(Lows(Lows(Lows(pIn, s), s), s), v);
  }

  /** With the high-pass still at rest, what the lowest band starts with is its response to the value. */
  lemma LowestBand(pIn: seq<int16>, v: int16)
    requires |pIn| == FRAME && All(pIn, v)
    ensures FirstOf(Bands(pIn, Settled(v, v), Settled(v, v), Settled(v, v), 0)[0], HpOut(0, v))
  {
    hide All, Lows, Highs, HpOut, Bank.Ok, Settled, Highpassed, FirstOf;
    var s := Settled(v, v);
    ConstantBands(pIn, v);
    ConstantBands(Lows(pIn, s), v);
    ConstantBands(Lows(Lows(pIn, s), s), v);
    FirstResponse(Lows(Lows(Lows(pIn, s), s), s), v);
  }

  predicate FirstOf(xs: seq<int16>, v: int16) {
    xs != [] && xs[0] == v
  }

  lemma FirstResponse(xs: seq<int16>, v: int16)
    requires xs != [] && All(xs, v)
    ensures FirstOf(Highpassed(xs, 0), HpOut(0, v))
  {
    hide HpOut;
  }

  /** On a settled split an alternation reaches the highest band alone. */
  lemma HighestBand(pIn: seq<int16>, v: int16)
    requires |pIn| == FRAME && Alternates(pIn, v)
    ensures var s, rest := Settled(v, -v), Settled(0, 0);
            && s.Ok() && rest.Ok() && HpOk(0) && All(Bands(pIn, s, rest, rest, 0)[3], -v)
            && forall b :: 0 <= b < 3 ==> All(Bands(pIn, s, rest, rest, 0)[b], 0)
  {
    hide All, Lows, Highs, Highpassed, Bank.Ok, Settled;
    var s, rest := Settled(v, -v), Settled(0, 0);
    AlternatingBands(pIn, v);
    var low1 := Lows(pIn, s);
    ConstantBands(low1, 0);
    ConstantBands(Lows(low1, rest), 0);
    ConstantSilent(Lows(Lows(low1, rest), rest), 0);
  }

  // ---- Levels and ratios ----

  /** The floor of the smoothing falls as frames go by, from full at the start to none after a thousand. */
  lemma MinCoefFalls(a: int32, b: int32)
    requires 0 <= a <= b <= 1000
    ensures MinCoef(b) <= MinCoef(a) && MinCoef(0) == 32767 && MinCoef(1000) == 0
  {
    if b < 1000 {
      QuotientGrows(32767, b / 16 + 1, 32767, a / 16 + 1);
    }
  }

  /** In either range of the energy, 256 times it over the level, to within a unit of each. */
  lemma RatioNear(xnrg: int32, nl: int32)
    requires 1 <= nl < xnrg && nl <= NL_MAX
    ensures Ratio(xnrg, nl) * nl <= 256 * xnrg < (Ratio(xnrg, nl) + 1) * (nl + 256)
  {
    var r: nat := Ratio(xnrg, nl);
    if xnrg < 0x80_0000 {
      Bracket(256 * xnrg, nl + 1, r, nl, nl + 256);
    } else {
      var d := nl / 256 + 1;
      DivAtMost(xnrg, d);
      Scaled(xnrg, d, r);
      Bracket(256 * xnrg, 256 * d, r, nl, nl + 256);
    }
  }

  lemma Scaled(x: nat, d: nat, r: nat)
    requires r * d <= x < r * d + d
    ensures r * (256 * d) <= 256 * x < r * (256 * d) + 256 * d
  {
    assert r * (256 * d) == 256 * (r * d);
  }

  /** A quotient against any smaller and any larger divisor. */
  lemma Bracket(n: nat, d: nat, r: nat, low: nat, high: nat)
    requires low <= d <= high && r * d <= n < r * d + d
    ensures r * low <= n < (r + 1) * high
  {
    MulOrder(r, low, d);
    MulOrder(r + 1, d, high);
  }

  /** Louder bands have no smaller ratio to the same noise, and no smaller logarithm of it. */
  lemma SnrRises(x: int32, y: int32, nl: int32)
    requires 1 <= nl < x <= y && nl <= NL_MAX && (y < 0x80_0000 || x >= 0x80_0000)
    ensures Snr(x, nl) <= Snr(y, nl)
  {
    hide Lin2log;
    RatioRange(x, nl);
    RatioRange(y, nl);
    if y < 0x80_0000 {
      QuotientGrows(x * 256, nl + 1, y * 256, nl + 1);
    } else {
      QuotientGrows(x, nl / 256 + 1, y, nl / 256 + 1);
    }
    Lin2logRises(Ratio(x, nl), Ratio(y, nl));
  }

  /** In octaves: from 2^j times the noise up the logarithm is at least 128 j, and below that it is less. */
  lemma SnrOctaves(x: int32, nl: int32, j: nat)
    requires 1 <= nl < x && nl <= NL_MAX
    ensures x >= (nl + 256) * Pow2(j) ==> Snr(x, nl) >= 128 * j
    ensures x < nl * Pow2(j) ==> Snr(x, nl) < 128 * j
  {
    hide Lin2log, Pow2;
    var r, p := Ratio(x, nl), Pow2(j);
    RatioNear(x, nl);
    Pow2Add(8, j);
    Pow2Values();
    LogOctave(r, 8 + j);
    RatioOctaves(x, nl, r, p);
  }

  lemma RatioOctaves(x: nat, nl: nat, r: nat, p: nat)
    requires r * nl <= 256 * x < (r + 1) * (nl + 256)
    ensures x >= (nl + 256) * p ==> r >= 256 * p
    ensures x < nl * p ==> r < 256 * p
  {
    if r < 256 * p {
      MulOrder(nl + 256, r + 1, 256 * p);
    } else {
      MulOrder(nl, 256 * p, r);
    }
    assert (nl + 256) * (256 * p) == 256 * ((nl + 256) * p) && nl * (256 * p) == 256 * (nl * p);
  }

  /** With no band above its noise the activity is the sigmoid's resting value. */
  lemma QuietActivity(xnrg: seq<int32>, nl: seq<int32>)
    requires |xnrg| == |nl| == BANDS && forall i :: 0 <= i < BANDS ==> 0 <= xnrg[i] <= nl[i] && 1 <= nl[i] <= NL_MAX
    ensures Activity(xnrg, nl) == 4
  {
    assert SnrSum(xnrg, nl, 0) == SnrSum(xnrg, nl, 1) == SnrSum(xnrg, nl, 2) == SnrSum(xnrg, nl, 3) == 0;
    assert SqrtApprox(0) == 0;
  }

  /** The four bands one by one. */
  lemma SumOfBands(xnrg: seq<int32>, nl: seq<int32>)
    requires |xnrg| == |nl| == BANDS && forall i :: 0 <= i < BANDS ==> xnrg[i] >= 0 && 1 <= nl[i] <= NL_MAX
    ensures SnrSum(xnrg, nl, BANDS) == Share(xnrg[0], nl[0]) + Share(xnrg[1], nl[1]) + Share(xnrg[2], nl[2])
                                     + Share(xnrg[3], nl[3])
  {
    hide Snr;
    assert SnrSum(xnrg, nl, 1) == Share(xnrg[0], nl[0]);
    assert SnrSum(xnrg, nl, 2) == SnrSum(xnrg, nl, 1) + Share(xnrg[1], nl[1]);
    assert SnrSum(xnrg, nl, 3) == SnrSum(xnrg, nl, 2) + Share(xnrg[2], nl[2]);
  }

  /** What one band adds: the square of its logarithm, if it stands above its noise. */
  function Share(x: int32, nl: int32): int
    requires x >= 0 && 1 <= nl <= NL_MAX
  {
    if nl < x then Snr(x, nl) * Snr(x, nl) else 0
  }

  lemma ShareRange(x: int32, nl: int32)
    requires x >= 0 && 1 <= nl <= NL_MAX
    ensures nl < x && Snr(x, nl) >= 67 ==> Share(x, nl) >= 67 * 67
    ensures (nl < x ==> -62 <= Snr(x, nl) <= 62) ==> Share(x, nl) <= 62 * 62
  {
    hide Snr;
    if nl < x {
      var q := Snr(x, nl);
      if q >= 67 {
        MulOrder(q, 67, q);
      } else if -62 <= q <= 62 {
        MulOrder(62 - q, 0, 62 + q);
      }
    }
  }

  lemma RootRange(mean: int32)
    ensures mean >= 67 * 67 ==> SqrtApprox(mean) >= 63
    ensures mean <= 62 * 62 ==> SqrtApprox(mean) <= 62
  {
    NoRoot(mean);
    hide SqrtApprox;
    var root := SqrtApprox(mean);
    if mean > 0 {
      SqrtSquares(mean);
    }
    if root < 63 {
      MulOrder(root + 3, root + 3, 65);
      MulOrder(65, root + 3, 65);
    } else {
      MulOrder(63, 63, root);
      MulOrder(root, 63, root);
    }
  }

  lemma NoRoot(x: int32)
    ensures x <= 0 ==> SqrtApprox(x) == 0
  {
  }

  /** The detector is at half activity when every band stands about half an octave above its noise. */
  lemma HalfActivity(xnrg: seq<int32>, nl: seq<int32>)
    requires |xnrg| == |nl| == BANDS && forall i :: 0 <= i < BANDS ==> xnrg[i] >= 0 && 1 <= nl[i] <= NL_MAX
    ensures (forall i :: 0 <= i < BANDS ==> nl[i] < xnrg[i] && Snr(xnrg[i], nl[i]) >= 67) ==> Activity(xnrg, nl) >= 128
    ensures (forall i :: 0 <= i < BANDS && nl[i] < xnrg[i] ==> -62 <= Snr(xnrg[i], nl[i]) <= 62) ==>
              Activity(xnrg, nl) <= 127
  {
    hide Snr, SnrSum, SqrtApprox, Share;
    SumOfBands(xnrg, nl);
    ShareRange(xnrg[0], nl[0]);
    ShareRange(xnrg[1], nl[1]);
    ShareRange(xnrg[2], nl[2]);
    ShareRange(xnrg[3], nl[3]);
    RootRange(SnrSum(xnrg, nl, BANDS) / BANDS);
  }

  // ---- Noise levels ----

  /**
   * Once started up, a band quieter than its noise is followed with a 64th of the coefficient's range, one more
   * than eight times louder with an eighth of that, and in between in proportion to level over energy.
   */
  lemma CoefFollows(nl: int32, nrg: int32)
    requires 1 <= nl <= NL_MAX && 1 <= nrg
    ensures var c := Coef(nl, nrg, 0);
            && (nrg < nl ==> c == 1024) && (nrg > 8 * nl ==> c == 128)
            && (nl <= nrg <= 8 * nl ==> c * nrg <= 1024 * nl <= (c + 10) * nrg)
  {
    if nl <= nrg <= 8 * nl {
      var q := INT32_MAX / nrg;
      var t := q * nl / 0x1_0000;
      DivAtMost(INT32_MAX, nrg);
      MulOrder(nl, q * nrg, INT32_MAX);
      MulOrder(nl, INT32_MAX - nrg + 1, q * nrg);
      Proportion(nl, nrg, q, t, Coef(nl, nrg, 0));
    }
  }

  lemma Proportion(nl: nat, nrg: nat, q: nat, t: nat, c: nat)
    requires 1 <= nl <= nrg && nl <= NL_MAX && q * nrg <= INT32_MAX < q * nrg + nrg
    requires t == q * nl / 0x1_0000 && c == t * 2048 / 0x1_0000
    ensures c * nrg <= 1024 * nl <= (c + 10) * nrg
  {
    assert 32 * c <= t < 32 * (c + 1) && 0x1_0000 * t <= q * nl < 0x1_0000 * (t + 1);
    assert q * nl * nrg == nl * (q * nrg);
    MulOrder(nl, q * nrg, INT32_MAX);
    MulOrder(nl, INT32_MAX + 1 - nrg, q * nrg);
    MulOrder(nrg, 0x20_0000 * c, q * nl);
    MulOrder(nrg, q * nl, 0x20_0000 * (c + 1));
    MulOrder(nrg, nl, NL_MAX);
    assert nrg * (0x20_0000 * c) == 0x20_0000 * (c * nrg);
    assert nrg * (0x20_0000 * (c + 1)) == 0x20_0000 * (c * nrg + nrg);
    assert (c + 10) * nrg == c * nrg + 10 * nrg;
    assert nl * (INT32_MAX + 1 - nrg) == 0x8000_0000 * nl - nrg * nl;
  }

  /** The start-up floor only raises the coefficient. */
  lemma CoefFloor(nl: int32, nrg: int32, floor: int32)
    requires 1 <= nl <= NL_MAX && 1 <= nrg && 0 <= floor <= 32767
    ensures Coef(nl, nrg, floor) == if Coef(nl, nrg, 0) < floor then floor else Coef(nl, nrg, 0)
  {
    hide BaseCoef;
  }

  /**
   * The level's inverse moves towards the inverse of the biased energy, by the coefficient's part of the way,
   * and the level is what that inverse divides the range into.
   */
  lemma NoiseFollows(n: Noise, pX: int32, bias: int32, floor: int32)
    requires n.Ok() && pX >= 0 && bias >= 1 && 0 <= floor <= 32767
    ensures var nrg: int32 := if pX + bias > INT32_MAX then INT32_MAX else pX + bias;
            var r, way := NextNoise(n, pX, bias, floor), INT32_MAX / nrg - n.inv;
            && 0x1_0000 * (r.inv - n.inv) <= way * Coef(n.nl, nrg, floor) < 0x1_0000 * (r.inv - n.inv + 1)
            && r.nl * r.inv <= INT32_MAX && (r.nl < NL_MAX ==> INT32_MAX < (r.nl + 1) * r.inv)
  {
    hide Coef;
    var r := NextNoise(n, pX, bias, floor);
    DivAtMost(INT32_MAX, r.inv);
    MulOrder(r.inv, r.nl, INT32_MAX / r.inv);
  }

  /** A constant quarter has its scaled square times its length. */
  lemma {:induction false} ConstantSquares(x: seq<int16>, v: int16, n: nat)
    requires n <= |x| && forall i :: 0 <= i < n ==> x[i] == v
    ensures Vad.Squares(x, n) == n * (v / 8 * (v / 8))
  {
    if n > 0 {
      ConstantSquares(x, v, n - 1);
    }
  }
}
