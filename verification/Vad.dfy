/**
 * The fixed-point voice activity detector. Every sum and product the code keeps in 32 bits is typed
 * int32 here, so each assignment proves that it cannot overflow; floor division stands for the shifts.
 */
module Vad {
  import opened Arith
  import opened FixedPoint

  const BANDS := 4
  const SUBFRAMES := 4
  const FRAME := 320
  const FRAMES := 3
  const SMOOTH := 1024
  const NL_MAX := 0x00FF_FFFF
  const FB0 := 7788
  const FB1 := -29322
  const DTX_THRES := 12
  const HANGOVER_MS := 60

  // ---- The two-band split ----

  datatype Bank = Bank(s0: int32, s1: int32) {
    predicate Ok() {
      -0x800_0000 <= s0 <= 0x800_0000 && -0x800_0000 <= s1 <= 0x800_0000
    }
  }

  function RshiftRound11(a: int32): int32 {
    (a / 1024 + 1) / 2
  }

  /** The allpass branches on a pair of samples, and what they leave behind. */
  function Even(s0: int32, a: int16): (r: (int32, int32))
    requires -0x800_0000 <= s0 <= 0x800_0000
    ensures -0x800_0000 <= r.1 <= 0x800_0000 && -0x1000_0000 <= r.0 <= 0x1000_0000
  {
    var in32: int32 := a * 1024;
    var y: int32 := in32 - s0;
    var x: int32 := Smlawb(y, y, FB1);
    (s0 + x, in32 + x)
  }

  function Odd(s1: int32, b: int16): (r: (int32, int32))
    requires -0x800_0000 <= s1 <= 0x800_0000
    ensures -0x800_0000 <= r.1 <= 0x800_0000 && -0x1000_0000 <= r.0 <= 0x1000_0000
  {
    var in32: int32 := b * 1024;
    var y: int32 := in32 - s1;
    var x: int32 := Smulwb(y, FB0);
    (s1 + x, in32 + x)
  }

  function Next(s: Bank, a: int16, b: int16): (r: Bank)
    requires s.Ok()
    ensures r.Ok()
  {
    Bank(Even(s.s0, a).1, Odd(s.s1, b).1)
  }

  function Low(s: Bank, a: int16, b: int16): int16
    requires s.Ok()
  {
    Sat16(RshiftRound11(Odd(s.s1, b).0 + Even(s.s0, a).0))
  }

  function High(s: Bank, a: int16, b: int16): int16
    requires s.Ok()
  {
    Sat16(RshiftRound11(Odd(s.s1, b).0 - Even(s.s0, a).0))
  }

  /** The state after k pairs. */
  function After(inp: seq<int16>, s: Bank, k: nat): (r: Bank)
    requires s.Ok() && 2 * k <= |inp|
    ensures r.Ok()
  {
    if k == 0 then s else Next(After(inp, s, k - 1), inp[2 * k - 2], inp[2 * k - 1])
  }

  function LowAt(inp: seq<int16>, s: Bank, k: nat): int16
    requires s.Ok() && 2 * k + 1 < |inp|
  {
    Low(After(inp, s, k), inp[2 * k], inp[2 * k + 1])
  }

  function HighAt(inp: seq<int16>, s: Bank, k: nat): int16
    requires s.Ok() && 2 * k + 1 < |inp|
  {
    High(After(inp, s, k), inp[2 * k], inp[2 * k + 1])
  }

  /** The two bands of an even number of samples, half as many each. */
  function Lows(inp: seq<int16>, s: Bank): (r: seq<int16>)
    requires s.Ok()
    ensures |r| == |inp| / 2
  {
    seq(|inp| / 2, k requires 0 <= k < |inp| / 2 => LowAt(inp, s, k))
  }

  function Highs(inp: seq<int16>, s: Bank): (r: seq<int16>)
    requires s.Ok()
    ensures |r| == |inp| / 2
  {
    seq(|inp| / 2, k requires 0 <= k < |inp| / 2 => HighAt(inp, s, k))
  }

  lemma BankStep(inp: seq<int16>, s: Bank, k: nat)
    requires s.Ok() && 2 * k + 1 < |inp|
    ensures After(inp, s, k + 1) == Next(After(inp, s, k), inp[2 * k], inp[2 * k + 1])
    ensures LowAt(inp, s, k) == Low(After(inp, s, k), inp[2 * k], inp[2 * k + 1])
    ensures HighAt(inp, s, k) == High(After(inp, s, k), inp[2 * k], inp[2 * k + 1])
  {
  }

  lemma AfterNone(inp: seq<int16>, s: Bank)
    requires s.Ok()
    ensures After(inp, s, 0) == s
  {
  }

  lemma BandsAre(inp: seq<int16>, s: Bank, low: seq<int16>, high: seq<int16>)
    requires s.Ok() && |low| == |high| == |inp| / 2
    requires forall j :: 0 <= j < |low| ==> low[j] == LowAt(inp, s, j) && high[j] == HighAt(inp, s, j)
    ensures low == Lows(inp, s) && high == Highs(inp, s)
  {
    hide LowAt, HighAt;
  }

  method SplitPair(a: int16, b: int16, s: Bank) returns (next: Bank, low: int16, high: int16)
    requires s.Ok()
    ensures next == Next(s, a, b) && low == Low(s, a, b) && high == High(s, a, b)
  {
    var in32: int32 := a * 1024;
    var y: int32 := in32 - s.s0;
    var x: int32 := Smlawb(y, y, FB1);
    var out1: int32 := s.s0 + x;
    var s0: int32 := in32 + x;
    in32 := b * 1024;
    y := in32 - s.s1;
    x := Smulwb(y, FB0);
    var out2: int32 := s.s1 + x;
    next := Bank(s0, in32 + x);
    low := Sat16(RshiftRound11(out2 + out1));
    high := Sat16(RshiftRound11(out2 - out1));
  }

  /** The split into separate places of x: low band at the front, high band from hiOff. */
  method AnaFiltBank1(inp: seq<int16>, s: Bank, x: array<int16>, hiOff: nat) returns (next: Bank)
    requires s.Ok() && |inp| % 2 == 0 && |inp| / 2 <= hiOff && hiOff + |inp| / 2 <= x.Length
    modifies x
    ensures next == After(inp, s, |inp| / 2)
    ensures x[..|inp| / 2] == Lows(inp, s) && x[hiOff..hiOff + |inp| / 2] == Highs(inp, s)
  {
    hide Next, Low, High, After, LowAt, HighAt, Lows, Highs;
    AfterNone(inp, s);
    next := s;
    var n2 := |inp| / 2;
    for k := 0 to n2
      invariant next == After(inp, s, k)
      invariant forall j :: 0 <= j < k ==> x[j] == LowAt(inp, s, j) && x[hiOff + j] == HighAt(inp, s, j)
    {
      BankStep(inp, s, k);
      var low, high;
      next, low, high := SplitPair(inp[2 * k], inp[2 * k + 1], next);
      x[k] := low;
      x[hiOff + k] := high;
    }
    BandsAre(inp, s, x[..n2], x[hiOff..hiOff + n2]);
  }

  /** The split in place: the same outputs, although each pair is overwritten as the split goes. */
  method AnaFiltBank1Inplace(x: array<int16>, hiOff: nat, s: Bank, n: nat) returns (next: Bank)
    requires s.Ok() && n % 2 == 0 && n <= hiOff && hiOff + n / 2 <= x.Length
    modifies x
    ensures next == After(old(x[..n]), s, n / 2)
    ensures x[..n / 2] == Lows(old(x[..n]), s) && x[hiOff..hiOff + n / 2] == Highs(old(x[..n]), s)
    ensures forall j :: n <= j < x.Length && !(hiOff <= j < hiOff + n / 2) ==> x[j] == old(x[j])
  {
    hide Next, Low, High, After, LowAt, HighAt, Lows, Highs;
    ghost var inp := x[..n];
    AfterNone(inp, s);
    next := s;
    for k := 0 to n / 2
      invariant next == After(inp, s, k)
      invariant forall j :: 0 <= j < k ==> x[j] == LowAt(inp, s, j) && x[hiOff + j] == HighAt(inp, s, j)
      invariant forall j :: 2 * k <= j < n ==> x[j] == inp[j]
      invariant forall j :: n <= j < x.Length && !(hiOff <= j < hiOff + n / 2) ==> x[j] == old(x[j])
    {
      BankStep(inp, s, k);
      var low, high;
      next, low, high := SplitPair(x[2 * k], x[2 * k + 1], next);
      x[hiOff + k] := high;
      x[k] := low;
    }
    BandsAre(inp, s, x[..n / 2], x[hiOff..hiOff + n / 2]);
  }

  // ---- The high-pass ----

  const A_NEG: int32 := 53084
  const B: int32 := 59310

  function HpOut(hp: int32, x: int16): int16
    requires -57000 <= hp <= 57000
  {
    Sat16(hp - Smulwb(B, x))
  }

  function HpNext(hp: int32, x: int16): (r: int32)
    requires -57000 <= hp <= 57000
    ensures -57000 <= r <= 57000
  {
    Smlawb(Smulwb(B, x), A_NEG, HpOut(hp, x))
  }

  function HpAfter(xs: seq<int16>, hp: int32, k: nat): (r: int32)
    requires -57000 <= hp <= 57000 && k <= |xs|
    ensures -57000 <= r <= 57000
  {
    if k == 0 then hp else HpNext(HpAfter(xs, hp, k - 1), xs[k - 1])
  }

  function Highpassed(xs: seq<int16>, hp: int32): (r: seq<int16>)
    requires -57000 <= hp <= 57000
    ensures |r| == |xs|
  {
    seq(|xs|, k requires 0 <= k < |xs| => HpAt(xs, hp, k))
  }

  function HpAt(xs: seq<int16>, hp: int32, k: nat): int16
    requires -57000 <= hp <= 57000 && k < |xs|
  {
    HpOut(HpAfter(xs, hp, k), xs[k])
  }

  lemma HighpassedIs(xs: seq<int16>, hp: int32, ys: seq<int16>)
    requires -57000 <= hp <= 57000 && |ys| == |xs| && forall k :: 0 <= k < |ys| ==> ys[k] == HpAt(xs, hp, k)
    ensures ys == Highpassed(xs, hp)
  {
    hide HpAt;
  }

  method HpStep(hp: int32, x: int16, bQ16: int32, aNegQ16: int32) returns (next: int32, outval: int16)
    requires -57000 <= hp <= 57000 && bQ16 == B && aNegQ16 == A_NEG
    ensures next == HpNext(hp, x) && outval == HpOut(hp, x)
  {
    var inval: int32 := Smulwb(bQ16, x);
    outval := Sat16(hp - inval);
    next := Smlawb(inval, aNegQ16, outval);
  }

  method FiltHP(x: array<int16>, hp: int32, bQ16: int32, aNegQ16: int32, length: nat) returns (hpState: int32)
    requires -57000 <= hp <= 57000 && bQ16 == B && aNegQ16 == A_NEG && length <= x.Length
    modifies x
    ensures hpState == HpAfter(old(x[..length]), hp, length)
    ensures x[..length] == Highpassed(old(x[..length]), hp)
    ensures forall j :: length <= j < x.Length ==> x[j] == old(x[j])
  {
    hide HpNext, HpOut, Highpassed;
    ghost var xs := x[..length];
    hpState := hp;
    for i := 0 to length
      invariant hpState == HpAfter(xs, hp, i)
      invariant forall j :: 0 <= j < i ==> x[j] == HpAt(xs, hp, j)
      invariant forall j :: i <= j < x.Length ==> x[j] == old(x[j])
    {
      var outval;
      hpState, outval := HpStep(hpState, x[i], bQ16, aNegQ16);
      x[i] := outval;
    }
    HighpassedIs(xs, hp, x[..length]);
  }

  // ---- Band energies ----

  /** Sum of the squares of the samples, each an eighth of its size. */
  function Squares(x: seq<int16>, n: nat): (r: int)
    requires n <= |x|
    ensures 0 <= r <= 0x100_0000 * n
  {
    if n == 0 then 0
    else
      var e: int := x[n - 1] / 8;
      SquareRange(e);
      Squares(x, n - 1) + e * e
  }

  lemma SquareRange(a: int)
    requires -4096 <= a <= 4095
    ensures 0 <= a * a <= 0x100_0000
  {
    if a >= 0 {
      MulOrder(a, a, 4096);
    } else {
      assert a * a == -a * -a;
      MulOrder(-a, -a, 4096);
    }
  }

  /** Four quarters of a band, the last one halved, on top of what the frame before left; saturating. */
  function EnergyUpto(band: seq<int16>, len: nat, prev: int32, sub: nat): (r: int32)
    requires |band| == SUBFRAMES * len && len <= 40 && prev >= 0 && sub <= SUBFRAMES
    ensures r >= 0
  {
    if sub == 0 then prev
    else
      var quarter := Quarter(band, len, sub - 1);
      AddPosSat32(EnergyUpto(band, len, prev, sub - 1), if sub < SUBFRAMES then quarter else quarter / 2)
  }

  function Quarter(band: seq<int16>, len: nat, sub: nat): (r: int32)
    requires |band| == SUBFRAMES * len && len <= 40 && sub < SUBFRAMES
    ensures 0 <= r <= 0x2800_0000
  {
    Squares(band[sub * len..sub * len + len], len)
  }

  /** Saturating step by step loses nothing but the excess of the whole sum. */
  lemma EnergySaturates(band: seq<int16>, len: nat, prev: int32)
    requires |band| == SUBFRAMES * len && len <= 40 && prev >= 0
    ensures EnergyUpto(band, len, prev, SUBFRAMES) == Min(INT32_MAX,
      prev + Quarter(band, len, 0) + Quarter(band, len, 1) + Quarter(band, len, 2) + Quarter(band, len, 3) / 2)
  {
    hide Quarter;
    hide AddPosSat32;
    assert EnergyUpto(band, len, prev, 1) == Min(INT32_MAX, prev + Quarter(band, len, 0));
    assert EnergyUpto(band, len, prev, 2) == Min(INT32_MAX, EnergyUpto(band, len, prev, 1) + Quarter(band, len, 1));
    assert EnergyUpto(band, len, prev, 3) == Min(INT32_MAX, EnergyUpto(band, len, prev, 2) + Quarter(band, len, 2));
    assert EnergyUpto(band, len, prev, 4) == Min(INT32_MAX, EnergyUpto(band, len, prev, 3) + Quarter(band, len, 3) / 2);
  }

  method SumQuarter(x: array<int16>, start: nat, n: nat) returns (sumSquared: int32)
    requires start + n <= x.Length && n <= 40
    ensures sumSquared == Squares(x[start..start + n], n)
  {
    sumSquared := 0;
    for i := 0 to n
      invariant sumSquared == Squares(x[start..start + n], i)
    {
      var xTmp: int32 := x[start + i] / 8;
      SquareRange(xTmp);
      sumSquared := sumSquared + Int16(xTmp) * Int16(xTmp);
    }
  }

  lemma QuarterAt(band: seq<int16>, len: nat, sub: nat)
    requires |band| == SUBFRAMES * len && len <= 40 && sub < SUBFRAMES
    ensures sub * len + len == (sub + 1) * len <= |band|
    ensures Quarter(band, len, sub) == Squares(band[sub * len..sub * len + len], len)
  {
    MulOrder(len, sub + 1, SUBFRAMES);
  }

  lemma SliceOfSlice(s: seq<int16>, from: nat, to: nat, d: nat, len: nat)
    requires from + d + len <= to <= |s|
    ensures s[from..to][d..d + len] == s[from + d..from + d + len]
  {
    var a, b := s[from..to][d..d + len], s[from + d..from + d + len];
    assert forall i :: 0 <= i < len ==> a[i] == s[from + d + i] == b[i];
  }

  method BandEnergy(x: array<int16>, off: nat, len: nat, prev: int32) returns (xnrg: int32, sumSquared: int32)
    requires off + SUBFRAMES * len <= x.Length && len <= 40 && prev >= 0
    ensures xnrg == EnergyUpto(x[off..off + SUBFRAMES * len], len, prev, SUBFRAMES)
    ensures sumSquared == Quarter(x[off..off + SUBFRAMES * len], len, SUBFRAMES - 1)
  {
    hide Squares, Quarter;
    ghost var band := x[off..off + SUBFRAMES * len];
    xnrg, sumSquared := prev, 0;
    var decSubfrOffset := 0;
    for sub := 0 to SUBFRAMES
      invariant decSubfrOffset == sub * len && xnrg == EnergyUpto(band, len, prev, sub)
      invariant sub == SUBFRAMES ==> sumSquared == Quarter(band, len, SUBFRAMES - 1)
    {
      QuarterAt(band, len, sub);
      ghost var d := decSubfrOffset;
      sumSquared := SumQuarter(x, off + decSubfrOffset, len);
      SliceOfSlice(x[..], off, off + SUBFRAMES * len, d, len);
      assert x[off..off + SUBFRAMES * len] == x[..][off..off + SUBFRAMES * len] == band;
      assert x[off + d..off + d + len] == x[..][off + d..off + d + len];
      if sub < SUBFRAMES - 1 {
        xnrg := AddPosSat32(xnrg, sumSquared);
      } else {
        xnrg := AddPosSat32(xnrg, sumSquared / 2);
      }
      decSubfrOffset := decSubfrOffset + len;
    }
  }

  // ---- Noise levels ----

  /** A band's noise level and its inverse. */
  datatype Noise = Noise(nl: int32, inv: int32) {
    predicate Ok() {
      1 <= nl <= NL_MAX && 1 <= inv
    }
  }

  function MinCoef(counter: int32): (c: int32)
    requires 0 <= counter <= 1000
    ensures 0 <= c <= 32767
  {
    if counter < 1000 then 32767 / (counter / 16 + 1) else 0
  }

  lemma InverseRange(nrg: int)
    requires 1 <= nrg <= INT32_MAX
    ensures 1 <= INT32_MAX / nrg <= INT32_MAX && INT32_MAX / nrg * nrg <= INT32_MAX
  {
  }

  /** Smoothing: slow towards much louder input, full towards quieter, by the ratio between. */
  function Coef(nl: int32, nrg: int32, minCoef: int32): (c: int32)
    requires 1 <= nl <= NL_MAX && 1 <= nrg && 0 <= minCoef <= 32767
    ensures 0 <= c <= 32767 && minCoef <= c
  {
    Max(BaseCoef(nl, nrg) * 100 / 100, minCoef)
  }

  function BaseCoef(nl: int32, nrg: int32): (c: int32)
    requires 1 <= nl <= NL_MAX && 1 <= nrg
    ensures 0 <= c <= SMOOTH
  {
    if nrg > nl * 8 then SMOOTH / 8
    else if nrg < nl then SMOOTH
    else
      InverseTimes(nrg, nl);
      Smulwb(INT32_MAX / nrg * nl / 0x1_0000, SMOOTH * 2)
  }

  lemma InverseTimes(nrg: int, nl: int)
    requires 1 <= nl <= nrg <= INT32_MAX
    ensures 0 <= INT32_MAX / nrg * nl <= INT32_MAX
  {
    InverseRange(nrg);
    MulOrder(INT32_MAX / nrg, nl, nrg);
    MulOrder(INT32_MAX / nrg, 0, nl);
  }

  function NextNoise(n: Noise, pX: int32, bias: int32, minCoef: int32): (r: Noise)
    requires n.Ok() && pX >= 0 && bias >= 1 && 0 <= minCoef <= 32767
    ensures r.Ok()
  {
    var nrg := AddPosSat32(pX, bias);
    InverseRange(nrg);
    var invNrg := INT32_MAX / nrg;
    var coef := Coef(n.nl, nrg, minCoef);
    Moves(n.inv, invNrg, coef);
    var inv := Smlawb(n.inv, invNrg - n.inv, coef);
    InverseRange(inv);
    Noise(Min(INT32_MAX / inv, NL_MAX), inv)
  }

  /** A smoothing step never passes its target, so inverses stay positive and inside 32 bits. */
  lemma Moves(inv: int32, target: int32, coef: int32)
    requires inv >= 1 && target >= 1 && 0 <= coef <= 32767
    ensures Min(inv, target) <= Smlawb(inv, target - inv, coef) <= Max(inv, target)
  {
    var d := target - inv;
    if d >= 0 {
      MulOrder(d, 0, coef);
      MulOrder(d, coef, 0x1_0000);
    } else {
      MulOrder(-d, 0, coef);
      MulOrder(-d, coef, 0x1_0000);
      assert -d * coef == -(d * coef);
    }
  }

  method UpdateNoise(n: Noise, pX: int32, bias: int32, minCoef: int32, noiseLvlUpdateSpeed: int32) returns (r: Noise)
    requires n.Ok() && pX >= 0 && bias >= 1 && 0 <= minCoef <= 32767 && noiseLvlUpdateSpeed == 0
    ensures r == NextNoise(n, pX, bias, minCoef)
  {
    var nrg: int32 := AddPosSat32(pX, bias);
    InverseRange(nrg);
    var invNrg: int32 := INT32_MAX / nrg;
    var threshold: int32 := n.nl * 8;
    var coef: int32;
    if nrg > threshold {
      coef := SMOOTH / 8;
    } else if nrg < n.nl {
      coef := SMOOTH;
    } else {
      InverseTimes(nrg, n.nl);
      coef := Smulwb(invNrg * n.nl / 0x1_0000, SMOOTH * 2);
    }
    var scaled: int32 := coef * (100 + noiseLvlUpdateSpeed);
    coef := scaled / 100;
    if coef < minCoef {
      coef := minCoef;
    }
    Moves(n.inv, invNrg, coef);
    var inv: int32 := Smlawb(n.inv, invNrg - n.inv, coef);
    InverseRange(inv);
    var v: int32 := INT32_MAX / inv;
    if v > NL_MAX {
      v := NL_MAX;
    }
    r := Noise(v, inv);
  }

  // ---- Speech activity ----

  function Ratio(xnrg: int32, nl: int32): (r: int32)
    requires 1 <= nl < xnrg && nl <= NL_MAX
    ensures r >= 1
  {
    RatioRange(xnrg, nl);
    if xnrg < 0x80_0000 then xnrg * 256 / (nl + 1) else xnrg / (nl / 256 + 1)
  }

  lemma RatioRange(xnrg: int32, nl: int32)
    requires 1 <= nl < xnrg && nl <= NL_MAX
    ensures xnrg < 0x80_0000 ==> 1 <= xnrg * 256 / (nl + 1) <= INT32_MAX
    ensures xnrg >= 0x80_0000 ==> 1 <= xnrg / (nl / 256 + 1) <= INT32_MAX
  {
    if xnrg < 0x80_0000 {
      QuotientRange(xnrg * 256, nl + 1);
    } else {
      QuotientRange(xnrg, nl / 256 + 1);
    }
  }

  function Snr(xnrg: int32, nl: int32): (q: int32)
    requires 1 <= nl < xnrg && nl <= NL_MAX
    ensures -1024 <= q <= 2954
  {
    Lin2log(Ratio(xnrg, nl)) - 8 * 128
  }

  lemma SnrSquare(q: int)
    requires -1024 <= q <= 2954
    ensures 0 <= q * q <= 0x88_0000
  {
    if q >= 0 {
      MulOrder(q, q, 2954);
    } else {
      assert q * q == -q * -q;
      MulOrder(-q, -q, 1024);
    }
  }

  /** Sum of the squared signal-to-noise ratios of the bands above their noise. */
  function SnrSum(xnrg: seq<int32>, nl: seq<int32>, b: nat): (r: int32)
    requires |xnrg| == |nl| == BANDS && b <= BANDS
    requires forall i :: 0 <= i < BANDS ==> xnrg[i] >= 0 && 1 <= nl[i] <= NL_MAX
    ensures 0 <= r <= b * 0x88_0000
  {
    if b == 0 then 0
    else if xnrg[b - 1] > nl[b - 1] then
      var q := Snr(xnrg[b - 1], nl[b - 1]);
      SnrSquare(q);
      SnrSum(xnrg, nl, b - 1) + q * q
    else SnrSum(xnrg, nl, b - 1)
  }

  /** Activity from the bands' energies and noise levels, 0 to 255. */
  function Activity(xnrg: seq<int32>, nl: seq<int32>): (r: int32)
    requires |xnrg| == |nl| == BANDS
    requires forall i :: 0 <= i < BANDS ==> xnrg[i] >= 0 && 1 <= nl[i] <= NL_MAX
    ensures 0 <= r <= 255
  {
    SigmQ15(Smulwb(45000, 3 * SqrtApprox(SnrSum(xnrg, nl, BANDS) / BANDS)) - 128) / 128
  }

  method AddBand(xnrg: int32, nl: int32, sum: int32, tilt: int32, weight: int32)
    returns (sumSquared: int32, inputTilt: int32)
    requires xnrg >= 0 && 1 <= nl <= NL_MAX && 0 <= sum <= 0x198_0000
    requires -100000 <= tilt <= 100000 && -12000 <= weight <= 30000
    ensures sumSquared == if xnrg > nl then sum + Snr(xnrg, nl) * Snr(xnrg, nl) else sum
    ensures -16000 <= inputTilt - tilt <= 16000
  {
    hide Snr, SqrtApprox;
    sumSquared, inputTilt := sum, tilt;
    var speechNrg: int32 := xnrg - nl;
    if speechNrg > 0 {
      var snrQ7 := BandSnr(xnrg, nl);
      SnrSquare(snrQ7);
      sumSquared := sum + Int16(snrQ7) * Int16(snrQ7);
      if speechNrg < 0x10_0000 {
        var root: int32 := SqrtApprox(speechNrg) * 64;
        RootTimes(root, snrQ7);
        snrQ7 := Smulwb(root, snrQ7);
      }
      inputTilt := Tilt(tilt, weight, snrQ7);
    }
  }

  method BandSnr(xnrg: int32, nl: int32) returns (snrQ7: int32)
    requires 1 <= nl < xnrg && nl <= NL_MAX
    ensures snrQ7 == Snr(xnrg, nl)
  {
    hide Lin2log;
    RatioRange(xnrg, nl);
    var ratioQ8: int32;
    if xnrg / 0x80_0000 == 0 {
      var scaled: int32 := xnrg * 256;
      ratioQ8 := scaled / (nl + 1);
    } else {
      ratioQ8 := xnrg / (nl / 256 + 1);
    }
    snrQ7 := Lin2log(ratioQ8) - 8 * 128;
  }

  method Tilt(tilt: int32, weight: int32, snrQ7: int32) returns (inputTilt: int32)
    requires -100000 <= tilt <= 100000 && -12000 <= weight <= 30000
    ensures -16000 <= inputTilt - tilt <= 16000
  {
    WeightTimes(weight, Int16(snrQ7));
    inputTilt := Smlawb(tilt, weight, snrQ7);
  }

  lemma RootTimes(root: int, snr: int)
    requires 0 <= root <= 65344 && -1024 <= snr <= 2954
    ensures -1024 <= Smulwb(root, snr) <= 2954
  {
    if snr >= 0 {
      MulOrder(snr, root, 0x1_0000);
      MulOrder(snr, 0, root);
    } else {
      MulOrder(-snr, root, 0x1_0000);
      MulOrder(-snr, 0, root);
      assert -snr * root == -(root * snr);
    }
    assert Int16(snr) == snr;
  }

  lemma WeightTimes(weight: int, snr: int)
    requires -12000 <= weight <= 30000 && -0x8000 <= snr < 0x8000
    ensures -16000 <= weight * snr / 0x1_0000 <= 16000
  {
    if weight >= 0 {
      MulOrder(weight, snr, 0x8000);
      MulOrder(weight, -0x8000, snr);
      assert weight * 0x8000 <= 30000 * 0x8000 && weight * -0x8000 >= 30000 * -0x8000;
    } else {
      MulOrder(-weight, snr, 0x8000);
      MulOrder(-weight, -0x8000, snr);
      assert -weight * snr == -(weight * snr);
    }
  }

  /** Root and sigmoid of the mean squared ratio; the 16-bit conversion is exact. */
  method Score(meanSquare: int32, nonBinariness: int32) returns (r: int32)
    requires 0 <= meanSquare <= 0x88_0000 && nonBinariness == 0
    ensures r == SigmQ15(Smulwb(45000, 3 * SqrtApprox(meanSquare)) - 128) / 128
  {
    hide SigmQ15, SqrtApprox;
    var tripled: int32 := 3 * SqrtApprox(meanSquare);
    var pSnrDbQ7: int32 := Int16(tripled);
    assert pSnrDbQ7 == tripled;
    var factor: int32 := 45000 * (150 - nonBinariness);
    var vadSnrFactorQ16: int32 := factor / 150;
    var saQ15 := SigmQ15(Smulwb(vadSnrFactorQ16, pSnrDbQ7) - 128);
    r := Min(saQ15 / 128, 255);
  }

  /** The last step: ratios, root and sigmoid, with every 16-bit conversion exact. */
  method Judge(xnrg: seq<int32>, nl: seq<int32>, nonBinariness: int32) returns (r: int32)
    requires |xnrg| == |nl| == BANDS && nonBinariness == 0
    requires forall i :: 0 <= i < BANDS ==> xnrg[i] >= 0 && 1 <= nl[i] <= NL_MAX
    ensures r == Activity(xnrg, nl)
  {
    hide Snr, SigmQ15, SqrtApprox, Smulwb;
    var tiltWeights: seq<int32> := [30000, 6000, -12000, -12000];
    var sumSquared: int32, inputTilt: int32 := 0, 0;
    for b := 0 to BANDS
      invariant sumSquared == SnrSum(xnrg, nl, b)
      invariant -16000 * b <= inputTilt <= 16000 * b
    {
      sumSquared, inputTilt := AddBand(xnrg[b], nl[b], sumSquared, inputTilt, tiltWeights[b]);
    }
    r := Score(sumSquared / BANDS, nonBinariness);
  }

  // ---- The detector ----

  predicate HpOk(hp: int32) {
    -57000 <= hp <= 57000
  }

  /** The four bands of a frame, lowest first, from the states of the three splits and the high-pass. */
  function Bands(pIn: seq<int16>, a: Bank, b: Bank, c: Bank, hp: int32): (r: seq<seq<int16>>)
    requires |pIn| == FRAME && a.Ok() && b.Ok() && c.Ok() && HpOk(hp)
    ensures |r| == BANDS && |r[0]| == 40 && |r[1]| == 40 && |r[2]| == 80 && |r[3]| == 160
  {
    var low1 := Lows(pIn, a);
    var low2 := Lows(low1, b);
    [Highpassed(Lows(low2, c), hp), Highs(low2, c), Highs(low1, b), Highs(pIn, a)]
  }

  /** What is left of the hangover after the frames so far, each active or not. */
  function Remaining(history: seq<bool>): (r: int32)
    ensures r in {0, 20, 40, 60}
  {
    if history == [] || history[|history| - 1] then HANGOVER_MS
    else Max(Remaining(history[..|history| - 1]) - 20, 0)
  }

  /** Frame i is coded as voice: it is active, or within the hangover. */
  predicate Coded(history: seq<bool>, i: nat)
    requires i < |history|
  {
    history[i] || Remaining(history[..i]) > 0
  }

  /** The hangover lasts exactly three frames after an active one, and three frames from the start. */
  lemma {:induction false} RemainingExactly(history: seq<bool>)
    ensures Remaining(history) > 40 <==> |history| < 1 || history[|history| - 1]
    ensures Remaining(history) > 20 <==> |history| < 2 || exists j :: |history| - 2 <= j < |history| && history[j]
    ensures Remaining(history) > 0 <==> |history| < 3 || exists j :: |history| - 3 <= j < |history| && history[j]
  {
    if history != [] {
      RemainingExactly(history[..|history| - 1]);
    }
  }

  lemma CodedExactly(history: seq<bool>, i: nat)
    requires i < |history|
    ensures Coded(history, i) <==> i < 3 || exists j :: i - 3 <= j <= i && history[j]
  {
    RemainingExactly(history[..i]);
  }

  const BAND_LEN: seq<nat> := [10, 10, 20, 40]
  const BAND_OFF: seq<nat> := [0, 120, 160, 240]

  class SmplVadState {
    var anaState: Bank
    var anaState1: Bank
    var anaState2: Bank
    var xnrgSubfr: seq<int32>
    var noise: seq<Noise>
    var noiseLevelBias: seq<int32>
    var counter: int32
    var hpState: int32
    var noiseLvlUpdateSpeed: int32
    var nonBinariness: int32
    var highpassSharpness: int32
    var remainingDtxHangover: int32
    var hangoverMs: int32

    /** Activity of every frame since the start. */
    ghost var history: seq<bool>

    ghost predicate Valid()
      reads this
    {
      && anaState.Ok() && anaState1.Ok() && anaState2.Ok() && HpOk(hpState)
      && SubfrOk(xnrgSubfr) && NoiseOk(noise) && BiasOk(noiseLevelBias)
      && 0 <= counter <= 1000
      && noiseLvlUpdateSpeed == 0 && nonBinariness == 0 && highpassSharpness == 0
      && hangoverMs == HANGOVER_MS && remainingDtxHangover == Remaining(history)
    }

    constructor ()
      ensures Valid() && history == []
    {
      anaState, anaState1, anaState2 := Bank(0, 0), Bank(0, 0), Bank(0, 0);
      xnrgSubfr := [0, 0, 0, 0];
      counter, hpState, noiseLvlUpdateSpeed, nonBinariness, highpassSharpness := 15, 0, 0, 0, 0;
      remainingDtxHangover, hangoverMs, history := 60, HANGOVER_MS, [];
      var ns: seq<Noise>, biases: seq<int32> := [], [];
      for b := 0 to BANDS
        invariant |ns| == |biases| == b
        invariant forall i :: 0 <= i < b ==> ns[i].Ok() && biases[i] >= 1
      {
        var bias: int32 := Max(50 / (b + 1), 1);
        FirstBias(b);
        ns := ns + [Noise(100 * bias, INT32_MAX / (100 * bias))];
        biases := biases + [bias];
      }
      noise, noiseLevelBias := ns, biases;
    }

    /** The three splits: low band last halved at the front, high bands behind it. */
    method SplitThree(pIn: seq<int16>) returns (x: array<int16>)
      requires Valid() && |pIn| == FRAME
      modifies `anaState, `anaState1, `anaState2
      ensures Valid() && fresh(x) && x.Length == 400 && anaState == After(pIn, old(anaState), 160)
      ensures var low1 := Lows(pIn, old(anaState)); var low2 := Lows(low1, old(anaState1));
        && anaState1 == After(low1, old(anaState1), 80) && anaState2 == After(low2, old(anaState2), 40)
        && x[..40] == Lows(low2, old(anaState2)) && x[120..160] == Highs(low2, old(anaState2))
        && x[160..240] == Highs(low1, old(anaState1)) && x[240..400] == Highs(pIn, old(anaState))
    {
      hide After, Lows, Highs, Remaining, Bank.Ok;
      x := new int16[400](_ => 0);
      ghost var high1 := Highs(pIn, anaState);
      anaState := AnaFiltBank1(pIn, anaState, x, 240);
      ghost var high2 := Highs(x[..160], anaState1);
      anaState1 := AnaFiltBank1Inplace(x, 160, anaState1, 160);
      assert x[240..400] == high1;
      anaState2 := AnaFiltBank1Inplace(x, 120, anaState2, 80);
      assert x[160..240] == high2 && x[240..400] == high1;
    }

    /** Splits a frame into its bands, each in its place. */
    method Split(pIn: seq<int16>) returns (x: array<int16>)
      requires Valid() && |pIn| == FRAME
      modifies `anaState, `anaState1, `anaState2, `hpState
      ensures Valid() && fresh(x)
      ensures Placed(x[..], Bands(pIn, old(anaState), old(anaState1), old(anaState2), old(hpState)))
      ensures var low1 := Lows(pIn, old(anaState)); var low2 := Lows(low1, old(anaState1));
        && anaState == After(pIn, old(anaState), 160) && anaState1 == After(low1, old(anaState1), 80)
        && anaState2 == After(low2, old(anaState2), 40)
        && hpState == HpAfter(Lows(low2, old(anaState2)), old(hpState), 40)
    {
      hide After, Lows, Highs, Highpassed, HpAfter, Remaining, Bank.Ok;
      x := SplitThree(pIn);
      ghost var was := x[..];
      var aNegQ16: int32 := 53084;
      aNegQ16 := aNegQ16 * (100 - highpassSharpness) / 100;
      var bQ16: int32 := (65536 + aNegQ16) / 2;
      hpState := FiltHP(x, hpState, bQ16, aNegQ16, 40);
      assert x[40..] == was[40..];
      assert x[120..160] == was[120..160] && x[160..240] == was[160..240] && x[240..400] == was[240..400];
    }

    /** Energies of the bands, and the last quarter of each kept for the next frame. */
    method Energies(x: array<int16>, ghost bands: seq<seq<int16>>) returns (xnrg: seq<int32>)
      requires Valid() && BandsOk(bands) && Placed(x[..], bands)
      modifies `xnrgSubfr
      ensures Valid() && xnrg == BandEnergies(bands, old(xnrgSubfr)) && xnrgSubfr == LastQuarters(bands)
    {
      hide EnergyUpto, Quarter, Remaining, BandEnergies, LastQuarters, Placed;
      ghost var subfr := xnrgSubfr;
      xnrg := [];
      for b := 0 to BANDS
        invariant Valid() && |xnrg| == b
        invariant forall i :: 0 <= i < b ==> xnrg[i] == BandEnergies(bands, subfr)[i]
        invariant forall i :: 0 <= i < BANDS ==> xnrgSubfr[i] == if i < b then LastQuarters(bands)[i] else subfr[i]
      {
        var shift := Min(BANDS - b, BANDS - 1);
        var dec := if shift == 3 then FRAME / 8 else if shift == 2 then FRAME / 4 else FRAME / 2;
        var decSubfrLen := dec / 4;
        assert decSubfrLen == BAND_LEN[b];
        PlacedAt(x[..], bands, b);
        EnergyAt(bands, subfr, b);
        var e, last := BandEnergy(x, BAND_OFF[b], decSubfrLen, xnrgSubfr[b]);
        xnrg := xnrg + [e];
        xnrgSubfr := xnrgSubfr[b := last];
      }
    }

    method GetNoiseLevels(pX: seq<int32>)
      requires Valid() && |pX| == BANDS && forall b :: 0 <= b < BANDS ==> pX[b] >= 0
      modifies `noise, `counter
      ensures Valid()
      ensures counter == Min(old(counter) + 1, 1000)
      ensures noise == NoiseAfter(old(noise), pX, noiseLevelBias, MinCoef(old(counter)))
    {
      hide NextNoise, Remaining, Noise.Ok, NoiseAfter, SubfrOk;
      ghost var noises := noise;
      var minCoef: int32 := 0;
      if counter < 1000 {
        minCoef := 32767 / (counter / 16 + 1);
        counter := counter + 1;
      }
      assert minCoef == MinCoef(old(counter));
      hide MinCoef;
      for b := 0 to BANDS
        invariant Valid() && counter == Min(old(counter) + 1, 1000)
        invariant forall i :: 0 <= i < BANDS ==>
          noise[i] == if i < b then NoiseAfter(noises, pX, noiseLevelBias, minCoef)[i] else noises[i]
      {
        NoiseAt(noises, pX, noiseLevelBias, minCoef, b);
        var n := UpdateNoise(noise[b], pX[b], noiseLevelBias[b], minCoef, noiseLvlUpdateSpeed);
        noise := noise[b := n];
      }
    }

    ghost function Mem(): Memory
      reads this
    {
      Memory(anaState, anaState1, anaState2, hpState, xnrgSubfr, noise, counter)
    }

    /** Activity of one frame. */
    method GetSAQ8(pIn: seq<int16>) returns (r: int32)
      requires Valid() && |pIn| == FRAME
      modifies `anaState, `anaState1, `anaState2, `hpState, `xnrgSubfr, `noise, `counter
      ensures Valid() && 0 <= r <= 255
      ensures old(Mem()).Ok() && BiasOk(noiseLevelBias)
      ensures r == FrameActivity(pIn, old(Mem()), noiseLevelBias)
              && Mem() == AfterFrame(pIn, old(Mem()), noiseLevelBias)
    {
      hide Bands, BandEnergies, NoiseAfter, MinCoef, Activity, Remaining, Bank.Ok, Noise.Ok, LastQuarters, Placed,
           Lows, After, HpAfter;
      ghost var bands := Bands(pIn, anaState, anaState1, anaState2, hpState);
      var x := Split(pIn);
      var xnrg := Energies(x, bands);
      GetNoiseLevels(xnrg);
      var nl := [noise[0].nl, noise[1].nl, noise[2].nl, noise[3].nl];
      assert nl == Levels(noise);
      LevelsOk(noise);
      r := Judge(xnrg, nl, nonBinariness);
    }

    /** The hangover of a packet's frames, oldest first. */
    method Hangover(active: seq<bool>) returns (codedAsActiveVoice: bool)
      requires Valid() && |active| == FRAMES
      modifies `remainingDtxHangover, `history
      ensures Valid() && history == old(history) + active
      ensures codedAsActiveVoice <==> exists i :: |old(history)| <= i < |history| && Coded(history, i)
    {
      hide Bank.Ok, SubfrOk, NoiseOk, BiasOk, HpOk, AnyCoded, Remaining;
      codedAsActiveVoice := false;
      NoneCoded(history);
      for i := 0 to FRAMES
        invariant Valid() && history == old(history) + active[..i]
        invariant codedAsActiveVoice <==> AnyCoded(history, |old(history)|)
      {
        ghost var before := history;
        var inactive := true;
        if active[i] {
          remainingDtxHangover := hangoverMs;
          inactive := false;
        } else if remainingDtxHangover > 0 {
          inactive := false;
          remainingDtxHangover := remainingDtxHangover - 60 / FRAMES;
        }
        if !inactive {
          codedAsActiveVoice := true;
        }
        history := history + [active[i]];
        RemainingPush(before, active[i]);
        AnyPush(before, active[i], |old(history)|);
      }
      assert active[..FRAMES] == active;
      AnyIs(history, |old(history)|);
    }

    /** A packet of three frames; a short one is ignored. Results are in units of 1/256. */
    method ProcessPacket(pcm: seq<int16>) returns (results: seq<int32>, codedAsActiveVoice: bool)
      requires Valid()
      modifies this
      ensures Valid() && old(Mem()).Ok() && BiasOk(old(noiseLevelBias)) && |results| == FRAMES
      ensures |pcm| < FRAMES * FRAME ==>
        history == old(history) && Mem() == old(Mem()) && results == [0, 0, 0] && !codedAsActiveVoice
      ensures |pcm| >= FRAMES * FRAME ==>
        && Mem() == AfterFrames(pcm, old(Mem()), old(noiseLevelBias), FRAMES)
        && (forall i :: 0 <= i < FRAMES ==> results[i] == ActivityAt(pcm, old(Mem()), old(noiseLevelBias), i))
        && history == old(history) + [results[0] > DTX_THRES, results[1] > DTX_THRES, results[2] > DTX_THRES]
        && (codedAsActiveVoice <==> exists i :: |old(history)| <= i < |history| && Coded(history, i))
    {
      hide FrameActivity, AfterFrame, AfterFrames, ActivityAt, Remaining, Coded, Bank.Ok, SubfrOk, Noise.Ok, BiasOk;
      ghost var m, bias := Mem(), noiseLevelBias;
      if |pcm| < FRAMES * FRAME {
        return [0, 0, 0], false;
      }
      NoFrames(pcm, m, bias);
      results := [];
      var active := [];
      for i := 0 to FRAMES
        invariant Valid() && history == old(history) && noiseLevelBias == bias && |results| == |active| == i
        invariant Mem() == AfterFrames(pcm, m, bias, i)
        invariant forall j :: 0 <= j < i ==> active[j] == (results[j] > DTX_THRES)
        invariant forall j :: 0 <= j < i ==> results[j] == ActivityAt(pcm, m, bias, j)
      {
        var t := i * FRAME;
        FramesStep(pcm, m, bias, i);
        var saQ8 := GetSAQ8(pcm[t..t + FRAME]);
        results := results + [saQ8];
        active := active + [saQ8 > DTX_THRES];
      }
      assert active == [results[0] > DTX_THRES, results[1] > DTX_THRES, results[2] > DTX_THRES];
      codedAsActiveVoice := Hangover(active);
    }
  }

  /** Every band in its place in the buffer. */
  ghost predicate Placed(x: seq<int16>, bands: seq<seq<int16>>)
    requires |bands| == BANDS
  {
    |x| == 400 && x[..40] == bands[0] && x[120..160] == bands[1] && x[160..240] == bands[2] && x[240..400] == bands[3]
  }

  lemma PlacedAt(x: seq<int16>, bands: seq<seq<int16>>, b: nat)
    requires |bands| == BANDS && Placed(x, bands) && b < BANDS
    ensures |x| == 400 && BAND_OFF[b] + SUBFRAMES * BAND_LEN[b] <= 400
    ensures x[BAND_OFF[b]..BAND_OFF[b] + SUBFRAMES * BAND_LEN[b]] == bands[b]
  {
  }

  lemma EnergyAt(bands: seq<seq<int16>>, subfr: seq<int32>, b: nat)
    requires BandsOk(bands) && SubfrOk(subfr) && b < BANDS
    ensures |bands[b]| == SUBFRAMES * BAND_LEN[b] && BAND_LEN[b] <= 40
    ensures BandEnergies(bands, subfr)[b] == EnergyUpto(bands[b], BAND_LEN[b], subfr[b], SUBFRAMES)
    ensures LastQuarters(bands)[b] == Quarter(bands[b], BAND_LEN[b], SUBFRAMES - 1)
  {
  }

  lemma NoiseAt(noise: seq<Noise>, xnrg: seq<int32>, bias: seq<int32>, minCoef: int32, b: nat)
    requires NoiseOk(noise) && BiasOk(bias) && |xnrg| == BANDS && (forall b :: 0 <= b < BANDS ==> xnrg[b] >= 0)
    requires 0 <= minCoef <= 32767 && b < BANDS
    ensures noise[b].Ok() && NoiseAfter(noise, xnrg, bias, minCoef)[b] == NextNoise(noise[b], xnrg[b], bias[b], minCoef)
  {
  }

  lemma LevelsOk(noise: seq<Noise>)
    requires NoiseOk(noise)
    ensures forall b :: 0 <= b < BANDS ==> 1 <= noise[b].nl <= NL_MAX
  {
  }

  lemma FirstBias(b: nat)
    requires b < BANDS
    ensures 12 <= Max(50 / (b + 1), 1) <= 50
  {
  }

  /** Appending a frame leaves the verdict on the earlier ones alone. */
  lemma CodedPush(history: seq<bool>, a: bool)
    ensures Coded(history + [a], |history|) <==> a || Remaining(history) > 0
    ensures forall j :: 0 <= j < |history| ==> (Coded(history + [a], j) <==> Coded(history, j))
  {
    assert (history + [a])[..|history|] == history;
    forall j | 0 <= j < |history|
      ensures Coded(history + [a], j) <==> Coded(history, j)
    {
      assert (history + [a])[..j] == history[..j];
    }
  }

  /** Some frame from the given one on is coded as voice. */
  ghost predicate AnyCoded(history: seq<bool>, from: nat) {
    exists i :: from <= i < |history| && Coded(history, i)
  }

  lemma NoneCoded(history: seq<bool>)
    ensures !AnyCoded(history, |history|)
  {
  }

  lemma AnyPush(history: seq<bool>, a: bool, from: nat)
    requires from <= |history|
    ensures AnyCoded(history + [a], from) <==> AnyCoded(history, from) || a || Remaining(history) > 0
  {
    hide Coded;
    CodedPush(history, a);
    if i :| from <= i < |history| && Coded(history, i) {
      assert Coded(history + [a], i);
    }
    if a || Remaining(history) > 0 {
      assert Coded(history + [a], |history|);
    }
  }

  lemma AnyIs(history: seq<bool>, from: nat)
    ensures AnyCoded(history, from) <==> exists i :: from <= i < |history| && Coded(history, i)
  {
  }

  lemma RemainingPush(history: seq<bool>, a: bool)
    ensures Remaining(history + [a]) == if a then HANGOVER_MS else Max(Remaining(history) - 20, 0)
  {
    assert (history + [a])[..|history|] == history;
  }

  ghost predicate BandsOk(bands: seq<seq<int16>>) {
    |bands| == BANDS && forall b :: 0 <= b < BANDS ==> |bands[b]| == SUBFRAMES * BAND_LEN[b] && BAND_LEN[b] <= 40
  }

  predicate SubfrOk(subfr: seq<int32>) {
    |subfr| == BANDS && forall b :: 0 <= b < BANDS ==> 0 <= subfr[b] <= 0x2800_0000
  }

  ghost function BandEnergies(bands: seq<seq<int16>>, subfr: seq<int32>): (r: seq<int32>)
    requires BandsOk(bands) && SubfrOk(subfr)
    ensures |r| == BANDS && forall b :: 0 <= b < BANDS ==> r[b] >= 0
  {
    seq(BANDS, b requires 0 <= b < BANDS => EnergyUpto(bands[b], BAND_LEN[b], subfr[b], SUBFRAMES))
  }

  ghost function LastQuarters(bands: seq<seq<int16>>): (r: seq<int32>)
    requires BandsOk(bands)
    ensures SubfrOk(r)
  {
    seq(BANDS, b requires 0 <= b < BANDS => Quarter(bands[b], BAND_LEN[b], SUBFRAMES - 1))
  }

  predicate NoiseOk(noise: seq<Noise>) {
    |noise| == BANDS && forall b :: 0 <= b < BANDS ==> noise[b].Ok()
  }

  predicate BiasOk(bias: seq<int32>) {
    |bias| == BANDS && forall b :: 0 <= b < BANDS ==> bias[b] >= 1
  }

  ghost function NoiseAfter(noise: seq<Noise>, xnrg: seq<int32>, bias: seq<int32>, minCoef: int32): (r: seq<Noise>)
    requires NoiseOk(noise) && BiasOk(bias) && |xnrg| == BANDS && (forall b :: 0 <= b < BANDS ==> xnrg[b] >= 0)
    requires 0 <= minCoef <= 32767
    ensures NoiseOk(r)
  {
    seq(BANDS, b requires 0 <= b < BANDS => NextNoise(noise[b], xnrg[b], bias[b], minCoef))
  }

  ghost function Levels(noise: seq<Noise>): (r: seq<int32>)
    requires NoiseOk(noise)
    ensures |r| == BANDS && forall b :: 0 <= b < BANDS ==> r[b] == noise[b].nl
  {
    seq(BANDS, b requires 0 <= b < BANDS => noise[b].nl)
  }

  /** What one frame leaves for the next. */
  datatype Memory = Memory(a: Bank, b: Bank, c: Bank, hp: int32, subfr: seq<int32>, noise: seq<Noise>, counter: int32) {
    predicate Ok() {
      a.Ok() && b.Ok() && c.Ok() && HpOk(hp) && SubfrOk(subfr) && NoiseOk(noise) && 0 <= counter <= 1000
    }
  }

  /** A frame's activity as a function of the state it meets. */
  ghost function FrameActivity(pIn: seq<int16>, m: Memory, bias: seq<int32>): (r: int32)
    requires |pIn| == FRAME && m.Ok() && BiasOk(bias)
    ensures 0 <= r <= 255
  {
    var xnrg := BandEnergies(Bands(pIn, m.a, m.b, m.c, m.hp), m.subfr);
    Activity(xnrg, Levels(NoiseAfter(m.noise, xnrg, bias, MinCoef(m.counter))))
  }

  ghost function AfterFrame(pIn: seq<int16>, m: Memory, bias: seq<int32>): (r: Memory)
    requires |pIn| == FRAME && m.Ok() && BiasOk(bias)
    ensures r.Ok()
  {
    hide Lows, Highs, After, HpAfter, Highpassed, BandEnergies, LastQuarters, NoiseAfter, MinCoef, Bank.Ok, Noise.Ok;
    var low1 := Lows(pIn, m.a);
    var low2 := Lows(low1, m.b);
    var bands := Bands(pIn, m.a, m.b, m.c, m.hp);
    Memory(After(pIn, m.a, 160), After(low1, m.b, 80), After(low2, m.c, 40), HpAfter(Lows(low2, m.c), m.hp, 40),
           LastQuarters(bands), NoiseAfter(m.noise, BandEnergies(bands, m.subfr), bias, MinCoef(m.counter)),
           Min(m.counter + 1, 1000))
  }

  /** The memory after the first n whole frames of the samples. */
  ghost function AfterFrames(pcm: seq<int16>, m: Memory, bias: seq<int32>, n: nat): (r: Memory)
    requires n * FRAME <= |pcm| && m.Ok() && BiasOk(bias)
    ensures r.Ok()
  {
    if n == 0 then m
    else AfterFrame(pcm[(n - 1) * FRAME..n * FRAME], AfterFrames(pcm, m, bias, n - 1), bias)
  }

  /** Activity of frame n, in the state the frames before it leave. */
  ghost function ActivityAt(pcm: seq<int16>, m: Memory, bias: seq<int32>, n: nat): (r: int32)
    requires (n + 1) * FRAME <= |pcm| && m.Ok() && BiasOk(bias)
    ensures 0 <= r <= 255
  {
    FrameActivity(pcm[n * FRAME..(n + 1) * FRAME], AfterFrames(pcm, m, bias, n), bias)
  }

  lemma NoFrames(pcm: seq<int16>, m: Memory, bias: seq<int32>)
    requires m.Ok() && BiasOk(bias)
    ensures AfterFrames(pcm, m, bias, 0) == m
  {
  }

  lemma FramesStep(pcm: seq<int16>, m: Memory, bias: seq<int32>, n: nat)
    requires (n + 1) * FRAME <= |pcm| && m.Ok() && BiasOk(bias)
    ensures var f := pcm[n * FRAME..n * FRAME + FRAME];
      && AfterFrames(pcm, m, bias, n + 1) == AfterFrame(f, AfterFrames(pcm, m, bias, n), bias)
      && ActivityAt(pcm, m, bias, n) == FrameActivity(f, AfterFrames(pcm, m, bias, n), bias)
  {
    hide AfterFrame, FrameActivity;
  }
}
