/**
 * The split and run-length tables of the pulse block, computed by fixed-point arithmetic from a model of the
 * pulses: every product fits its register, no divisor is zero, and all of the tables are strict.
 */
module PulseModel {
  import opened Arith
  import opened FixedPoint
  import opened FixedPointLaws
  import opened RangeSpec
  import opened RangeEncoding
  import opened RangeDecoding
  import opened RawSpec
  import Vectors = PulseVector
  import opened CdfTables
  import opened LogCurve
  import Pulses = PulseCodec

  const ONE_Q31 := 0x8000_0000
  const P_MAX := 2147376274
  const PULSES := 40

  lemma {:induction false} SumPositive(ws: seq<nat>, i: nat, k: nat)
    requires i < k <= |ws| && ws[i] > 0
    ensures Sum(ws, k) > 0
  {
    if i < k - 1 {
      SumPositive(ws, i, k - 1);
    }
  }

  /** Non-negative weights, not all zero, build a strict table with one entry more. */
  method BuildTable(p: seq<int32>, ghost i: nat) returns (cmf: seq<uint16>)
    requires |p| < FULL && i < |p| && p[i] > 0 && NonNegative(p)
    ensures Sum(Counts(p), |p|) > 0 && cmf == Table(Counts(p))
    ensures Strict(cmf) && |cmf| == |p| + 1
  {
    SumPositive(Counts(p), i, |p|);
    var t := PdfToCmf(p);
    TableShape(Counts(p));
    cmf := t[..];
  }

  // ---- Run lengths ----

  /** The chance that one of `left` samples is not the next one. */
  function Missed(left: nat): (p: nat)
    requires 0 < left <= ONE_Q31
    ensures p < ONE_Q31
  {
    QuotientRange(ONE_Q31, left);
    ONE_Q31 - ONE_Q31 / left
  }

  function MulQ31(a: nat, b: nat): (r: nat)
    requires a <= ONE_Q31 && b <= ONE_Q31
    ensures r <= a && r <= b
  {
    ProductQ31(a, b);
    ProductQ31(b, a);
    a * b / ONE_Q31
  }

  lemma ProductQ31(a: nat, b: nat)
    requires a <= ONE_Q31 && b <= ONE_Q31
    ensures 0 <= a * b / ONE_Q31 <= a && a * b == b * a
  {
    MulOrder(a, 0, b);
    MulOrder(a, b, ONE_Q31);
  }

  /** base to the k + 1. */
  function Power(base: nat, k: nat): (p: nat)
    requires base < ONE_Q31
    ensures p <= base
  {
    if k == 0 then base else MulQ31(Power(base, k - 1), base)
  }

  /** The powers of one half are exact, down to the last bit. */
  lemma {:induction false} PowerOfHalf(k: nat)
    requires k <= 30
    ensures Pow2(30) < ONE_Q31 && Power(Pow2(30), k) == Pow2(30 - k)
  {
    Pow2Values();
    Pow2Add(30, 1);
    hide Pow2;
    if k > 0 {
      PowerOfHalf(k - 1);
      Pow2Add(30 - k, 1);
      assert Power(Pow2(30), k) == MulQ31(Pow2(30 - k + 1), Pow2(30));
      DivModUnique(Pow2(30 - k + 1) * Pow2(30), ONE_Q31, Pow2(30 - k), 0);
    }
  }

  /** How far the probabilities are bent, by the density of the pulses. */
  function ScaleFac(ms: nat, nump: nat): (s: int32)
    requires 1 <= ms <= 160 && 1 <= nump <= PULSES
    ensures 26000 <= s <= 36000
  {
    36000 - 10000 * SigmQ15(Density(ms, nump) / 4 + 146) / 0x8000
  }

  function Density(ms: nat, nump: nat): (d: int32)
    requires 1 <= ms <= 160 && 1 <= nump <= PULSES
    ensures -2698 <= d <= 2698
  {
    if nump > ms then
      QuotientRange(nump * 1024, ms);
      Lin2log(nump * 1024 / ms) - 10 * 128
    else
      QuotientRange(ms * 1024, nump);
      -(Lin2log(ms * 1024 / nump) - 10 * 128)
  }

  /** The chance that the next of nump pulses lies nums samples ahead, once that far, in Q31. */
  function Hit(ms: nat, nump: nat, nums: nat): (p: nat)
    requires 1 <= nums <= ms <= 160 && 1 <= nump <= PULSES
    ensures 1 <= p <= P_MAX
  {
    var missed := Min(ONE_Q31 - Power(Missed(ms - nums + 1), nump - 1), P_MAX);
    Min(ONE_Q31 - Bent(ONE_Q31 - missed, ScaleFac(ms, nump)), P_MAX)
  }

  /** x to a power a little below or above one. */
  function Bent(x: int32, scale: int32): (r: int32)
    requires x > 0 && 26000 <= scale <= 36000
    ensures r >= 0
  {
    MulOrder(scale, Lin2log(x) - 31 * 128, 10);
    MulOrder(scale, -31 * 128, Lin2log(x) - 31 * 128);
    Log2lin(scale * (Lin2log(x) - 31 * 128) / 0x8000 + 31 * 128)
  }

  /** The chance that no pulse came in the first n samples. */
  function Longer(ms: nat, nump: nat, n: nat): (p: nat)
    requires n <= ms <= 160 && 1 <= nump <= PULSES
    ensures p <= ONE_Q31
  {
    if n == 0 then ONE_Q31 else MulQ31(Longer(ms, nump, n - 1), ONE_Q31 - Hit(ms, nump, n))
  }

  function RunWeight(ms: nat, nump: nat, nums: nat): (w: int32)
    requires 1 <= nums <= ms <= 160 && 1 <= nump <= PULSES
    ensures 0 <= w <= P_MAX
  {
    MulQ31(Longer(ms, nump, nums - 1), Hit(ms, nump, nums))
  }

  function RunWeights(ms: nat, nump: nat): (p: seq<int32>)
    requires 1 <= ms <= 160 && 1 <= nump <= PULSES
    ensures |p| == ms && NonNegative(p)
  {
    seq(ms, i requires 0 <= i < ms => RunWeight(ms, nump, i + 1))
  }

  lemma FirstWeight(ms: nat, nump: nat)
    requires 1 <= ms <= 160 && 1 <= nump <= PULSES
    ensures RunWeights(ms, nump)[0] == Hit(ms, nump, 1) >= 1
  {
    hide Hit;
    DivModUnique(ONE_Q31 * Hit(ms, nump, 1), ONE_Q31, Hit(ms, nump, 1), 0);
  }

  /** The weights so far and the chance of something longer add up to one, less a unit of rounding a step. */
  lemma {:induction false} RunMass(ms: nat, nump: nat, n: nat)
    requires 1 <= ms <= 160 && n <= ms && 1 <= nump <= PULSES
    ensures ONE_Q31 - n <= Sum(Counts(RunWeights(ms, nump)), n) + Longer(ms, nump, n) <= ONE_Q31
  {
    hide Hit, Missed, MulQ31;
    if n > 0 {
      RunMass(ms, nump, n - 1);
      SplitsInTwo(Longer(ms, nump, n - 1), Hit(ms, nump, n));
    }
  }

  lemma SplitsInTwo(a: nat, b: nat)
    requires a <= ONE_Q31 && b <= ONE_Q31
    ensures a - 1 <= MulQ31(a, b) + MulQ31(a, ONE_Q31 - b) <= a
  {
    assert a * b + a * (ONE_Q31 - b) == a * ONE_Q31;
  }

  /** The chance left out is one in `left`, rounded down. */
  lemma MissedLaw(left: nat)
    requires 0 < left <= ONE_Q31
    ensures left * (ONE_Q31 - Missed(left)) <= ONE_Q31 < left * (ONE_Q31 - Missed(left) + 1)
  {
    DivAtMost(ONE_Q31, left);
    assert left * (ONE_Q31 / left + 1) == ONE_Q31 / left * left + left;
  }

  /** Density rises with the pulses and falls with the samples, and is zero where they are equal. */
  lemma DensityLaw(ms: nat, nump: nat, ms': nat, nump': nat)
    requires 1 <= ms' <= ms <= 160 && 1 <= nump <= nump' <= PULSES
    ensures Density(ms, nump) <= Density(ms', nump')
    ensures nump > ms ==> Density(ms, nump) >= 0
    ensures nump <= ms ==> Density(ms, nump) <= 0
  {
    hide Lin2log, Density;
    DensitySide(ms, nump);
    DensitySide(ms', nump');
    if nump > ms {
      QuotientGrows(nump * 1024, ms, nump' * 1024, ms');
      Lin2logRises(nump * 1024 / ms, nump' * 1024 / ms');
    } else if nump' <= ms' {
      QuotientGrows(ms' * 1024, nump', ms * 1024, nump);
      Lin2logRises(ms' * 1024 / nump', ms * 1024 / nump);
    }
  }

  lemma DensitySide(ms: nat, nump: nat)
    requires 1 <= ms <= 160 && 1 <= nump <= PULSES
    ensures nump > ms ==>
              nump * 1024 / ms >= 1024 && Density(ms, nump) == Lin2log(nump * 1024 / ms) - 10 * 128 >= 0
    ensures nump <= ms ==>
              ms * 1024 / nump >= 1024 && Density(ms, nump) == 10 * 128 - Lin2log(ms * 1024 / nump) <= 0
  {
    hide Lin2log;
    LogOf1024();
    if nump > ms {
      MultiplesWithin(1024, ms, nump * 1024);
      Lin2logRises(1024, nump * 1024 / ms);
    } else {
      MultiplesWithin(1024, nump, ms * 1024);
      Lin2logRises(1024, ms * 1024 / nump);
    }
  }

  lemma LogOf1024()
    ensures Lin2log(1024) == 10 * 128
  {
    Pow2Add(8, 2);
    Pow2Values();
    hide Pow2, Lin2log;
    LogOfPower(1024, 10);
  }

  /** Denser pulses are bent further, but for the two units the sigmoid falls by at its seams. */
  lemma ScaleLaw(ms: nat, nump: nat, ms': nat, nump': nat)
    requires 1 <= ms' <= ms <= 160 && 1 <= nump <= nump' <= PULSES
    ensures ScaleFac(ms', nump') <= ScaleFac(ms, nump) + 1
  {
    hide Density, SigmQ15;
    DensityLaw(ms, nump, ms', nump');
    SigmRises(Density(ms, nump) / 4 + 146, Density(ms', nump') / 4 + 146);
  }

  /** Bending raises to the power scale / 32768: it multiplies the logarithm, taken from one, by that. */
  lemma BentLaw(x: int32, scale: int32)
    requires x > 0 && 26000 <= scale <= 36000
    ensures var q := scale * (Lin2log(x) - 31 * 128) / 0x8000 + 31 * 128;
            896 <= q < 3967 ==> q - 3 <= Lin2log(Bent(x, scale)) <= q + 1
  {
    hide Lin2log, Log2lin;
    MulOrder(scale, Lin2log(x) - 31 * 128, 10);
    MulOrder(scale, -31 * 128, Lin2log(x) - 31 * 128);
    var q := scale * (Lin2log(x) - 31 * 128) / 0x8000 + 31 * 128;
    if 896 <= q < 3967 {
      Log2linInverts(q);
    }
  }

  /** The probability of a hit, as the loop computes it. */
  method NextHit(ms: nat, nump: nat, nums: nat) returns (p1Q31: nat)
    requires 1 <= nums <= ms <= 160 && 1 <= nump <= PULSES
    ensures p1Q31 == Hit(ms, nump, nums)
  {
    hide Lin2log, Log2lin, SigmQ15;
    var tmp := Missed(ms - nums + 1);
    p1Q31 := tmp;
    for r := 0 to nump - 1
      invariant p1Q31 == Power(tmp, r)
    {
      p1Q31 := MulQ31(p1Q31, tmp);
    }
    p1Q31 := ONE_Q31 - p1Q31;
    if p1Q31 > P_MAX {
      p1Q31 := P_MAX;
    }
    var logOutQ7: int32 := Density(ms, nump);
    var scaleFacQ15: int32 := 36000 - (36000 - 26000) * SigmQ15(logOutQ7 / 4 + 146) / 0x8000;
    p1Q31 := ONE_Q31 - Bent(ONE_Q31 - p1Q31, scaleFacQ15);
    if p1Q31 > P_MAX {
      p1Q31 := P_MAX;
    }
  }

  /** The table that run-length weights build. */
  ghost predicate RunlenCmf(cmf: seq<uint16>, ms: nat, nump: nat)
    requires 1 <= ms <= 160 && 1 <= nump <= PULSES
  {
    && Sum(Counts(RunWeights(ms, nump)), ms) > 0 && cmf == Table(Counts(RunWeights(ms, nump)))
    && Strict(cmf) && |cmf| == ms + 1
  }

  method CreateRunlenCmf(ms: nat, nump: nat) returns (cmf: seq<uint16>)
    requires 1 <= ms <= 160 && 1 <= nump <= PULSES
    ensures RunlenCmf(cmf, ms, nump)
  {
    hide Hit, Strict, Table, Sum, Counts;
    var plongerQ31: nat := ONE_Q31;
    var p: seq<int32> := [];
    for nums := 1 to ms + 1
      invariant |p| == nums - 1 && plongerQ31 == Longer(ms, nump, nums - 1)
      invariant forall i :: 0 <= i < nums - 1 ==> p[i] == RunWeight(ms, nump, i + 1)
    {
      var p1Q31 := NextHit(ms, nump, nums);
      p := p + [MulQ31(plongerQ31, p1Q31)];
      plongerQ31 := MulQ31(plongerQ31, ONE_Q31 - p1Q31);
    }
    assert p == RunWeights(ms, nump);
    FirstWeight(ms, nump);
    cmf := BuildTable(p, 0);
  }

  method CreateRunlenTable(maxSamples: nat) returns (t: Pulses.RunlenTable)
    requires 1 <= maxSamples <= 160
    ensures t.maxSamples == maxSamples && |t.cmfs| == PULSES
    ensures forall c :: 0 <= c < PULSES ==> RunlenCmf(t.cmfs[c], maxSamples, c + 1)
  {
    hide RunlenCmf;
    var cmfs: seq<seq<uint16>> := [];
    for nump := 1 to PULSES + 1
      invariant |cmfs| == nump - 1
      invariant forall c :: 0 <= c < nump - 1 ==> RunlenCmf(cmfs[c], maxSamples, c + 1)
    {
      var cmf := CreateRunlenCmf(maxSamples, nump);
      cmfs := cmfs + [cmf];
    }
    t := Pulses.RunlenTable(maxSamples, cmfs);
  }

  // ---- Splits ----

  const TOTALS := 159
  const LOG2_EXP1_Q15 := 47274
  const LOG2_2PI_Q14 := 43442

  /** log2(n!) in Q15 by Stirling's formula. */
  function Stirling(n: nat): (r: int32)
    requires n <= TOTALS
    ensures -8_000_000 <= r <= 170_000_000
  {
    if n == 0 then 0
    else
      QuotientSmall(12 * n);
      StirlingFits(n, Lin2log(n));
      (2 * n + 1) * (Lin2log(n) * 128) - LOG2_EXP1_Q15 * n + LOG2_2PI_Q14 + LOG2_EXP1_Q15 / (12 * n)
  }

  lemma StirlingFits(n: nat, l: nat)
    requires 1 <= n <= TOTALS && l <= 3978
    ensures 0 <= (2 * n + 1) * (l * 128) <= 319 * (3978 * 128)
  {
    MulOrder(2 * n + 1, 0, l * 128);
    MulOrder(2 * n + 1, l * 128, 3978 * 128);
  }

  lemma QuotientSmall(d: nat)
    requires d >= 12
    ensures 0 <= LOG2_EXP1_Q15 / d <= 3939
    ensures d >= 24 ==> LOG2_EXP1_Q15 / d <= 1969
  {
    DivAtMost(LOG2_EXP1_Q15, d);
    MulOrder(LOG2_EXP1_Q15 / d, 12, d);
    if d >= 24 {
      MulOrder(LOG2_EXP1_Q15 / d, 24, d);
    }
  }

  /** log2 of the chance that k of n pulses fall in the first half, in Q15. */
  function SplitLog(k: nat, n: nat): (r: int32)
    requires k <= n <= TOTALS
    ensures -400_000_000 <= r <= 400_000_000
  {
    Stirling(n) - Stirling(k) - Stirling(n - k) - n * 0x8000
  }

  /** The rounded logarithms lose at most a unit each. */
  lemma GainRounds(n: nat)
    requires 1 <= n <= TOTALS
    ensures Gain(n) - 0x1_0000 * (2 * n + 1) <= 512 * ((2 * n + 1) * (Lin2log(n) * 128)) <= Gain(n)
  {
    LogRounds(n);
    DivAtMost(Curve(n), 0x1_0000);
    CurveBounds(n);
    var l := Lin2log(n);
    Rounded(2 * n + 1, l, Curve(n));
  }

  lemma Rounded(w: nat, l: int, c: int)
    requires 0x1_0000 * l <= c <= 0x1_0000 * l + 0x1_0000
    ensures w * c - 0x1_0000 * w <= 512 * (w * (l * 128)) <= w * c
  {
    assert 512 * (w * (l * 128)) == w * (0x1_0000 * l);
    MulOrder(w, 0x1_0000 * l, c);
    MulOrder(w, c, 0x1_0000 * l + 0x1_0000);
    assert w * (0x1_0000 * l + 0x1_0000) == w * (0x1_0000 * l) + 0x1_0000 * w;
  }

  lemma StirlingRounds(n: nat)
    requires 1 <= n <= TOTALS
    ensures var rest := 512 * (Stirling(n) + LOG2_EXP1_Q15 * n - LOG2_2PI_Q14);
            && Gain(n) - 0x1_0000 * (2 * n + 1) <= rest <= Gain(n) + 512 * 3939
            && (n >= 2 ==> rest <= Gain(n) + 512 * 1969)
  {
    hide Gain, Lin2log;
    GainRounds(n);
    QuotientSmall(12 * n);
  }

  lemma SplitLogParts(k: nat, n: nat)
    requires 1 <= k < n <= TOTALS
    ensures 512 * SplitLog(k, n) <= Gain(n) - Gain(k) - Gain(n - k) - 2 * n * OCTAVE + 0x1_0000 * (2 * n + 2)
                                    - 512 * (LOG2_2PI_Q14 - 1969)
    ensures 512 * SplitLog(k, n) >= Gain(n) - Gain(k) - Gain(n - k) - 2 * n * OCTAVE - 0x1_0000 * (2 * n + 1)
                                    - 512 * (LOG2_2PI_Q14 + 7878)
  {
    hide Gain, Stirling;
    StirlingRounds(n);
    StirlingRounds(k);
    StirlingRounds(n - k);
  }

  /** The chance of a split is below one: its logarithm is negative, so no weight divides by zero. */
  lemma SplitLogNegative(k: nat, n: nat)
    requires k <= n && 1 <= n <= TOTALS
    ensures SplitLog(k, n) < 0
  {
    hide Gain;
    if 0 < k < n {
      hide Stirling;
      SplitLogParts(k, n);
      if k <= n - k {
        AnySplit(k, n - k);
      } else {
        AnySplit(n - k, k);
      }
    }
  }

  /** The even split is never so unlikely that its weight vanishes. */
  lemma EvenSplitLikely(n: nat)
    requires 1 <= n <= TOTALS
    ensures SplitLog(n / 2, n) >= -900000
  {
    hide *;
    if n == 1 {
      OneSplit();
    } else {
      LargeEvenSplit(n);
    }
  }

  lemma OneSplit()
    ensures SplitLog(0, 1) == -0x8000
  {
    assert Stirling(0) == 0;
    hide Stirling;
  }

  lemma LargeEvenSplit(n: nat)
    requires 2 <= n <= TOTALS
    ensures SplitLog(n / 2, n) >= -900000
  {
    hide Gain, Stirling, SplitLog, Lin2log;
    SplitLogParts(n / 2, n);
    EvenSplit(n);
    EvenBound(SplitLog(n / 2, n), Rest(n), n);
  }

  lemma EvenBound(split: int, rest: int, n: nat)
    requires n <= TOTALS && rest >= -3 * 1100 * 0x1_0000
    requires 512 * split >= rest - 0x1_0000 * (2 * n + 1) - 512 * (LOG2_2PI_Q14 + 7878)
    ensures split >= -900000
  {
  }

  function ProbSplitFast(k: nat, n: nat): (w: int32)
    requires k <= n && 1 <= n <= TOTALS
    ensures 0 <= w <= 0x4000_0000
    ensures k == n / 2 ==> w > 0
  {
    var tmp: int32 := SplitLog(k, n);
    if tmp == 0 then 0x4000_0000
    else
      SplitLogNegative(k, n);
      EvenSplitLikely(n);
      Inverse(-tmp)
  }

  /** 2 to the minus x, x in Q15, as a weight in Q30. */
  function Inverse(x: int32): (w: int32)
    requires x > 0
    ensures 0 <= w <= 0x4000_0000
    ensures x <= 900000 ==> w > 0
  {
    var ret := Log2lin(x / 256);
    DivAtMost(0x4000_0000, ret);
    if x <= 900000 then QuotientRange(0x4000_0000, ret); 0x4000_0000 / ret else 0x4000_0000 / ret
  }

  lemma SplitMirrors(k: nat, n: nat)
    requires k <= n && 1 <= n <= TOTALS
    ensures ProbSplitFast(k, n) == ProbSplitFast(n - k, n)
  {
    LogMirrors(k, n);
    hide SplitLog, Inverse;
  }

  lemma LogMirrors(k: nat, n: nat)
    requires k <= n && 1 <= n <= TOTALS
    ensures SplitLog(k, n) == SplitLog(n - k, n)
  {
    hide Stirling;
    assert n - (n - k) == k;
  }

  /** One factor more in the factorial adds its own logarithm, to within the rounding of Stirling's formula. */
  lemma StirlingStep(x: nat)
    requires x < TOTALS
    ensures -128 * (2 * x + 71) <= Stirling(x + 1) - Stirling(x) - 256 * Lin2log(x + 1) <= 128 * (2 * x + 71)
  {
    LogRounds(x + 1);
    if x == 0 {
      StirlingFirst();
    } else {
      hide Gain, Stirling, Curve, Lin2log;
      StirlingRounds(x);
      StirlingRounds(x + 1);
      GainStep(x);
      StepBounds(x, Stirling(x), Stirling(x + 1), Gain(x), Gain(x + 1), Curve(x + 1), Lin2log(x + 1));
    }
  }

  lemma StirlingFirst()
    ensures Stirling(1) == 107 && Stirling(0) == 0 && Lin2log(1) == 0
  {
    hide Lin2log;
    LogOfOne();
    StirlingParts(1);
  }

  lemma LogOfOne()
    ensures Lin2log(1) == 0
  {
    hide Lin2log, Curve;
    LogRounds(1);
    CurveOfOne();
  }

  lemma StirlingParts(n: nat)
    requires 1 <= n <= TOTALS
    ensures Stirling(n)
         == (2 * n + 1) * (Lin2log(n) * 128) - LOG2_EXP1_Q15 * n + LOG2_2PI_Q14 + LOG2_EXP1_Q15 / (12 * n)
  {
  }

  lemma StepBounds(x: nat, s: int, s': int, g: int, g': int, c: int, l: int)
    requires g - 0x1_0000 * (2 * x + 1) <= 512 * (s + LOG2_EXP1_Q15 * x - LOG2_2PI_Q14) <= g + 512 * 3939
    requires g' - 0x1_0000 * (2 * x + 3) <= 512 * (s' + LOG2_EXP1_Q15 * (x + 1) - LOG2_2PI_Q14) <= g' + 512 * 3939
    requires LOW <= g' - g - 2 * c <= HIGH && l == c / 0x1_0000
    ensures -128 * (2 * x + 71) <= s' - s - 256 * l <= 128 * (2 * x + 71)
  {
  }

  lemma GainStep(x: nat)
    requires 1 <= x < TOTALS
    ensures LOW <= Gain(x + 1) - Gain(x) - 2 * Curve(x + 1) <= HIGH
  {
    hide Curve;
    CurveStep(x);
    assert Gain(x + 1) - Gain(x) == 2 * Curve(x + 1) + (2 * x + 1) * (Curve(x + 1) - Curve(x));
  }

  /** From k to k + 1 the chance changes by the ratio (n - k) / (k + 1) of the binomials, rounding aside. */
  lemma SplitRatio(k: nat, n: nat)
    requires k < n <= TOTALS
    ensures var step := SplitLog(k + 1, n) - SplitLog(k, n);
            -256 * (n + 70) <= step - 256 * (Lin2log(n - k) - Lin2log(k + 1)) <= 256 * (n + 70)
  {
    hide Stirling, Lin2log;
    StirlingStep(k);
    StirlingStep(n - k - 1);
  }

  /** Likelier splits never weigh less. */
  lemma WeightOrder(j: nat, k: nat, m: nat, n: nat)
    requires j <= m && k <= n && 1 <= m <= TOTALS && 1 <= n <= TOTALS && SplitLog(j, m) <= SplitLog(k, n)
    ensures ProbSplitFast(j, m) <= ProbSplitFast(k, n)
  {
    hide SplitLog, Inverse;
    SplitLogNegative(j, m);
    SplitLogNegative(k, n);
    InverseFalls(-SplitLog(k, n), -SplitLog(j, m));
  }

  /** So the weights rise towards the middle wherever the ratio is clear of the rounding. */
  lemma SplitRises(k: nat, n: nat)
    requires k < n <= TOTALS && Lin2log(n - k) - Lin2log(k + 1) >= n + 70
    ensures ProbSplitFast(k, n) <= ProbSplitFast(k + 1, n)
  {
    hide SplitLog, Lin2log, ProbSplitFast;
    SplitRatio(k, n);
    WeightOrder(k, k + 1, n, n);
  }

  lemma QuotientFalls(a: nat, b: nat, x: nat)
    requires 1 <= a <= b
    ensures 0 <= x / b <= x / a
  {
    DivAtMost(x, a);
    DivAtMost(x, b);
    MulOrder(x / b, a, b);
    MultiplesWithin(x / b, a, x);
  }

  lemma InverseFalls(x: int32, y: int32)
    requires 0 < x <= y
    ensures Inverse(y) <= Inverse(x)
  {
    hide Log2lin;
    Log2linRises(x / 256, y / 256);
    QuotientFalls(Log2lin(x / 256), Log2lin(y / 256), 0x4000_0000);
  }

  /** One bit less likely weighs half as much, rounded, from a whole at no bits. */
  lemma InverseHalves(x: int32)
    requires 0 < x && x + 0x8000 < 3967 * 256
    ensures 2 * Inverse(x + 0x8000) <= Inverse(x) <= 3 * Inverse(x + 0x8000) + 3
    ensures x < 256 ==> Inverse(x) == 0x4000_0000
  {
    hide Log2lin;
    assert (x + 0x8000) / 256 == x / 256 + 128;
    Log2linDoubles(x / 256);
    HalfQuotient(Log2lin(x / 256), Log2lin(x / 256 + 128), 0x4000_0000);
    if x < 256 {
      PowerOfZero();
    }
  }

  lemma HalfQuotient(f: nat, g: nat, t: nat)
    requires 1 <= f && 2 * f <= g <= 3 * f
    ensures 2 * (t / g) <= t / f <= 3 * (t / g) + 3
  {
    DivAtMost(t, f);
    DivAtMost(t, g);
    var v: nat, w: nat := t / f, t / g;
    MulOrder(w, 2 * f, g);
    assert w * (2 * f) == 2 * w * f;
    MultiplesWithin(2 * w, f, t);
    MulOrder(w + 1, g, 3 * f);
    assert (w + 1) * g == w * g + g && (w + 1) * (3 * f) == (3 * w + 3) * f;
    assert v * f < (3 * w + 3) * f;
    Cancel(f, v, 3 * w + 3);
  }

  lemma PowerOfZero()
    ensures Log2lin(0) == 1
  {
  }

  /** The weight is the inverse power of two: its reciprocal has the logarithm it was made from. */
  lemma InverseInverts(x: int32, high: int32, low: int32)
    requires 896 * 256 <= x < 3967 * 256 && Inverse(x) > 0
    requires high == 0x4000_0000 / Inverse(x) && low == 0x4000_0000 / (Inverse(x) + 1)
    ensures high >= 1 && Lin2log(high) >= x / 256 - 3
    ensures low >= 1 ==> Lin2log(low) <= x / 256 + 1
  {
    hide Log2lin, Lin2log;
    Log2linInverts(x / 256);
    var f := Log2lin(x / 256);
    assert Inverse(x) == 0x4000_0000 / f;
    hide Inverse;
    Reciprocal(f, 0x4000_0000, Inverse(x), high, low);
    Lin2logRises(f, high);
    if low >= 1 {
      Lin2logRises(low, f);
    }
  }

  lemma Reciprocal(f: nat, t: nat, w: int, high: int, low: int)
    requires 1 <= f && w == t / f > 0 && high == t / w && low == t / (w + 1)
    ensures 0 <= low <= f <= high <= t
  {
    DivAtMost(t, f);
    DivAtMost(t, w);
    DivAtMost(t, w + 1);
    Crosswise(f, t, w, high, low);
  }

  lemma Crosswise(f: nat, t: nat, w: nat, high: nat, low: nat)
    requires w * f <= t < w * f + f && high * w <= t < high * w + w && low * (w + 1) <= t
    ensures low <= f <= high
  {
    assert (w + 1) * low <= t < (w + 1) * (f + 1);
    Cancel(w + 1, low, f + 1);
    assert w * f <= t < w * (high + 1);
    Cancel(w, f, high + 1);
  }

  /** The fewest pulses the first half can hold without the second holding more than eighty. */
  function MinSplit(n: nat): (k: nat)
    requires n <= TOTALS
    ensures 2 * k <= n
  {
    Max(n - 2 * PULSES, 0)
  }

  /** How many first-half counts a total has. */
  function Splits(n: nat): (s: nat)
    requires n <= TOTALS
  {
    n - 2 * MinSplit(n) + 1
  }

  function SplitWeight(n: nat, i: nat): (w: int32)
    requires 1 <= n <= TOTALS && i < Splits(n)
    ensures 0 <= w && (i == n / 2 - MinSplit(n) ==> w > 0)
  {
    ProbSplitFast(MinSplit(n) + i, n)
  }

  function SplitWeights(n: nat): (p: seq<int32>)
    requires 1 <= n <= TOTALS
    ensures |p| == Splits(n) && NonNegative(p)
    ensures p[n / 2 - MinSplit(n)] > 0
  {
    seq(Splits(n), i requires 0 <= i < Splits(n) => SplitWeight(n, i))
  }

  /** The table that the weights of a total's splits build. */
  ghost predicate SplitCmf(cmf: seq<uint16>, n: nat)
    requires 1 <= n <= TOTALS
  {
    && Sum(Counts(SplitWeights(n)), |SplitWeights(n)|) > 0 && cmf == Table(Counts(SplitWeights(n)))
    && Pulses.SplitOk(cmf, n)
  }

  method CreateSplitCmf(numPulses: nat) returns (cmf: seq<uint16>)
    requires 1 <= numPulses <= TOTALS
    ensures SplitCmf(cmf, numPulses)
  {
    hide Strict, Table, Sum, Counts, ProbSplitFast;
    var minSplit := numPulses - 2 * PULSES;
    if minSplit < 0 {
      minSplit := 0;
    }
    var maxSplit := numPulses - minSplit;
    var p: seq<int32> := [];
    for k := minSplit to maxSplit + 1
      invariant |p| == k - minSplit
      invariant forall i :: 0 <= i < |p| ==> p[i] == ProbSplitFast(minSplit + i, numPulses)
    {
      p := p + [ProbSplitFast(k, numPulses)];
    }
    assert p == SplitWeights(numPulses);
    cmf := BuildTable(p, numPulses / 2 - minSplit);
  }

  method CreateSplitCmfs() returns (cmfs: seq<seq<uint16>>)
    ensures |cmfs| == TOTALS && forall i :: 0 <= i < TOTALS ==> SplitCmf(cmfs[i], i + 1)
  {
    hide SplitCmf;
    cmfs := [];
    for numPulses := 1 to TOTALS + 1
      invariant |cmfs| == numPulses - 1
      invariant forall i :: 0 <= i < numPulses - 1 ==> SplitCmf(cmfs[i], i + 1)
    {
      var cmf := CreateSplitCmf(numPulses);
      cmfs := cmfs + [cmf];
    }
  }

  // ---- The pulse tables ----

  /** What the frame results assume of the pulse tables holds of the ones the code builds. */
  method BuildPulseTables() returns (t: Pulses.PulseTables)
    ensures t.Ok()
    ensures forall i :: 0 <= i < TOTALS ==> SplitCmf(t.splitCmfs[i], i + 1)
    ensures forall o, c :: 0 <= o < 20 && 0 <= c < PULSES ==> RunlenCmf(t.runlen[o].cmfs[c], 8 * (o + 1), c + 1)
  {
    hide Strict, Table, Sum, Counts, ProbSplitFast, RunWeights;
    var splits := CreateSplitCmfs();
    var runlen: seq<Pulses.RunlenTable> := [];
    for oct := 1 to 21
      invariant |runlen| == oct - 1
      invariant forall o :: 0 <= o < oct - 1 ==> Pulses.RunlenOk(runlen[o], o + 1)
      invariant forall o, c :: 0 <= o < oct - 1 && 0 <= c < PULSES ==> RunlenCmf(runlen[o].cmfs[c], 8 * (o + 1), c + 1)
    {
      var table := CreateRunlenTable(8 * oct);
      runlen := runlen + [table];
    }
    t := Pulses.PulseTables(splits, runlen);
  }

  /**
   * Vector to symbols to bits and back, with the tables the code builds: a vector of at most forty pulses a
   * subframe comes back whole whenever its symbols fit the buffer.
   */
  method PulseRoundTrip(v: seq<int>, size: nat) returns (t: Pulses.PulseTables, ok: bool, got: seq<int>)
    requires |v| == Vectors.FRAME && Vectors.CountsOk(Vectors.Counts(v)) && size < 0x1_0000_0000
    ensures t.Ok() && Vectors.Build(v).Ok() && AllCodable(Pulses.PulseTrace(t, Vectors.Build(v)))
    ensures ok <==> FlushedBytes(Run(START, Pulses.PulseTrace(t, Vectors.Build(v)))) <= size
    ensures ok ==> got == v
  {
    hide Pulses.PulseTables.Ok, Pulses.PulseTrace, Vectors.Build, Vectors.Vector, Vectors.CountsOk, Run, FlushedBytes,
         Vectors.PulseParams.Ok, RangeDecoder.Valid;
    t := BuildPulseTables();
    var pp := Vectors.BuildPulseParams(v);
    Vectors.VectorBuild(v);
    var enc := new RangeEncoder(size);
    Pulses.EncodeSmplPulses(enc, t, pp);
    ghost var trace := Pulses.PulseTrace(t, pp);
    assert enc.trace == trace;
    enc.Done();
    ok := enc.err == 0;
    got := [];
    if ok {
      assert enc.buf[..enc.offs] <= enc.buf[..];
      var dec := new RangeDecoder(enc.buf[..], trace, []);
      assert trace + [] == trace;
      var res;
      res, got := Pulses.DecodeSmplPulses(dec, t, pp, []);
    }
  }
}
