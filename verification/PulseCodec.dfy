/** The pulse block of an internal frame: count, split over four subframes, runs, signs. */
module PulseCodec {
  import opened Arith
  import opened RangeSpec
  import opened RangeEncoding
  import opened RangeDecoding
  import opened CdfCoding
  import opened PulseVector
  import CdfTables

  /** Pulses per frame at the high rate: rodata byte 160 for either voicing class. */
  const FRAME_LEN := 160
  const SUBFR_LEN := FRAME_LEN / NUM

  datatype RunlenTable = RunlenTable(maxSamples: nat, cmfs: seq<Cdf>)

  datatype PulseTables = PulseTables(splitCmfs: seq<Cdf>, runlen: seq<RunlenTable>) {
    ghost predicate Ok() {
      && |splitCmfs| == 159 && (forall i :: 0 <= i < 159 ==> SplitOk(splitCmfs[i], i + 1))
      && |runlen| == 20 && (forall o :: 0 <= o < 20 ==> RunlenOk(runlen[o], o + 1))
    }

    /** The split table for a total; none for an empty or a full frame. */
    function SplitCmf(total: int): Cdf {
      if 1 <= total <= |splitCmfs| then splitCmfs[total - 1] else []
    }
  }

  /** One entry for every first-half count that leaves neither half with more than eighty. */
  ghost predicate SplitOk(cdf: Cdf, total: nat) {
    Strict(cdf) && |cdf| == total - 2 * Max(total - 80, 0) + 2
  }

  ghost predicate RunlenOk(t: RunlenTable, oct: nat) {
    && t.maxSamples == 8 * oct && |t.cmfs| == MAX_PULSES
    && forall c :: 0 <= c < MAX_PULSES ==> Strict(t.cmfs[c]) && |t.cmfs[c]| == 8 * oct + 1
  }

  /** n entries from `start`; entries outside the table read as zero. */
  function CdfWindow(cdf: Cdf, start: int, n: nat): (w: Cdf)
    ensures |w| == n
  {
    seq(n, i requires 0 <= i < n => if 0 <= start + i < |cdf| then cdf[start + i] else 0)
  }

  lemma WindowStrict(cdf: Cdf, start: nat, n: nat)
    requires Strict(cdf) && n >= 2 && start + n <= |cdf|
    ensures Strict(CdfWindow(cdf, start, n))
  {
    CdfTables.StrictWindow(cdf, start, n);
    assert CdfWindow(cdf, start, n) == cdf[start..start + n];
  }

  // ---- Count ----

  function Wrap(x: int): uint32 { x % 0x1_0000_0000 }

  function Mul32(a: uint32, b: uint32): uint32 { Wrap(a * b) }

  function Masked(a: uint32, b: uint32): uint32 { Wrap(a - b) % 0x1_0000 }

  /** The triangular prior in wrapping 32-bit arithmetic. */
  function TriT(l: uint32, k: uint32): uint32 {
    Masked(Mul32(Wrap(k + 2), Wrap(l + 1)), Mul32(Wrap(k - 1), Wrap(k + 131070)) / 2)
  }

  /** The prior it computes: weight 321 for an empty frame, then 162 falling by one to 3. */
  function Cum(k: nat): (c: nat)
    requires k <= FRAME_LEN
    ensures c >= 321
  {
    if k == 0 then 321 else Cum(k - 1) + (163 - k)
  }

  lemma {:induction false} CumGrows(i: nat, j: nat)
    requires i < j <= FRAME_LEN
    ensures Cum(i) < Cum(j)
  {
    if i < j - 1 {
      CumGrows(i, j - 1);
    }
  }

  /** (k - 1)(k - 2) / 2 for k >= 1, by differences. */
  function Skew(k: nat): nat
    requires k >= 1
  {
    if k == 1 then 0 else Skew(k - 1) + (k - 2)
  }

  lemma {:induction false} SkewExact(k: nat)
    requires 1 <= k <= FRAME_LEN
    ensures (k - 1) * (k + 131070) == 2 * (Skew(k) + 65536 * (k - 1))
    ensures Cum(k) == (k + 2) * 161 - Skew(k) <= 321 + 162 * k
    ensures Skew(k) <= 160 * k
  {
    if k == 1 {
      assert Cum(0) == 321;
    } else {
      SkewExact(k - 1);
      assert (k - 1) * (k + 131070) == (k - 2) * (k + 131069) + 2 * (k + 65534);
    }
  }

  lemma TriPositive(k: nat)
    requires 1 <= k <= FRAME_LEN
    ensures TriT(FRAME_LEN, k) == Cum(k)
  {
    hide Mul32, Masked, Cum, Skew;
    assert Wrap(k + 2) == k + 2 && Wrap(FRAME_LEN + 1) == 161;
    assert Wrap(k - 1) == k - 1 && Wrap(k + 131070) == k + 131070;
    SmallProducts(k);
    SkewExact(k);
    WrapAway((k + 2) * 161, Skew(k), k - 1);
  }

  lemma TriZero()
    ensures TriT(FRAME_LEN, 0) == 321
  {
    assert Mul32(0xFFFF_FFFF, 131070) == 0xFFFE_0002 by {
      DivModUnique(0xFFFF_FFFF * 131070, 0x1_0000_0000, 131069, 0xFFFE_0002);
    }
    assert Mul32(2, 161) == 322;
    assert Masked(322, 0x7FFF_0001) == 321;
    hide Mul32, Masked;
    assert Wrap(0 - 1) == 0xFFFF_FFFF && Wrap(0 + 131070) == 131070;
    assert Wrap(0 + 2) == 2 && Wrap(160 + 1) == 161;
  }

  /** Wrapping and masking do not disturb the prior. */
  lemma TriExact(k: nat)
    requires k <= FRAME_LEN
    ensures TriT(FRAME_LEN, k) == Cum(k) <= Cum(FRAME_LEN) <= BOT
  {
    hide TriT;
    SkewExact(FRAME_LEN);
    if k > 0 {
      TriPositive(k);
    } else {
      TriZero();
    }
    if k < FRAME_LEN {
      CumGrows(k, FRAME_LEN);
    }
  }

  lemma SmallProducts(k: nat)
    requires 1 <= k <= FRAME_LEN
    ensures Mul32(k + 2, 161) == (k + 2) * 161
    ensures Mul32(k - 1, k + 131070) == 2 * (Skew(k) + 65536 * (k - 1))
  {
    SkewExact(k);
  }

  lemma WrapAway(a: nat, s: nat, m: nat)
    requires s <= a < s + 0x1_0000 && m < 1000 && a < 0x10_0000
    ensures Masked(a, s + 65536 * m) == a - s
  {
  }

  /** The symbol of a pulse count. */
  function CountSym(total: nat): (t: Sym)
    requires total <= FRAME_LEN
    ensures t.Codable()
  {
    TriExact(total);
    Sym(if total > 0 then Cum(total - 1) else 0, Cum(total), Cum(FRAME_LEN))
  }

  method EncodeCount(enc: RangeEncoder, total: nat)
    requires enc.Valid() && total <= FRAME_LEN
    modifies enc, enc.buf
    ensures enc.Valid() && enc.raws == old(enc.raws)
    ensures enc.trace == old(enc.trace) + [CountSym(total)]
    ensures enc.failed == old(enc.failed) && (old(enc.err) != 0 ==> enc.err != 0)
  {
    hide RangeEncoder.Valid, TriT;
    var l := FRAME_LEN;
    TriExact(l);
    TriExact(total);
    var ft: int := TriT(l, l);
    if ft == 0 {
      ft := 1;
    }
    var fl := 0;
    if total > 0 {
      TriExact(total - 1);
      fl := TriT(l, total - 1);
    }
    var fh := TriT(l, total);
    assert Sym(fl, fh, ft) == CountSym(total);
    enc.Encode(fl, fh, ft);
  }

  /** Finds the one count whose interval holds the decoded frequency. */
  method DecodeCount(dec: RangeDecoder, ghost sent: nat, ghost rest: seq<Sym>) returns (total: nat)
    requires dec.Valid()
    modifies dec
    ensures dec.Valid() && dec.Err == old(dec.Err) && total <= FRAME_LEN
    ensures sent <= FRAME_LEN && old(dec.todo) == [CountSym(sent)] + rest ==> total == sent && dec.todo == rest
  {
    hide RangeDecoder.Valid, TriT, Target, Step;
    var l := FRAME_LEN;
    TriExact(l);
    var ft: int := TriT(l, l);
    if ft == 0 {
      ft := 1;
    }
    forall k | 0 <= k <= l
      ensures TriT(l, k) == Cum(k)
    {
      TriExact(k);
    }
    var val := dec.Decode(ft);
    var prevCum := 0;
    var k := 0;
    while k != l + 1
      invariant k <= l + 1
      invariant prevCum == (if k == 0 then 0 else Cum(k - 1)) <= val
      decreases l + 1 - k
    {
      var cum := TriT(l, k);
      if prevCum <= val && val < cum {
        break;
      }
      prevCum := cum;
      k := k + 1;
    }
    total := k;
    UniqueCount(val, k);
    TriExact(k);
    assert Sym(prevCum, TriT(l, k), ft) == CountSym(k);
    dec.Update(prevCum, TriT(l, k), ft);
  }

  /** Intervals of different counts do not meet. */
  lemma UniqueCount(val: nat, k: nat)
    requires k <= FRAME_LEN && CountSym(k).fl <= val < CountSym(k).fh
    ensures forall j :: 0 <= j <= FRAME_LEN && CountSym(j).fl <= val < CountSym(j).fh ==> j == k
  {
    forall j | 0 <= j <= FRAME_LEN && CountSym(j).fl <= val < CountSym(j).fh
      ensures j == k
    {
      if j + 1 < k {
        CumGrows(j, k - 1);
      } else if k + 1 < j {
        CumGrows(k, j - 1);
      }
    }
  }

  // ---- Split ----

  /** The table for the first of two halves that share `count` pulses, at most `each` apiece. */
  function HalfTable(t: PulseTables, count: nat, each: nat): Cdf {
    var least, most := Max(count - each, 0), Min(count, each);
    CdfWindow(t.SplitCmf(count), least - (if each == 80 then Max(count - 80, 0) else 0), Max(most - least, 0) + 2)
  }

  /** The first half's count, as a symbol only when more than one count is possible. */
  ghost function HalfTrace(t: PulseTables, count: nat, each: nat, first: int): seq<Sym>
    requires t.Ok() && SplitFits(count, each, first)
  {
    if Max(count - each, 0) == Min(count, each) then []
    else
      HalfTableOk(t, count, each);
      [Code(HalfTable(t, count, each), first - Max(count - each, 0))]
  }

  /** Both halves get at most `each` pulses; 40 for subframes, 80 for half frames. */
  predicate SplitFits(count: nat, each: nat, first: int) {
    (each == 40 || each == 80) && 0 <= first <= each && 0 <= count - first <= each
  }

  lemma HalfTableOk(t: PulseTables, count: nat, each: nat)
    requires t.Ok() && (each == 40 || each == 80) && count <= 2 * each
    requires Max(count - each, 0) != Min(count, each)
    ensures Strict(HalfTable(t, count, each))
    ensures |HalfTable(t, count, each)| == Min(count, each) - Max(count - each, 0) + 2
  {
    assert SplitOk(t.splitCmfs[count - 1], count);
    WindowStrict(t.SplitCmf(count),
                 Max(count - each, 0) - (if each == 80 then Max(count - 80, 0) else 0),
                 Min(count, each) - Max(count - each, 0) + 2);
  }

  ghost function SplitTrace(t: PulseTables, subfr: seq<nat>): seq<Sym>
    requires t.Ok() && CountsOk(subfr)
  {
    var total, half := Off(subfr, NUM), Off(subfr, 2);
    SplitSizes(subfr);
    HalfTrace(t, total, 80, half)
    + (HalfTrace(t, half, 40, subfr[0])
    + HalfTrace(t, total - half, 40, subfr[2]))
  }

  lemma SplitSizes(subfr: seq<nat>)
    requires CountsOk(subfr)
    ensures Off(subfr, 2) == subfr[0] + subfr[1]
    ensures Off(subfr, NUM) == subfr[0] + subfr[1] + subfr[2] + subfr[3] <= FRAME_LEN
    ensures SplitFits(Off(subfr, NUM), 80, Off(subfr, 2))
    ensures SplitFits(Off(subfr, 2), 40, subfr[0])
    ensures SplitFits(Off(subfr, NUM) - Off(subfr, 2), 40, subfr[2])
  {
    FourCounts(subfr);
    assert Off(subfr, 1) == subfr[0];
  }

  /** The split of a subframe pair. */
  method EncodeSplit3537(enc: RangeEncoder, t: PulseTables, count: nat, granularity: nat, s0: nat)
    requires enc.Valid() && t.Ok() && granularity == SUBFR_LEN && SplitFits(count, granularity, s0)
    modifies enc, enc.buf
    ensures enc.Valid() && enc.raws == old(enc.raws)
    ensures enc.trace == old(enc.trace) + HalfTrace(t, count, 40, s0)
    ensures enc.failed == old(enc.failed) && (old(enc.err) != 0 ==> enc.err != 0)
  {
    hide RangeEncoder.Valid, PulseTables.Ok, Code, Strict, CdfWindow;
    var lo := Min(count, granularity);
    var minSplit := Max(count - granularity, 0);
    if lo < minSplit || minSplit == lo {
      return;
    }
    HalfTableOk(t, count, 40);
    Put(enc, s0 - minSplit, CdfWindow(t.SplitCmf(count), minSplit, lo - minSplit + 2));
  }

  method SmplSplit3537(dec: RangeDecoder, t: PulseTables, count: nat, granularity: nat,
                       ghost sent: int, ghost rest: seq<Sym>) returns (s0: int)
    requires dec.Valid() && t.Ok() && granularity == SUBFR_LEN && count <= 80
    modifies dec
    ensures dec.Valid() && dec.Err == old(dec.Err) && SplitFits(count, granularity, s0)
    ensures SplitFits(count, granularity, sent) && old(dec.todo) == HalfTrace(t, count, 40, sent) + rest ==>
              s0 == sent && dec.todo == rest
  {
    hide RangeDecoder.Valid, PulseTables.Ok, Code, Strict, CdfWindow;
    var lo := Min(count, granularity);
    var minSplit := Max(count - granularity, 0);
    if minSplit == lo {
      assert [] + rest == rest;
      return minSplit;
    }
    HalfTableOk(t, count, 40);
    var n := lo - minSplit + 2;
    var k := Take(dec, CdfWindow(t.SplitCmf(count), minSplit, n), sent - minSplit, rest);
    s0 := k + minSplit;
  }

  method EncodeSplit(enc: RangeEncoder, t: PulseTables, total: nat, subfr: seq<nat>)
    requires enc.Valid() && t.Ok() && CountsOk(subfr) && total == Off(subfr, NUM)
    modifies enc, enc.buf
    ensures enc.Valid() && enc.raws == old(enc.raws)
    ensures enc.trace == old(enc.trace) + SplitTrace(t, subfr)
    ensures enc.failed == old(enc.failed) && (old(enc.err) != 0 ==> enc.err != 0)
  {
    hide RangeEncoder.Valid, PulseTables.Ok, Code, Strict, CdfWindow;
    ghost var trace := enc.trace;
    SplitSizes(subfr);
    var finalSum := subfr[0] + subfr[1];
    var initSum := Max(total - SUBFR_LEN * 2, 0);
    var lo := Max(total - 80, 0);
    var hiBound := total - lo;
    if initSum < hiBound {
      HalfTableOk(t, total, 80);
      Put(enc, finalSum - initSum, CdfWindow(t.SplitCmf(total), initSum - lo, hiBound - initSum + 2));
    }
    assert enc.trace == trace + HalfTrace(t, total, 80, finalSum);
    if finalSum > 0 {
      EncodeSplit3537(enc, t, finalSum, SUBFR_LEN, subfr[0]);
    }
    if finalSum < total {
      EncodeSplit3537(enc, t, total - finalSum, SUBFR_LEN, subfr[2]);
    }
    assert enc.trace == trace + SplitTrace(t, subfr);
  }

  /** The first count of a subframe pair; an empty pair takes no symbol. */
  method DecodePair(dec: RangeDecoder, t: PulseTables, count: nat, ghost sent: int, ghost rest: seq<Sym>)
    returns (first: int)
    requires dec.Valid() && t.Ok() && count <= 80
    modifies dec
    ensures dec.Valid() && dec.Err == old(dec.Err) && SplitFits(count, 40, first)
    ensures SplitFits(count, 40, sent) && old(dec.todo) == HalfTrace(t, count, 40, sent) + rest ==>
              first == sent && dec.todo == rest
  {
    hide RangeDecoder.Valid, PulseTables.Ok;
    first := 0;
    if count > 0 {
      first := SmplSplit3537(dec, t, count, SUBFR_LEN, sent, rest);
    } else if SplitFits(0, 40, sent) {
      NothingToSplit(t, sent);
      assert [] + rest == rest;
    }
  }

  lemma NothingToSplit(t: PulseTables, first: int)
    requires t.Ok() && SplitFits(0, 40, first)
    ensures first == 0 && HalfTrace(t, 0, 40, first) == []
  {
  }

  method DecodeHalves(dec: RangeDecoder, t: PulseTables, total: nat, ghost sent: int, ghost rest: seq<Sym>)
    returns (sum: nat)
    requires dec.Valid() && t.Ok() && total <= FRAME_LEN
    modifies dec
    ensures dec.Valid() && dec.Err == old(dec.Err) && SplitFits(total, 80, sum)
    ensures SplitFits(total, 80, sent) && old(dec.todo) == HalfTrace(t, total, 80, sent) + rest ==>
              sum == sent && dec.todo == rest
  {
    hide RangeDecoder.Valid, PulseTables.Ok, Code, Strict, CdfWindow;
    sum := Max(total - SUBFR_LEN * 2, 0);
    var lo := Max(total - 80, 0);
    var hiBound := total - lo;
    assert [] + rest == rest;
    if sum < hiBound {
      HalfTableOk(t, total, 80);
      var k := Take(dec, CdfWindow(t.SplitCmf(total), sum - lo, hiBound - sum + 2), sent - sum, rest);
      sum := sum + k;
    }
  }

  method DecodeSplit(dec: RangeDecoder, t: PulseTables, total: nat, ghost sent: seq<nat>, ghost rest: seq<Sym>)
    returns (subfr: seq<nat>)
    requires dec.Valid() && t.Ok() && total <= FRAME_LEN
    modifies dec
    ensures dec.Valid() && dec.Err == old(dec.Err) && CountsOk(subfr) && Off(subfr, NUM) == total
    ensures CountsOk(sent) && Off(sent, NUM) == total && old(dec.todo) == SplitTrace(t, sent) + rest ==>
              subfr == sent && dec.todo == rest
  {
    hide RangeDecoder.Valid, PulseTables.Ok, Code, Strict, CdfWindow;
    ghost var kept := CountsOk(sent) && Off(sent, NUM) == total && dec.todo == SplitTrace(t, sent) + rest;
    ghost var half, a, b: int, afterHalf, afterFirst: seq<Sym> := 0, 0, 0, [], [];
    if kept {
      SplitSizes(sent);
      half, a, b := Off(sent, 2), sent[0], sent[2];
      afterFirst := HalfTrace(t, total - half, 40, b) + rest;
      afterHalf := HalfTrace(t, half, 40, a) + afterFirst;
      assert dec.todo == HalfTrace(t, total, 80, half) + afterHalf;
    }
    hide HalfTrace, SplitTrace;
    var sum := DecodeHalves(dec, t, total, half, afterHalf);
    var s0 := DecodePair(dec, t, sum, a, afterFirst);
    var s2 := DecodePair(dec, t, total - sum, b, rest);
    subfr := [s0, sum - s0, s2, total - sum - s2];
    FourCounts(subfr);
  }

  // ---- Runs ----

  /** The run table for c pulses on `pos` open positions: the last pos + 1 entries of its bucket. */
  function RunTable(t: PulseTables, pos: nat, c: nat): Cdf
    requires t.Ok() && 1 <= pos <= SUBFR && 1 <= c <= MAX_PULSES
  {
    assert RunlenOk(t.runlen[(pos + 7) / 8 - 1], (pos + 7) / 8);
    var bucket := t.runlen[(pos + 7) / 8 - 1];
    CdfWindow(bucket.cmfs[c - 1], bucket.maxSamples - pos, pos + 1)
  }

  lemma RunTableOk(t: PulseTables, pos: nat, c: nat)
    requires t.Ok() && 1 <= pos <= SUBFR && 1 <= c <= MAX_PULSES
    ensures Strict(RunTable(t, pos, c)) && |RunTable(t, pos, c)| == pos + 1
  {
    var oct := (pos + 7) / 8;
    assert RunlenOk(t.runlen[oct - 1], oct);
    WindowStrict(t.runlen[oct - 1].cmfs[c - 1], 8 * oct - pos, pos + 1);
  }

  lemma RunsFitTail(ms: seq<nat>, pos: nat)
    requires ms != [] && RunsFit(ms, pos)
    ensures ms[0] < pos && RunsFit(ms[1..], pos - ms[0])
  {
    assert ms == [ms[0]] + ms[1..] && [ms[0]][..0] == [];
    SumAppend([ms[0]], ms[1..]);
  }

  /** The symbols of the runs of one subframe, each against what is left of it. */
  ghost function RunTrace(t: PulseTables, ms: seq<nat>, pos: nat): seq<Sym>
    requires t.Ok() && RunsFit(ms, pos) && pos <= SUBFR && |ms| <= MAX_PULSES
    decreases |ms|
  {
    if ms == [] then []
    else
      RunsFitTail(ms, pos);
      RunTableOk(t, pos, |ms|);
      [Code(RunTable(t, pos, |ms|), ms[0])] + RunTrace(t, ms[1..], pos - ms[0])
  }

  lemma {:induction false} FitAt(subfr: seq<nat>, runs: seq<nat>, sf: nat, n: nat)
    requires |subfr| == NUM && sf < n <= NUM && Off(subfr, n) <= |runs| && AllFitRuns(subfr, runs, n)
    ensures Off(subfr, sf + 1) <= |runs| && RunsFit(SfRuns(subfr, runs, sf), SUBFR)
  {
    if sf < n - 1 {
      FitAt(subfr, runs, sf, n - 1);
    }
  }

  /** Subframe by subframe, from sf on. */
  ghost function RunBlock(t: PulseTables, subfr: seq<nat>, runs: seq<nat>, sf: nat): seq<Sym>
    requires t.Ok() && CountsOk(subfr) && sf <= NUM && Off(subfr, NUM) <= |runs| && AllFitRuns(subfr, runs, NUM)
    decreases NUM - sf
  {
    if sf == NUM then []
    else
      FitAt(subfr, runs, sf, NUM);
      RunTrace(t, SfRuns(subfr, runs, sf), SUBFR) + RunBlock(t, subfr, runs, sf + 1)
  }

  /** Replays the runs of one subframe. */
  method EncodeRuns(enc: RangeEncoder, t: PulseTables, ms: seq<nat>)
    requires enc.Valid() && t.Ok() && RunsFit(ms, SUBFR) && |ms| <= MAX_PULSES
    modifies enc, enc.buf
    ensures enc.Valid() && enc.raws == old(enc.raws)
    ensures enc.trace == old(enc.trace) + RunTrace(t, ms, SUBFR)
    ensures enc.failed == old(enc.failed) && (old(enc.err) != 0 ==> enc.err != 0)
  {
    hide RangeEncoder.Valid, PulseTables.Ok, Code, Strict, RunTable, Sum;
    var pos := SUBFR;
    var c := |ms|;
    var k := 0;
    assert ms[0..] == ms;
    while k < |ms|
      invariant 0 <= k <= |ms| && c == |ms| - k && 1 <= pos <= SUBFR
      invariant enc.Valid() && enc.raws == old(enc.raws)
      invariant RunsFit(ms[k..], pos)
      invariant enc.trace + RunTrace(t, ms[k..], pos) == old(enc.trace) + RunTrace(t, ms, SUBFR)
      invariant enc.failed == old(enc.failed) && (old(enc.err) != 0 ==> enc.err != 0)
    {
      hide RunsFit;
      ghost var trace, tail := enc.trace, ms[k..];
      RunsFitTail(tail, pos);
      RunTableOk(t, pos, c);
      assert tail[1..] == ms[k + 1..] && tail[0] == ms[k];
      var m := ms[k];
      Put(enc, m, RunTable(t, pos, c));
      assert enc.trace + RunTrace(t, ms[k + 1..], pos - m) == trace + RunTrace(t, tail, pos);
      if m > 0 || k == 0 {
        pos := pos - m;
      }
      c := c - 1;
      k := k + 1;
    }
    assert ms[k..] == [];
  }

  lemma SumPush(ms: seq<nat>, m: nat)
    ensures Sum(ms + [m]) == Sum(ms) + m
  {
    assert (ms + [m])[..|ms|] == ms;
  }

  /** Splits the next promised run off. */
  lemma RunNext(t: PulseTables, ms: seq<nat>, k: nat, pos: nat, rest: seq<Sym>)
    requires t.Ok() && k < |ms| <= MAX_PULSES && 1 <= pos <= SUBFR && RunsFit(ms[k..], pos)
    ensures ms[k] < pos && RunsFit(ms[k + 1..], pos - ms[k]) && Codes(RunTable(t, pos, |ms| - k), ms[k])
    ensures RunTrace(t, ms[k..], pos) + rest
         == [Code(RunTable(t, pos, |ms| - k), ms[k])] + (RunTrace(t, ms[k + 1..], pos - ms[k]) + rest)
  {
    hide RunTable, PulseTables.Ok, Strict, RunsFit, Code;
    var tail := ms[k..];
    RunsFitTail(tail, pos);
    RunTableOk(t, pos, |ms| - k);
    assert tail[1..] == ms[k + 1..] && tail[0] == ms[k];
  }

  /** One run of any byte string: a new pulse, or one more on the last. */
  method DecodeRun(dec: RangeDecoder, t: PulseTables, pos: nat, c: nat, ghost sent: int, ghost rest: seq<Sym>)
    returns (m: nat)
    requires dec.Valid() && t.Ok() && 1 <= pos <= SUBFR && 1 <= c <= MAX_PULSES
    modifies dec
    ensures dec.Valid() && dec.Err == old(dec.Err) && m < pos
    ensures Codes(RunTable(t, pos, c), sent) && old(dec.todo) == [Code(RunTable(t, pos, c), sent)] + rest ==>
              m == sent && dec.todo == rest
  {
    hide RangeDecoder.Valid, PulseTables.Ok, Code, Strict, RunTable;
    RunTableOk(t, pos, c);
    m := Take(dec, RunTable(t, pos, c), sent, rest);
  }

  /** The runs of one subframe and the positions and magnitudes they stand for. */
  method DecodeRuns(dec: RangeDecoder, t: PulseTables, cnt: nat, basePos: nat, ghost sent: seq<nat>,
                    ghost rest: seq<Sym>)
    returns (ms: seq<nat>, placed: Placed)
    requires dec.Valid() && t.Ok() && cnt <= MAX_PULSES
    modifies dec
    ensures dec.Valid() && dec.Err == old(dec.Err)
    ensures |ms| == cnt && RunsFit(ms, SUBFR) && placed == Place(ms, basePos)
    ensures |sent| == cnt && RunsFit(sent, SUBFR) && old(dec.todo) == RunTrace(t, sent, SUBFR) + rest ==>
              ms == sent && dec.todo == rest
  {
    hide RangeDecoder.Valid, PulseTables.Ok, Code, Strict, RunTable, RunTrace, Place;
    ghost var kept := |sent| == cnt && RunsFit(sent, SUBFR) && dec.todo == RunTrace(t, sent, SUBFR) + rest;
    var runPos, pos, c, k := basePos, SUBFR, cnt, 0;
    var posList, magList: seq<nat> := [], [];
    ms := [];
    EmptyPlace(basePos);
    assert sent[0..] == sent;
    while k < cnt
      invariant 0 <= k <= cnt && c == cnt - k && |ms| == k
      invariant Sum(ms) < SUBFR && pos == SUBFR - Sum(ms) && runPos == basePos + Sum(ms)
      invariant Placed(posList, magList) == Place(ms, basePos)
      invariant dec.Valid() && dec.Err == old(dec.Err)
      invariant kept ==> ms == sent[..k] && RunsFit(sent[k..], pos) && dec.todo == RunTrace(t, sent[k..], pos) + rest
    {
      hide Sum, RunsFit;
      ghost var next, tail := 0, [];
      if kept {
        RunNext(t, sent, k, pos, rest);
        next, tail := sent[k], RunTrace(t, sent[k + 1..], pos - sent[k]) + rest;
      }
      var m := DecodeRun(dec, t, pos, c, next, tail);
      SumPush(ms, m);
      PlaceAppend(ms, m, basePos);
      PlaceNonEmpty(ms, basePos);
      if m > 0 || k == 0 {
        runPos := runPos + m;
        posList := posList + [runPos];
        magList := magList + [1];
        pos := pos - m;
      } else {
        magList := magList[|magList| - 1 := magList[|magList| - 1] + 1];
      }
      ms := ms + [m];
      c := c - 1;
      k := k + 1;
    }
    placed := Placed(posList, magList);
    if kept {
      assert sent[..k] == sent && sent[k..] == [];
      RunEnd(t, pos);
    }
  }

  lemma RunEnd(t: PulseTables, pos: nat)
    requires t.Ok() && 0 < pos <= SUBFR
    ensures RunsFit([], pos) && RunTrace(t, [], pos) == []
  {
  }

  lemma PlaceNonEmpty(ms: seq<nat>, base: nat)
    ensures Place(ms, base).Ok() && (ms != [] ==> Place(ms, base).mag != [])
  {
  }

  method EncodeRunBlock(enc: RangeEncoder, t: PulseTables, subfr: seq<nat>, magRuns: seq<nat>)
    requires enc.Valid() && t.Ok() && CountsOk(subfr) && |magRuns| == Off(subfr, NUM)
    requires AllFitRuns(subfr, magRuns, NUM)
    modifies enc, enc.buf
    ensures enc.Valid() && enc.raws == old(enc.raws)
    ensures enc.trace == old(enc.trace) + RunBlock(t, subfr, magRuns, 0)
    ensures enc.failed == old(enc.failed) && (old(enc.err) != 0 ==> enc.err != 0)
  {
    hide RangeEncoder.Valid, PulseTables.Ok, RunTrace, RunsFit, AllFitRuns;
    var magIdx := 0;
    for sf := 0 to NUM
      invariant enc.Valid() && enc.raws == old(enc.raws) && magIdx == Off(subfr, sf)
      invariant enc.trace + RunBlock(t, subfr, magRuns, sf) == old(enc.trace) + RunBlock(t, subfr, magRuns, 0)
      invariant enc.failed == old(enc.failed) && (old(enc.err) != 0 ==> enc.err != 0)
    {
      FitAt(subfr, magRuns, sf, NUM);
      ghost var trace, tail := enc.trace, RunBlock(t, subfr, magRuns, sf + 1);
      var cnt := subfr[sf];
      if cnt <= 0 {
        NoRuns(t, SfRuns(subfr, magRuns, sf));
        assert trace + ([] + tail) == trace + tail;
        continue;
      }
      EncodeRuns(enc, t, magRuns[magIdx..magIdx + cnt]);
      magIdx := magIdx + cnt;
      assert enc.trace + tail == trace + (RunTrace(t, SfRuns(subfr, magRuns, sf), SUBFR) + tail);
    }
  }

  lemma NoRuns(t: PulseTables, ms: seq<nat>)
    requires t.Ok() && ms == []
    ensures RunsFit(ms, SUBFR) && RunTrace(t, ms, SUBFR) == [] && Place(ms, 0) == Placed([], [])
  {
  }

  lemma NextPlaced(subfr: seq<nat>, runs: seq<nat>, ms: seq<nat>, sf: nat)
    requires CountsOk(subfr) && sf < NUM && |runs| == Off(subfr, sf) && |ms| == subfr[sf]
    requires AllFitRuns(subfr, runs, sf) && RunsFit(ms, SUBFR)
    ensures |runs + ms| == Off(subfr, sf + 1) && AllFitRuns(subfr, runs + ms, sf + 1)
    ensures AllPlaced(subfr, runs + ms, sf + 1) == AllPlaced(subfr, runs, sf).Join(Place(ms, SUBFR * sf))
  {
    PlacedPrefix(subfr, runs, ms, sf);
    assert SfRuns(subfr, runs + ms, sf) == ms;
  }

  lemma NextBlock(t: PulseTables, subfr: seq<nat>, runs: seq<nat>, sf: nat, rest: seq<Sym>)
    requires t.Ok() && CountsOk(subfr) && sf < NUM && Off(subfr, NUM) <= |runs| && AllFitRuns(subfr, runs, NUM)
    ensures Off(subfr, sf + 1) <= |runs| && RunsFit(SfRuns(subfr, runs, sf), SUBFR)
    ensures RunBlock(t, subfr, runs, sf) + rest
         == RunTrace(t, SfRuns(subfr, runs, sf), SUBFR) + (RunBlock(t, subfr, runs, sf + 1) + rest)
    ensures runs[..Off(subfr, sf)] + SfRuns(subfr, runs, sf) == runs[..Off(subfr, sf + 1)]
  {
    FitAt(subfr, runs, sf, NUM);
  }

  lemma EmptySubframe(t: PulseTables, base: nat, p: Placed)
    requires t.Ok()
    ensures RunsFit([], SUBFR) && RunTrace(t, [], SUBFR) == []
    ensures p.Join(Place([], base)) == p
  {
  }

  method DecodeRunBlock(dec: RangeDecoder, t: PulseTables, subfr: seq<nat>, ghost sent: seq<nat>, ghost rest: seq<Sym>)
    returns (magRuns: seq<nat>, placed: Placed)
    requires dec.Valid() && t.Ok() && CountsOk(subfr)
    modifies dec
    ensures dec.Valid() && dec.Err == old(dec.Err)
    ensures |magRuns| == Off(subfr, NUM) && AllFitRuns(subfr, magRuns, NUM)
    ensures placed == AllPlaced(subfr, magRuns, NUM)
    ensures |sent| == Off(subfr, NUM) && AllFitRuns(subfr, sent, NUM)
            && old(dec.todo) == RunBlock(t, subfr, sent, 0) + rest ==>
              magRuns == sent && dec.todo == rest
  {
    hide RangeDecoder.Valid, PulseTables.Ok, RunTrace, RunsFit, Place;
    ghost var kept := |sent| == Off(subfr, NUM) && AllFitRuns(subfr, sent, NUM)
                      && dec.todo == RunBlock(t, subfr, sent, 0) + rest;
    magRuns, placed := [], Placed([], []);
    for sf := 0 to NUM
      invariant dec.Valid() && dec.Err == old(dec.Err)
      invariant |magRuns| == Off(subfr, sf) && AllFitRuns(subfr, magRuns, sf)
      invariant placed == AllPlaced(subfr, magRuns, sf)
      invariant kept ==> Off(subfr, sf) <= |sent| && magRuns == sent[..Off(subfr, sf)]
      invariant kept ==> dec.todo == RunBlock(t, subfr, sent, sf) + rest
    {
      hide RunBlock, AllFitRuns, AllPlaced;
      ghost var part, tail: seq<Sym> := [], [];
      if kept {
        NextBlock(t, subfr, sent, sf, rest);
        part, tail := SfRuns(subfr, sent, sf), RunBlock(t, subfr, sent, sf + 1) + rest;
      }
      var cnt := subfr[sf];
      var ms: seq<nat>, p := [], Placed([], []);
      EmptySubframe(t, SUBFR * sf, placed);
      if cnt > 0 {
        ms, p := DecodeRuns(dec, t, cnt, SUBFR * sf, part, tail);
      }
      NextPlaced(subfr, magRuns, ms, sf);
      magRuns := magRuns + ms;
      placed := placed.Join(p);
    }
    if kept {
      RunBlockEnd(t, subfr, sent);
    }
  }

  lemma RunBlockEnd(t: PulseTables, subfr: seq<nat>, runs: seq<nat>)
    requires t.Ok() && CountsOk(subfr) && Off(subfr, NUM) == |runs| && AllFitRuns(subfr, runs, NUM)
    ensures RunBlock(t, subfr, runs, NUM) == [] && runs[..Off(subfr, NUM)] == runs
  {
  }

  // ---- Signs ----

  function SignTrace(batches: seq<RawSym>): seq<Sym> {
    if batches == [] then []
    else [Sym(batches[0].sym, batches[0].sym + 1, Pow2(batches[0].nbits))] + SignTrace(batches[1..])
  }

  method EncodeSigns(enc: RangeEncoder, signSyms: seq<RawSym>, ghost count: nat)
    requires enc.Valid() && BatchesFit(signSyms, count)
    modifies enc, enc.buf
    ensures enc.Valid() && enc.raws == old(enc.raws)
    ensures enc.trace == old(enc.trace) + SignTrace(signSyms)
    ensures enc.failed == old(enc.failed) && (old(enc.err) != 0 ==> enc.err != 0)
  {
    hide RangeEncoder.Valid, Pow2;
    ghost var left: nat := count;
    assert signSyms[0..] == signSyms;
    for i := 0 to |signSyms|
      invariant enc.Valid() && enc.raws == old(enc.raws) && BatchesFit(signSyms[i..], left)
      invariant enc.trace + SignTrace(signSyms[i..]) == old(enc.trace) + SignTrace(signSyms)
      invariant enc.failed == old(enc.failed) && (old(enc.err) != 0 ==> enc.err != 0)
    {
      ghost var trace, tail := enc.trace, SignTrace(signSyms[i + 1..]);
      assert signSyms[i..][1..] == signSyms[i + 1..] && signSyms[i..][0] == signSyms[i];
      var rs := signSyms[i];
      enc.EncodeRawSymbol(rs.sym, rs.nbits);
      left := left - rs.nbits;
      assert enc.trace + tail == trace + SignTrace(signSyms[i..]);
    }
  }

  /** The bit that the shifted field shows in place 15 is bit nbits - 1 - j of the symbol. */
  lemma FieldBit(sym: nat, nbits: nat, j: nat)
    requires j < nbits <= BATCH && sym < Pow2(nbits)
    ensures 0 <= sym * Pow2(16 - nbits + j) < 0x8000_0000
    ensures sym * Pow2(16 - nbits + j) / 0x8000 % 2 == sym / Pow2(nbits - 1 - j) % 2
    ensures sym * Pow2(16 - nbits + j) * 2 == sym * Pow2(16 - nbits + (j + 1))
  {
    Pow2Values();
    Pow2Add(16 - nbits + j, nbits - 1 - j);
    Pow2Add(16 - nbits + j, nbits);
    Pow2Mono(16 + j, 31);
    ScaledBit(sym, Pow2(16 - nbits + j), Pow2(nbits - 1 - j), Pow2(nbits));
  }

  lemma ScaledBit(sym: nat, a: nat, b: nat, c: nat)
    requires a > 0 && b > 0 && sym < c
    ensures a * b > 0 && sym * a / (a * b) == sym / b
    ensures 0 <= sym * a < a * c
    ensures sym * a * 2 == sym * (2 * a)
  {
    DivDiv(sym * a, a, b);
    DivModUnique(sym * a, a, sym, 0);
    MulOrder(a, sym + 1, c);
    assert a * (sym + 1) == sym * a + a;
  }

  /** The entries from p on are multiplied by the signs, the others untouched. */
  ghost predicate Applied(mags: seq<int>, signed: seq<int>, p: nat, signs: seq<int>) {
    && |signed| == |mags|
    && forall q :: 0 <= q < |mags| ==> signed[q] == if p <= q < p + |signs| then mags[q] * signs[q - p] else mags[q]
  }

  /** Multiplies one batch of magnitudes by its signs. */
  method ApplySigns(mags: seq<int>, p: nat, sym: nat, nbits: nat) returns (signed: seq<int>)
    requires p + nbits <= |mags| && nbits <= BATCH && sym < Pow2(nbits)
    ensures Applied(mags, signed, p, Unpack(sym, nbits))
  {
    hide Pow2, Unpack;
    signed := mags;
    if nbits == 0 {
      return;
    }
    FieldBit(sym, nbits, 0);
    var bitfield: uint32 := sym * Pow2(16 - nbits);
    for q := p to p + nbits
      invariant |signed| == |mags| && (q < p + nbits ==> bitfield == sym * Pow2(16 - nbits + (q - p)))
      invariant forall i :: 0 <= i < |mags| ==>
                  signed[i] == if p <= i < q then mags[i] * Unpack(sym, nbits)[i - p] else mags[i]
    {
      FieldBit(sym, nbits, q - p);
      UnpackAt(sym, nbits, q - p);
      // (bitfield >> 14) & 2 is twice bit 15.
      var sign := bitfield / 0x8000 % 2 * 2 - 1;
      signed := signed[q := signed[q] * sign];
      bitfield := bitfield * 2;
    }
  }

  lemma NextSigns(batches: seq<RawSym>, count: nat, rest: seq<Sym>)
    requires BatchesFit(batches, count) && count > 0
    ensures batches != [] && batches[0].nbits == Min(BATCH, count) && batches[0].sym < Pow2(batches[0].nbits)
    ensures BatchesFit(batches[1..], count - batches[0].nbits)
    ensures SignTrace(batches) + rest
         == [Sym(batches[0].sym, batches[0].sym + 1, Pow2(batches[0].nbits))] + (SignTrace(batches[1..]) + rest)
  {
  }

  lemma {:induction false} UnbatchPush(batches: seq<RawSym>, b: RawSym)
    ensures Unbatch(batches + [b]) == Unbatch(batches) + Unpack(b.sym, b.nbits)
  {
    if batches == [] {
      assert batches + [b] == [b];
    } else {
      assert (batches + [b])[1..] == batches[1..] + [b];
      UnbatchPush(batches[1..], b);
    }
  }

  /** Appending a batch of the size the rule asks for keeps the batches well formed. */
  lemma {:induction false} BatchesPush(batches: seq<RawSym>, done: int, b: RawSym, count: int)
    requires done < count && BatchPrefix(batches, done, count)
    requires b.nbits == Min(BATCH, count - done) && b.sym < Pow2(b.nbits)
    ensures BatchPrefix(batches + [b], done + b.nbits, count)
  {
    if batches == [] {
      assert batches + [b] == [b] && [b][1..] == [];
    } else {
      assert (batches + [b])[1..] == batches[1..] + [b];
      BatchesPush(batches[1..], done - batches[0].nbits, b, count - batches[0].nbits);
    }
  }

  /** The first batches of `count` signs, covering `done` of them. */
  predicate BatchPrefix(batches: seq<RawSym>, done: int, count: int) {
    if batches == [] then done == 0
    else
      && count > 0 && batches[0].nbits == Min(BATCH, count) && batches[0].sym < Pow2(batches[0].nbits)
      && BatchPrefix(batches[1..], done - batches[0].nbits, count - batches[0].nbits)
  }

  lemma {:induction false} BatchesDone(batches: seq<RawSym>, count: nat)
    requires BatchPrefix(batches, count, count)
    ensures BatchesFit(batches, count)
  {
    if batches != [] {
      BatchesDone(batches[1..], count - batches[0].nbits);
    }
  }

  /** The next batch of up to fifteen signs. */
  method DecodeBatch(dec: RangeDecoder, count: nat, ghost sent: seq<RawSym>, ghost rest: seq<Sym>) returns (rs: RawSym)
    requires dec.Valid() && count > 0
    modifies dec
    ensures dec.Valid() && dec.Err == old(dec.Err)
    ensures rs.nbits == Min(BATCH, count) && rs.sym < Pow2(rs.nbits)
    ensures BatchesFit(sent, count) && old(dec.todo) == SignTrace(sent) + rest ==>
              sent == [rs] + sent[1..] && BatchesFit(sent[1..], count - rs.nbits)
              && dec.todo == SignTrace(sent[1..]) + rest
  {
    hide RangeDecoder.Valid, Pow2, SignTrace, BatchesFit;
    var nbits := count;
    if nbits >= 15 {
      nbits := 15;
    }
    ghost var next, tail := 0, [];
    if BatchesFit(sent, count) {
      NextSigns(sent, count, rest);
      next, tail := sent[0].sym, SignTrace(sent[1..]) + rest;
    }
    var sym := dec.DecodeRawSymbol(nbits, next, tail);
    rs := RawSym(sym, nbits);
  }

  /** The first p magnitudes carry their signs. */
  ghost predicate SignedUpto(signed: seq<int>, mags: seq<nat>, signs: seq<int>, p: nat) {
    && |signed| == |mags| && |signs| == p <= |mags|
    && forall q :: 0 <= q < |mags| ==> signed[q] == if q < p then mags[q] * signs[q] else mags[q]
  }

  lemma SignsGrow(before: seq<int>, after: seq<int>, mags: seq<nat>, signs: seq<int>, more: seq<int>, p: nat)
    requires SignedUpto(before, mags, signs, p) && p + |more| <= |mags| && Applied(before, after, p, more)
    ensures SignedUpto(after, mags, signs + more, p + |more|)
  {
  }

  /** Reads one sign per position, fifteen at a time, and applies them to the magnitudes. */
  method DecodeSigns(dec: RangeDecoder, magList: seq<nat>, ghost sent: seq<RawSym>, ghost rest: seq<Sym>)
    returns (signSyms: seq<RawSym>, signed: seq<int>)
    requires dec.Valid()
    modifies dec
    ensures dec.Valid() && dec.Err == old(dec.Err)
    ensures BatchesFit(signSyms, |magList|) && SignedUpto(signed, magList, Unbatch(signSyms), |magList|)
    ensures BatchesFit(sent, |magList|) && old(dec.todo) == SignTrace(sent) + rest ==>
              signSyms == sent && dec.todo == rest
  {
    hide RangeDecoder.Valid, Pow2, Unpack;
    ghost var kept := BatchesFit(sent, |magList|) && dec.todo == SignTrace(sent) + rest;
    ghost var left := sent;
    var p := 0;
    signSyms, signed := [], magList;
    while p < |magList|
      invariant 0 <= p <= |magList| && dec.Valid() && dec.Err == old(dec.Err)
      invariant BatchPrefix(signSyms, p, |magList|) && SignedUpto(signed, magList, Unbatch(signSyms), p)
      invariant kept ==>
                  BatchesFit(left, |magList| - p) && sent == signSyms + left && dec.todo == SignTrace(left) + rest
    {
      hide SignTrace, BatchPrefix, BatchesFit, Unbatch, Applied;
      var rs := DecodeBatch(dec, |magList| - p, left, rest);
      if kept {
        assert signSyms + left == signSyms + [rs] + left[1..];
        left := left[1..];
      }
      BatchesPush(signSyms, p, rs, |magList|);
      UnbatchPush(signSyms, rs);
      assert |signed| == |magList|;
      hide SignedUpto;
      var before := signed;
      signed := ApplySigns(before, p, rs.sym, rs.nbits);
      SignsGrow(before, signed, magList, Unbatch(signSyms), Unpack(rs.sym, rs.nbits), p);
      signSyms := signSyms + [rs];
      p := p + rs.nbits;
    }
    BatchesDone(signSyms, |magList|);
    if kept {
      assert left == [] && SignTrace([]) == [];
    }
  }

  // ---- The block ----

  ghost function PulseTrace(t: PulseTables, p: PulseParams): seq<Sym>
    requires t.Ok() && p.Ok()
  {
    SplitSizes(p.subfr);
    [CountSym(p.total)]
    + if p.total == 0 then [] else SplitTrace(t, p.subfr) + (RunBlock(t, p.subfr, p.magRuns, 0) + SignTrace(p.signSyms))
  }

  /** Writes a frame's pulses: nothing but the count when there are none. */
  method EncodeSmplPulses(enc: RangeEncoder, t: PulseTables, pp: PulseParams)
    requires enc.Valid() && t.Ok() && pp.Ok()
    modifies enc, enc.buf
    ensures enc.Valid() && enc.raws == old(enc.raws)
    ensures enc.trace == old(enc.trace) + PulseTrace(t, pp)
    ensures enc.failed == old(enc.failed) && (old(enc.err) != 0 ==> enc.err != 0)
  {
    hide RangeEncoder.Valid, PulseTables.Ok, SplitTrace, RunBlock, SignTrace, AllFitRuns, AllPlaced, BatchesFit;
    ghost var trace := enc.trace;
    SplitSizes(pp.subfr);
    EncodeCount(enc, pp.total);
    if pp.total == 0 {
      return;
    }
    EncodeSplit(enc, t, pp.total, pp.subfr);
    EncodeRunBlock(enc, t, pp.subfr, pp.magRuns);
    EncodeSigns(enc, pp.signSyms, |AllPlaced(pp.subfr, pp.magRuns, NUM).pos|);
    assert enc.trace == trace + PulseTrace(t, pp);
  }

  /** Stores the signed magnitudes at their positions in a silent frame. */
  method ScatterPulses(p: Placed, signed: seq<int>, ghost signs: seq<int>) returns (pulses: seq<int>)
    requires p.Ok() && SignedUpto(signed, p.mag, signs, |p.mag|)
    ensures pulses == Scatter(p, signs, |signs|)
  {
    pulses := seq(FRAME, _ => 0);
    for i := 0 to |signed|
      invariant pulses == Scatter(p, signs, i)
    {
      var pp := p.pos[i];
      if pp < |pulses| {
        pulses := pulses[pp := signed[i]];
      }
    }
  }

  /**
   * Reads the pulses of any byte string: well-formed parameters and the excitation they stand for. What an
   * encoder wrote comes back.
   */
  method DecodeSmplPulses(dec: RangeDecoder, t: PulseTables, ghost sent: PulseParams, ghost rest: seq<Sym>)
    returns (res: PulseParams, pulses: seq<int>)
    requires dec.Valid() && t.Ok()
    modifies dec
    ensures dec.Valid() && dec.Err == old(dec.Err)
    ensures res.Ok() && pulses == Vector(res)
    ensures sent.Ok() && old(dec.todo) == PulseTrace(t, sent) + rest ==> res == sent && dec.todo == rest
  {
    hide RangeDecoder.Valid, PulseTables.Ok, SplitTrace, RunBlock, SignTrace, AllFitRuns, AllPlaced, BatchesFit,
         Unbatch, Scatter;
    ghost var kept := sent.Ok() && dec.todo == PulseTrace(t, sent) + rest;
    ghost var afterCount, afterSplit, afterRuns: seq<Sym> := [], [], [];
    if kept {
      SplitSizes(sent.subfr);
      afterRuns := SignTrace(sent.signSyms) + rest;
      afterSplit := RunBlock(t, sent.subfr, sent.magRuns, 0) + afterRuns;
      afterCount := if sent.total == 0 then rest else SplitTrace(t, sent.subfr) + afterSplit;
      assert dec.todo == [CountSym(sent.total)] + afterCount;
    }
    var total := DecodeCount(dec, sent.total, afterCount);
    var subfr: seq<nat> := [0, 0, 0, 0];
    var magRuns: seq<nat>, placed, signSyms, signed := [], Placed([], []), [], [];
    if total != 0 {
      subfr := DecodeSplit(dec, t, total, sent.subfr, afterSplit);
      magRuns, placed := DecodeRunBlock(dec, t, subfr, sent.magRuns, afterRuns);
      signSyms, signed := DecodeSigns(dec, placed.mag, sent.signSyms, rest);
    } else {
      SilentFrame(sent);
    }
    res := PulseParams(total, subfr, magRuns, signSyms);
    pulses := ScatterPulses(placed, signed, Unbatch(signSyms));
  }

  /** A frame without pulses has exactly one parameter set. */
  lemma SilentFrame(p: PulseParams)
    ensures PulseParams(0, [0, 0, 0, 0], [], []).Ok()
    ensures AllPlaced([0, 0, 0, 0], [], NUM) == Placed([], []) && Unbatch([]) == []
    ensures p.Ok() && p.total == 0 ==> p == PulseParams(0, [0, 0, 0, 0], [], [])
  {
    var zero: seq<nat> := [0, 0, 0, 0];
    FourCounts(zero);
    assert Off(zero, 1) == 0 && Off(zero, 2) == 0 && Off(zero, 3) == 0;
    SilentPlaced(zero, NUM);
    if p.Ok() && p.total == 0 {
      FourCounts(p.subfr);
      assert p.subfr == zero && p.magRuns == [];
    }
  }

  lemma {:induction false} SilentPlaced(subfr: seq<nat>, sf: nat)
    requires sf <= NUM && subfr == [0, 0, 0, 0]
    ensures Off(subfr, sf) == 0 && AllPlaced(subfr, [], sf) == Placed([], []) && AllFitRuns(subfr, [], sf)
  {
    if sf > 0 {
      SilentPlaced(subfr, sf - 1);
    }
  }
}
