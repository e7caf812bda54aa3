/**
 * What stands on the wire: for every block, which entries of which raw table bound each of its symbols, and
 * where the symbol stands. Encoder and decoder are proved against the traces, so this holds of both.
 */
module WireLaws {
  import opened Arith
  import opened RangeSpec
  import opened CdfCoding
  import opened LsfCodec
  import opened PulseVector
  import Pulses = PulseCodec
  import Gains = GainCodec
  import Pitch = PitchCodec
  import Mem = SmplMemory
  import Frames = FrameCodec
  import Tracks = BlockTracks

  /** The symbol that lies between two entries of a table, as a share of the entries from `from` to `to`. */
  predicate Between(t: Sym, cdf: Cdf, from: nat, at: int, to: nat) {
    && from <= at < to < |cdf|
    && t.fl == cdf[at] as int - cdf[from] as int && t.fh == cdf[at + 1] as int - cdf[from] as int
    && t.ft == cdf[to] as int - cdf[from] as int
  }

  lemma WholeTable(cdf: Cdf, k: int)
    requires Codes(cdf, k)
    ensures Between(Code(cdf, k), cdf, 0, k, |cdf| - 1)
  {
  }

  lemma Windowed(cdf: Cdf, from: nat, to: nat, k: int)
    requires from < to < |cdf| && Codes(cdf[from..to + 1], k)
    ensures Between(Code(cdf[from..to + 1], k), cdf, from, from + k, to)
  {
    var w := cdf[from..to + 1];
    assert w[k] == cdf[from + k] && w[k + 1] == cdf[from + k + 1] && w[|w| - 1] == cdf[to] && w[0] == cdf[from];
  }

  // ---- Spectral block ----

  lemma {:induction false} ResidualPlaces(tables: seq<Cdf>, values: seq<int>, k: nat)
    requires k <= 16 && LsfCodec.ResidualsCode(tables, values)
    ensures |LsfCodec.ResidualTrace(tables, values, k)| == 16 - k
    ensures forall j :: k <= j < 16 ==>
              && Codes(tables[j], values[j])
              && LsfCodec.ResidualTrace(tables, values, k)[j - k] == Code(tables[j], values[j])
    decreases 16 - k
  {
    hide Codes, Code;
    if k < 16 {
      ResidualPlaces(tables, values, k + 1);
      assert Codes(tables[k], values[k]);
    }
  }

  /** Selector by position and predecessor, grid by continuation and selector, sixteen residuals, the extra symbol. */
  lemma LsfPlaces(t: LsfTables, prev: int, config: nat, intf: nat, p: LsfParams)
    requires t.Ok() && config < 2 && 0 <= prev < 2 && p.Ok(t, prev, config, intf)
    ensures var w := LsfTrace(t, prev, config, intf, p);
            && |w| == 19
            && w[0] == Code(t.sel[if intf == 0 then 0 else 1 + prev], p.stage1)
            && (intf > 0 && prev == 1 && p.stage1 == 1 ==> Codes(t.match1, p.grid) && w[1] == Code(t.match1, p.grid))
            && (intf > 0 && prev == 0 && p.stage1 == 0 ==>
                  Codes(t.match1Alt, p.grid) && w[1] == Code(t.match1Alt, p.grid))
            && ((intf == 0 || prev == 0) && p.stage1 == 1 ==>
                  Codes(t.match0Alt, p.grid) && w[1] == Code(t.match0Alt, p.grid))
            && ((intf == 0 || prev == 1) && p.stage1 == 0 ==> Codes(t.match0, p.grid) && w[1] == Code(t.match0, p.grid))
            && w[18] == Code(t.extra, p.extra)
    ensures forall k :: 0 <= k < 16 ==>
              && Codes(t.stage2[p.stage1][config][p.grid][k], p.stage2[k])
              && LsfTrace(t, prev, config, intf, p)[2 + k] == Code(t.stage2[p.stage1][config][p.grid][k], p.stage2[k])
  {
    hide Strict, Code, LsfCodec.ResidualTrace;
    ResidualPlaces(t.stage2[p.stage1][config][p.grid], p.stage2, 0);
  }

  /** Predictions survive exactly a frame that continues its predecessor's selector. */
  lemma PredictionKept(pred: Pred, intf: nat, stage1: int)
    ensures var q := PredAfterLsf(pred, intf, stage1);
            && q.stage1 == stage1
            && (intf > 0 && stage1 == pred.stage1 ==> q == pred)
            && (intf == 0 || stage1 != pred.stage1 ==> q.gainIdx == q.filtIdx == q.blk == q.lag == -1)
  {
  }

  // ---- Busy subframes ----

  /** Subframes with pulses among the first k. */
  function Busy(counts: seq<nat>, k: nat): nat
    requires k <= |counts|
  {
    if k == 0 then 0 else Busy(counts, k - 1) + if counts[k - 1] > 0 then 1 else 0
  }

  // ---- Gain block ----

  lemma {:induction false} BusyOrder(counts: seq<nat>, i: nat, j: nat)
    requires i <= j <= |counts|
    ensures Busy(counts, i) <= Busy(counts, j)
    ensures i < j && counts[i] > 0 ==> Busy(counts, i) < Busy(counts, j)
  {
    if i < j {
      BusyOrder(counts, i, j - 1);
    }
  }

  lemma {:induction false} GainResidualPlaces(t: Gains.GainTables, gm: int, gd: int, counts: seq<nat>, res: seq<int>,
                                              sf: nat, i: nat)
    requires t.Ok() && |counts| == NUM && gd >= 0 && |res| == NUM && sf <= i < NUM && counts[i] > 0
    requires forall j :: 0 <= j < NUM ==> Gains.ResidualOk(t, gm, gd, counts, j, res[j])
    ensures var w := Gains.ResidualTrace(t, gm, gd, counts, res, sf);
            var table := Gains.ResidualTable(t, Gains.GainQ(t, gm, gd, i), counts[i]);
            && 0 <= Busy(counts, i) - Busy(counts, sf) < |w| && Codes(table, res[i])
            && w[Busy(counts, i) - Busy(counts, sf)] == Code(table, res[i])
    decreases NUM - sf
  {
    hide Gains.GainTables.Ok, Gains.ResidualTable, Gains.GainQ, Codes, Code;
    assert Gains.ResidualOk(t, gm, gd, counts, sf, res[sf]);
    BusyOrder(counts, sf, i);
    if sf < i {
      BusyOrder(counts, sf + 1, i);
      BusyNext(counts, sf);
      GainResidualPlaces(t, gm, gd, counts, res, sf + 1, i);
    }
  }

  lemma NoneBusy(counts: seq<nat>)
    ensures Busy(counts, 0) == 0
  {
  }

  lemma BusyNext(counts: seq<nat>, k: nat)
    requires k < |counts|
    ensures Busy(counts, k + 1) == Busy(counts, k) + if counts[k] > 0 then 1 else 0
  {
  }

  lemma {:induction false} GainResidualCount(t: Gains.GainTables, gm: int, gd: int, counts: seq<nat>, res: seq<int>,
                                             sf: nat)
    requires t.Ok() && |counts| == NUM && gd >= 0 && |res| == NUM && sf <= NUM
    requires forall j :: 0 <= j < NUM ==> Gains.ResidualOk(t, gm, gd, counts, j, res[j])
    ensures |Gains.ResidualTrace(t, gm, gd, counts, res, sf)| == Busy(counts, NUM) - Busy(counts, sf)
    decreases NUM - sf
  {
    hide Gains.GainTables.Ok, Gains.ResidualTable, Gains.GainQ, Codes, Code, Busy;
    if sf < NUM {
      assert Gains.ResidualOk(t, gm, gd, counts, sf, res[sf]);
      BusyNext(counts, sf);
      GainResidualCount(t, gm, gd, counts, res, sf + 1);
    }
  }

  /** Main gain, delta gain, then a residual for each busy subframe, in the window its gain and busyness place. */
  lemma GainPlaces(t: Gains.GainTables, counts: seq<nat>, p: Gains.GainParams, sf: nat, o: nat, b: nat)
    requires t.Ok() && |counts| == NUM && p.Ok(t, counts) && sf < NUM
    ensures var w := Gains.GainTrace(t, counts, p);
            && |w| == 2 + Busy(counts, NUM) && Busy(counts, sf) <= Busy(counts, NUM)
            && Between(w[0], t.gain4, 0, p.gainMain, |t.gain4| - 1)
            && Between(w[1], t.shape4, 0, p.gainDelta, |t.shape4| - 1)
            && (counts[sf] > 0 && Gains.InTens(counts[sf], b)
                && Gains.NearestStep(Gains.GainQ(t, p.gainMain, p.gainDelta, sf), o) ==>
                  && 2 + Busy(counts, sf) < |w|
                  && Between(w[2 + Busy(counts, sf)], t.fcbgOffset[8 + b], o, o + p.nrgRes[sf], o + 91))
  {
    hide Gains.ResidualTable, Gains.GainQ, Gains.ResidualTrace, Gains.ResidualOk, Code, Busy;
    GainResidualCount(t, p.gainMain, p.gainDelta, counts, p.nrgRes, 0);
    BusyOrder(counts, sf, NUM);
    BusyOrder(counts, 0, 0);
    WholeTable(t.gain4, p.gainMain);
    WholeTable(t.shape4, p.gainDelta);
    NoneBusy(counts);
    var gainQ := Gains.GainQ(t, p.gainMain, p.gainDelta, sf);
    if counts[sf] > 0 && Gains.InTens(counts[sf], b) && Gains.NearestStep(gainQ, o) {
      GainResidualPlaces(t, p.gainMain, p.gainDelta, counts, p.nrgRes, 0, sf);
      Gains.ResidualPlace(t, gainQ, counts[sf], o, b);
      assert Codes(t.fcbgOffset[8 + b][o..o + 91 + 1], p.nrgRes[sf]);
      Windowed(t.fcbgOffset[8 + b], o, o + 91, p.nrgRes[sf]);
    }
  }

  // ---- Pitch block ----

  /** A filter is sent by its step from the last one: one filter on, everything stands one entry on. */
  lemma FilterSteps(g: Pitch.GainCdfs, p: int, q: nat)
    requires g.Ok() && 0 <= p < Pitch.FILTERS && q <= Pitch.FILTERS
    ensures g.Filter(p)[q] == g.filterDeltas[33 - p + q]
    ensures p + 1 < Pitch.FILTERS && q < Pitch.FILTERS ==> g.Filter(p + 1)[q + 1] == g.Filter(p)[q]
    ensures g.Filter(-1) == g.filters
  {
  }

  lemma FilterSymbol(g: Pitch.GainCdfs, p: int, q: int)
    requires g.Ok() && -1 <= p < Pitch.FILTERS && 0 <= q < Pitch.FILTERS
    ensures Codes(g.Filter(p), q)
    ensures p == -1 ==> Between(Code(g.Filter(p), q), g.filters, 0, q, Pitch.FILTERS)
    ensures p >= 0 ==> Between(Code(g.Filter(p), q), g.filterDeltas, 33 - p, 33 + q - p, 67 - p)
  {
    Pitch.GainTablesReady(g, 0, -1, p);
    if p == -1 {
      WholeTable(g.filters, q);
    } else {
      Windowed(g.filterDeltas, 33 - p, 67 - p, q);
    }
  }

  lemma RowSymbol(g: Pitch.GainCdfs, config: nat, p: int, q: int)
    requires g.Ok() && config < 2 && -1 <= p < Pitch.GAINS && 0 <= q < Pitch.GAINS
    ensures Codes(g.Row(config, p), q)
    ensures Between(Code(g.Row(config, p), q), g.rows[config], 17 * (p + 1), 17 * (p + 1) + q, 17 * (p + 1) + 16)
  {
    Pitch.GainTablesReady(g, config, p, -1);
    Windowed(g.rows[config], 17 * (p + 1), 17 * (p + 1) + 16, q);
  }

  /** Gain and filter predict from the last ones sent: silent subframes send no filter and change none. */
  lemma {:induction false} LastFilter(prev: int, counts: seq<nat>, filts: seq<int>, j: nat, k: nat)
    requires j < k <= |counts| && k <= |filts| && forall i :: j < i < k ==> counts[i] == 0
    ensures Pitch.LastFilt(prev, counts, filts, k)
         == if counts[j] > 0 then filts[j] else Pitch.LastFilt(prev, counts, filts, j)
    ensures Pitch.LastFilt(prev, counts, filts, 0) == prev
  {
    if j < k - 1 {
      LastFilter(prev, counts, filts, j, k - 1);
    }
  }

  /** Subframe i's gain, by the row of the gain before it, and behind it its filter, if it is busy. */
  lemma {:induction false} PitchGainPlaces(g: Pitch.GainCdfs, config: nat, prevGain: int, prevFilt: int,
                                           counts: seq<nat>, gains: seq<int>, filts: seq<int>, sf: nat, i: nat)
    requires g.Ok() && config < 2 && Pitch.GainsOk(counts, gains, filts) && sf <= i < NUM
    requires -1 <= prevGain < Pitch.GAINS && -1 <= prevFilt < Pitch.FILTERS
    ensures var w := Pitch.GainTrace(g, config, prevGain, prevFilt, counts, gains, filts, sf);
            var at := i - sf + Busy(counts, i) - Busy(counts, sf);
            var pg := if i == 0 then prevGain else gains[i - 1];
            var pf := Pitch.LastFilt(prevFilt, counts, filts, i);
            && -1 <= pg < Pitch.GAINS && -1 <= pf < Pitch.FILTERS && 0 <= at < |w|
            && 0 <= gains[i] < Pitch.GAINS && Codes(g.Row(config, pg), gains[i])
            && w[at] == Code(g.Row(config, pg), gains[i])
            && (counts[i] > 0 ==>
                  && 0 <= filts[i] < Pitch.FILTERS && at + 1 < |w| && Codes(g.Filter(pf), filts[i])
                  && w[at + 1] == Code(g.Filter(pf), filts[i]))
    decreases NUM - sf
  {
    hide Pitch.GainCdfs.Ok, Codes, Code, Pitch.LastFilt, Busy, Pitch.GainTrace, Pitch.GainCdfs.Row,
         Pitch.GainCdfs.Filter;
    Pitch.LastOk(prevGain, prevFilt, counts, gains, filts, i);
    Pitch.GainNext(g, config, prevGain, prevFilt, counts, gains, filts, sf, []);
    assert Pitch.GainTrace(g, config, prevGain, prevFilt, counts, gains, filts, sf) + []
        == Pitch.GainTrace(g, config, prevGain, prevFilt, counts, gains, filts, sf);
    assert Pitch.GainOk(counts[i], gains[i], filts[i]);
    BusyOrder(counts, sf, i);
    BusyNext(counts, sf);
    if sf < i {
      PitchGainPlaces(g, config, prevGain, prevFilt, counts, gains, filts, sf + 1, i);
    }
  }

  /** The lag table is chosen by the average gain: the sum over four subframes against four times two thresholds. */
  lemma ModeThresholds(sum: int, sum': int)
    ensures Pitch.Mode(sum) == if sum < 40028 then 0 else if sum < 56340 then 1 else 2
    ensures sum <= sum' ==> Pitch.Mode(sum) <= Pitch.Mode(sum')
  {
  }

  /** A gain weighs as much as its three taps pass of a constant: the middle one and the outer one twice. */
  lemma WeightIsTapSum(g: Pitch.GainCdfs, config: nat, gain: int)
    requires g.Ok() && config < 2 && 0 <= gain < Pitch.GAINS
    ensures var mid, outer := g.weights[config][2 * gain], g.weights[config][2 * gain + 1];
            Pitch.Weight(g, config, gain) == outer + mid + outer
  {
  }

  /** Within the range of its first block, a contour keeps its own share of the whole table. */
  lemma ContourShare(t: Mem.PitchTables, c: int)
    requires Pitch.TablesOk(t) && 0 <= c < Mem.CONTOURS
    ensures var b, ix := t.blocksegs[c].blocks[0], t.blocksegs2idx[c];
            var range := t.firstblockRange[b];
            && Codes(Pitch.FirstBlockTable(t, b), ix - 1 - range.0)
            && Between(Code(Pitch.FirstBlockTable(t, b), ix - 1 - range.0), t.blocksegIdxCmf, range.0, ix - 1,
                       range.1 + 1)
  {
    Pitch.FirstBlockReady(t, c);
    var b, ix := t.blocksegs[c].blocks[0], t.blocksegs2idx[c];
    Windowed(t.blocksegIdxCmf, t.firstblockRange[b].0, t.firstblockRange[b].1 + 1, ix - 1 - t.firstblockRange[b].0);
  }

  /** A lag is sent by its step from the last one, whatever block it falls in. */
  lemma LagStep(t: Mem.PitchTables, mode: nat, prev: int, blk: int, lag: int)
    requires Pitch.TablesOk(t) && mode < Mem.MODES && Pitch.InBlock(lag, blk)
    requires -127 <= Pitch.BLOCK * blk - prev <= 128
    ensures var w := Pitch.DeltaTable(t, mode, Pitch.BLOCK * blk - prev);
            var start := 127 + Pitch.BLOCK * blk - prev;
            && Codes(w, lag - Pitch.BLOCK * blk)
            && Between(Code(w, lag - Pitch.BLOCK * blk), t.deltaLagCmfs[mode], start, 127 + lag - prev, start + 64)
  {
    Pitch.DeltaReady(t, mode, Pitch.BLOCK * blk - prev);
    var start := 127 + Pitch.BLOCK * blk - prev;
    Windowed(t.deltaLagCmfs[mode], start, start + 64, lag - Pitch.BLOCK * blk);
  }

  /** Run k's symbol stands k places on, coded by its lag's step from the run before. */
  lemma {:induction false} RunPlaces(t: Mem.PitchTables, bs: Mem.BlockSeg, mode: nat, lags: seq<int>, prev: int,
                                     k: nat, i: nat)
    requires Pitch.TablesOk(t) && Pitch.ContourOk(bs) && mode < Mem.MODES && Pitch.LagsFit(bs, lags)
    requires k <= i < |bs.blocks| && Pitch.Reaches(bs, prev, k)
    ensures Pitch.Start(bs.seglens, i) < Pitch.SUBFRAMES && (i > k ==> Pitch.Start(bs.seglens, i - 1) < Pitch.SUBFRAMES)
    ensures var w := Pitch.RunTrace(t, bs, mode, lags, prev, k);
            var from := if i == k then prev else lags[Pitch.Start(bs.seglens, i - 1)];
            var lag, blk := lags[Pitch.Start(bs.seglens, i)], bs.blocks[i];
            && |w| == |bs.blocks| - k && Pitch.InBlock(lag, blk) && -127 <= Pitch.BLOCK * blk - from <= 128
            && mode < |t.deltaLagCmfs| && |t.deltaLagCmfs[mode]| == Mem.DELTA_STEPS
            && Codes(Pitch.DeltaTable(t, mode, Pitch.BLOCK * blk - from), lag - Pitch.BLOCK * blk)
            && w[i - k] == Code(Pitch.DeltaTable(t, mode, Pitch.BLOCK * blk - from), lag - Pitch.BLOCK * blk)
    decreases |bs.blocks| - k
  {
    hide Pitch.TablesOk, Pitch.ContourOk, Pitch.LagsFitUpto, Pitch.DeltaTable, Codes, Code, Pitch.Start;
    Pitch.RunFacts(bs, lags, k);
    Pitch.RunFacts(bs, lags, i);
    Pitch.RunNext(t, bs, mode, lags, prev, k, []);
    if k < i {
      RunPlaces(t, bs, mode, lags, Pitch.RunLag(bs, lags, k), k + 1, i);
    } else {
      RunCount(t, bs, mode, lags, prev, k);
    }
  }

  lemma {:induction false} RunCount(t: Mem.PitchTables, bs: Mem.BlockSeg, mode: nat, lags: seq<int>, prev: int, k: nat)
    requires Pitch.TablesOk(t) && Pitch.ContourOk(bs) && mode < Mem.MODES && Pitch.LagsFit(bs, lags)
    requires k <= |bs.blocks| && Pitch.Reaches(bs, prev, k)
    ensures |Pitch.RunTrace(t, bs, mode, lags, prev, k)| == |bs.blocks| - k
    decreases |bs.blocks| - k
  {
    hide Pitch.TablesOk, Pitch.ContourOk, Pitch.LagsFitUpto, Pitch.DeltaTable, Codes, Code;
    if k < |bs.blocks| {
      Pitch.RunNext(t, bs, mode, lags, prev, k, []);
      RunCount(t, bs, mode, lags, Pitch.RunLag(bs, lags, k), k + 1);
    }
  }

  /** The first lag is sent in full exactly when there is no previous block, or the first one is out of reach of it. */
  lemma FirstLag(t: Mem.PitchTables, bs: Mem.BlockSeg, prevBlk: int, prevLag: int, mode: nat, lags: seq<int>)
    requires Pitch.TablesOk(t) && Pitch.ContourOk(bs) && mode < Mem.MODES && Pitch.LagsFit(bs, lags)
    requires Pitch.LagPredOk(prevBlk, prevLag)
    ensures var b := bs.blocks[0] as int;
            var w := Pitch.LagPart(t, bs, prevBlk, prevLag, mode, lags);
            var full := prevBlk < 0 || b < prevBlk - 1 || b > prevBlk + 2;
            && (full ==> w != [] && 0 <= lags[0] - 64 * b < 64
                         && w[0] == Sym(lags[0] - 64 * b, lags[0] - 64 * b + 1, 64))
            && (full ==> Pitch.Reaches(bs, lags[0], 1) && w[1..] == Pitch.RunTrace(t, bs, mode, lags, lags[0], 1))
            && (!full ==> Pitch.Reaches(bs, prevLag, 0) && w == Pitch.RunTrace(t, bs, mode, lags, prevLag, 0))
  {
    hide Pitch.TablesOk, Pitch.ContourOk, Pitch.RunTrace, Pitch.LagsFitUpto;
    Pitch.RunFacts(bs, lags, 0);
  }

  // ---- Pulse block ----

  lemma HalfSlice(t: Pulses.PulseTables, count: nat, each: nat)
    requires t.Ok() && (each == 40 || each == 80) && count <= 2 * each
    requires Max(count - each, 0) != Min(count, each)
    ensures var from, to := Max(count - each, 0) - Max(count - 80, 0), Min(count, each) + 1 - Max(count - 80, 0);
            && 1 <= count <= 159 && |t.splitCmfs| == 159 && 0 <= from < to < |t.splitCmfs[count - 1]|
            && Pulses.HalfTable(t, count, each) == t.splitCmfs[count - 1][from..to + 1]
  {
    hide Strict, Pulses.CdfWindow;
    var cdf := t.splitCmfs[count - 1];
    assert Pulses.SplitOk(cdf, count);
    SliceWindow(cdf, Max(count - each, 0) - Max(count - 80, 0), Min(count, each) - Max(count - each, 0) + 2);
  }

  lemma InWindow(w: Cdf, cdf: Cdf, from: nat, to: nat, at: int, sym: Sym)
    requires from < to < |cdf| && w == cdf[from..to + 1] && Codes(w, at - from) && sym == Code(w, at - from)
    ensures Between(sym, cdf, from, at, to)
  {
    Windowed(cdf, from, to, at - from);
  }

  lemma HalfPlaced(t: Pulses.PulseTables, count: nat, each: nat, first: int, least: nat, most: nat, floor: nat)
    requires t.Ok() && Pulses.SplitFits(count, each, first)
    requires least == Max(count - each, 0) && most == Min(count, each) && floor == Max(count - 80, 0) && least != most
    ensures 1 <= count <= 159 && |t.splitCmfs| == 159 && |Pulses.HalfTrace(t, count, each, first)| == 1
    ensures Between(Pulses.HalfTrace(t, count, each, first)[0], t.splitCmfs[count - 1], least - floor, first - floor,
                    most + 1 - floor)
  {
    hide *;
    SplitRange(count, each, first);
    HalfCodes(t, count, each, first);
    HalfSlice(t, count, each);
    InWindow(Pulses.HalfTable(t, count, each), t.splitCmfs[count - 1], least - floor, most + 1 - floor, first - floor,
             Pulses.HalfTrace(t, count, each, first)[0]);
  }

  /** The first half's count stands at its own entry of the split table of the total, whatever was ruled out. */
  lemma HalfPlace(t: Pulses.PulseTables, count: nat, each: nat, first: int)
    requires t.Ok() && Pulses.SplitFits(count, each, first)
    ensures var least, most := Max(count - each, 0), Min(count, each);
            var floor := Max(count - 80, 0);
            var w := Pulses.HalfTrace(t, count, each, first);
            && floor <= least <= first <= most
            && (least == most ==> w == [])
            && (least != most ==>
                  && 1 <= count <= 159 && |t.splitCmfs| == 159 && |w| == 1
                  && Between(w[0], t.splitCmfs[count - 1], least - floor, first - floor, most + 1 - floor))
  {
    SplitRange(count, each, first);
    if Max(count - each, 0) == Min(count, each) {
      assert Pulses.HalfTrace(t, count, each, first) == [];
    } else {
      HalfPlaced(t, count, each, first, Max(count - each, 0), Min(count, each), Max(count - 80, 0));
    }
    hide *;
  }

  lemma SplitRange(count: nat, each: nat, first: int)
    requires Pulses.SplitFits(count, each, first)
    ensures Max(count - 80, 0) <= Max(count - each, 0) <= first <= Min(count, each) && count <= 2 * each
    ensures each == 40 || each == 80
  {
  }

  lemma HalfCodes(t: Pulses.PulseTables, count: nat, each: nat, first: int)
    requires t.Ok() && Pulses.SplitFits(count, each, first) && Max(count - each, 0) != Min(count, each)
    ensures Codes(Pulses.HalfTable(t, count, each), first - Max(count - each, 0))
    ensures Pulses.HalfTrace(t, count, each, first)
         == [Code(Pulses.HalfTable(t, count, each), first - Max(count - each, 0))]
  {
    hide Pulses.PulseTables.Ok, Pulses.HalfTable, Code;
    Pulses.HalfTableOk(t, count, each);
  }

  lemma SliceWindow(cdf: Cdf, start: nat, n: nat)
    requires start + n <= |cdf|
    ensures Pulses.CdfWindow(cdf, start, n) == cdf[start..start + n]
  {
  }

  /** Both half frames, then the subframes of the first and of the second. */
  lemma SplitPlaces(t: Pulses.PulseTables, subfr: seq<nat>)
    requires t.Ok() && CountsOk(subfr)
    ensures var a, b := subfr[0] + subfr[1], subfr[2] + subfr[3];
            && Pulses.SplitFits(a + b, 80, a) && Pulses.SplitFits(a, 40, subfr[0]) && Pulses.SplitFits(b, 40, subfr[2])
            && Pulses.SplitTrace(t, subfr)
               == Pulses.HalfTrace(t, a + b, 80, a)
                  + (Pulses.HalfTrace(t, a, 40, subfr[0]) + Pulses.HalfTrace(t, b, 40, subfr[2]))
  {
    hide Pulses.PulseTables.Ok, Pulses.HalfTrace;
    Pulses.SplitSizes(subfr);
  }

  /** A run stands in the table of its pulses at the end that leaves exactly the open positions. */
  lemma RunSymbol(t: Pulses.PulseTables, pos: nat, c: nat, m: nat)
    requires t.Ok() && 1 <= pos <= SUBFR && 1 <= c <= MAX_PULSES && m < pos
    ensures Codes(Pulses.RunTable(t, pos, c), m)
    ensures var oct := (pos + 7) / 8;
            && 8 * oct - 8 < pos <= 8 * oct <= 80 && |t.runlen| == 20 && |t.runlen[oct - 1].cmfs| == MAX_PULSES
            && Between(Code(Pulses.RunTable(t, pos, c), m), t.runlen[oct - 1].cmfs[c - 1],
                       8 * oct - pos, 8 * oct - pos + m, 8 * oct)
  {
    Pulses.RunTableOk(t, pos, c);
    var oct := (pos + 7) / 8;
    assert Pulses.RunlenOk(t.runlen[oct - 1], oct);
    var cdf := t.runlen[oct - 1].cmfs[c - 1];
    SliceWindow(cdf, 8 * oct - pos, pos + 1);
    Windowed(cdf, 8 * oct - pos, 8 * oct, m);
  }

  /** Run i of a subframe is coded among the pulses and positions that the earlier ones leave. */
  lemma {:induction false} PulseRunPlaces(t: Pulses.PulseTables, ms: seq<nat>, pos: nat, i: nat)
    requires t.Ok() && RunsFit(ms, pos) && pos <= SUBFR && i < |ms| <= MAX_PULSES
    ensures var w, left := Pulses.RunTrace(t, ms, pos), pos - Sum(ms[..i]);
            && |w| == |ms| && 1 <= left <= SUBFR && ms[i] < left
            && Codes(Pulses.RunTable(t, left, |ms| - i), ms[i])
            && w[i] == Code(Pulses.RunTable(t, left, |ms| - i), ms[i])
  {
    hide Pulses.PulseTables.Ok, Pulses.RunTable, Codes, Code;
    Pulses.RunsFitTail(ms, pos);
    Pulses.RunTableOk(t, pos, |ms|);
    RunTraceCount(t, ms, pos);
    TableCodes(t, pos, |ms|, ms[0]);
    if i > 0 {
      PulseRunPlaces(t, ms[1..], pos - ms[0], i - 1);
      assert ms[..i] == [ms[0]] + ms[1..][..i - 1];
      SumAppend([ms[0]], ms[1..][..i - 1]);
      assert [ms[0]][..0] == [];
    } else {
      assert ms[..0] == [];
    }
  }

  lemma TableCodes(t: Pulses.PulseTables, pos: nat, c: nat, m: nat)
    requires t.Ok() && 1 <= pos <= SUBFR && 1 <= c <= MAX_PULSES && m < pos
    ensures Codes(Pulses.RunTable(t, pos, c), m)
  {
    Pulses.RunTableOk(t, pos, c);
  }

  lemma {:induction false} RunTraceCount(t: Pulses.PulseTables, ms: seq<nat>, pos: nat)
    requires t.Ok() && RunsFit(ms, pos) && pos <= SUBFR && |ms| <= MAX_PULSES
    ensures |Pulses.RunTrace(t, ms, pos)| == |ms|
  {
    hide Pulses.PulseTables.Ok, Pulses.RunTable, Codes, Code, RunsFit;
    if ms != [] {
      Pulses.RunsFitTail(ms, pos);
      Pulses.RunTableOk(t, pos, |ms|);
      RunTraceCount(t, ms[1..], pos - ms[0]);
    }
  }

  /** The runs of a subframe's first n samples add up to the place of its last pulse, one run for each pulse. */
  lemma {:induction false} RunsReach(x: seq<int>, n: nat)
    requires n <= |x|
    ensures |Runs(x, n)| == Count(x, n) && Sum(Runs(x, n)) == Last(x, n)
  {
    if n > 0 {
      RunsReach(x, n - 1);
      var k := n - 1 - Last(x, n - 1);
      SumZeros(Abs(x[n - 1]) - 1 + if x[n - 1] == 0 then 1 else 0);
      if x[n - 1] != 0 {
        SumAppend(Runs(x, n - 1) + [k], Zeros(Abs(x[n - 1]) - 1));
        SumAppend(Runs(x, n - 1), [k]);
        assert [k][..0] == [];
      }
    }
  }

  /** Bit i of a packed batch, from the top, is set exactly for a positive pulse. */
  lemma {:induction false} PackBits(signs: seq<int>, i: nat)
    requires i < |signs|
    ensures Pack(signs) / Pow2(|signs| - 1 - i) % 2 == if signs[i] > 0 then 1 else 0
  {
    var n := |signs| - 1;
    var p, rest := Pow2(n - i), Pack(signs[1..]);
    if i == 0 {
      DivModUnique(Pack(signs), Pow2(n), if signs[0] > 0 then 1 else 0, rest);
    } else {
      PackBits(signs[1..], i - 1);
      Pow2Add(n - i, i);
      Pow2Add(1, i - 1);
      TopBit(rest, p, Pow2(i - 1), if signs[0] > 0 then 1 else 0);
      assert Pow2(n) == p * (2 * Pow2(i - 1));
    }
  }

  lemma TopBit(rest: nat, p: nat, q: nat, bit: nat)
    requires p > 0
    ensures (bit * (p * (2 * q)) + rest) / p % 2 == rest / p % 2
  {
    DivModUnique(bit * (p * (2 * q)) + rest, p, 2 * (bit * q) + rest / p, rest % p);
    assert (2 * (bit * q) + rest / p) * p == bit * (p * (2 * q)) + rest / p * p;
  }

  /** Signs go out in order of position, positive for a positive sample. */
  lemma SignOrder(x: seq<int>, n: nat)
    requires n < |x|
    ensures x[n] == 0 ==> Signs(x, n + 1) == Signs(x, n)
    ensures x[n] != 0 ==> |Signs(x, n + 1)| == |Signs(x, n)| + 1 && Signs(x, n + 1)[..|Signs(x, n)|] == Signs(x, n)
    ensures x[n] != 0 ==> (Signs(x, n + 1)[|Signs(x, n)|] > 0 <==> x[n] > 0)
  {
  }

  /** Count first; then, unless there is nothing to place, split, runs and sign batches. */
  lemma PulsePlaces(t: Pulses.PulseTables, p: PulseParams)
    requires t.Ok() && p.Ok()
    ensures var w := Pulses.PulseTrace(t, p);
            && w != [] && w[0] == Pulses.CountSym(p.total)
            && (p.total == 0 ==> |w| == 1)
            && (p.total > 0 ==>
                  var split := Pulses.SplitTrace(t, p.subfr);
                  var runs := Pulses.RunBlock(t, p.subfr, p.magRuns, 0);
                  && |w| == 1 + |split| + |runs| + |p.signSyms|
                  && w[1..1 + |split|] == split && w[1 + |split|..1 + |split| + |runs|] == runs)
    ensures p.total > 0 ==> forall k :: 0 <= k < |p.signSyms| ==>
              var w, b := Pulses.PulseTrace(t, p), p.signSyms[k];
              w[|w| - |p.signSyms| + k] == Sym(b.sym, b.sym + 1, Pow2(b.nbits))
  {
    hide Pulses.PulseTables.Ok, Pulses.SplitTrace, Pulses.RunBlock, Pulses.CountSym, Pow2;
    SignPlaces(p.signSyms);
  }

  lemma {:induction false} SignPlaces(batches: seq<RawSym>)
    ensures |Pulses.SignTrace(batches)| == |batches|
    ensures forall k :: 0 <= k < |batches| ==>
              Pulses.SignTrace(batches)[k] == Sym(batches[k].sym, batches[k].sym + 1, Pow2(batches[k].nbits))
  {
    hide Pow2;
    if batches != [] {
      SignPlaces(batches[1..]);
    }
  }

  /** Counts are sent by a falling weight: 321 for none, then 162 for one pulse down to 3 for a full frame. */
  lemma CountWidths(k: nat)
    requires k <= Pulses.FRAME_LEN
    ensures Pulses.CountSym(k).fh - Pulses.CountSym(k).fl == if k == 0 then 321 else 163 - k
    ensures k == 0 ==> Pulses.CountSym(k).fl == 0
    ensures k < Pulses.FRAME_LEN ==> Pulses.CountSym(k + 1).fl == Pulses.CountSym(k).fh
    ensures k == Pulses.FRAME_LEN ==> Pulses.CountSym(k).fh == Pulses.CountSym(k).ft
  {
  }

  // ---- Contours, and the order of everything ----

  /** Without a previous block the contour's number stands in the whole table; with one, its first block comes first. */
  lemma ContourPlaces(t: Mem.PitchTables, prevBlk: int, c: int)
    requires Pitch.TablesOk(t) && -1 <= prevBlk < Mem.BLOCKS && 0 <= c < Mem.CONTOURS
    ensures var w, b, ix := Pitch.ContourTrace(t, prevBlk, c), t.blocksegs[c].blocks[0], t.blocksegs2idx[c];
            && (prevBlk < 0 ==> |w| == 1 && Between(w[0], t.blocksegIdxCmf, 0, ix - 1, Mem.CONTOURS))
            && (prevBlk >= 0 ==>
                  && |w| == 2 && Between(w[0], t.blockTransitionCmf[prevBlk], 0, b, Mem.BLOCKS)
                  && Between(w[1], t.blocksegIdxCmf, t.firstblockRange[b].0, ix - 1, t.firstblockRange[b].1 + 1))
  {
    var b, ix := t.blocksegs[c].blocks[0], t.blocksegs2idx[c];
    Pitch.FirstBlockReady(t, c);
    Pitch.SelectorTables(t);
    if prevBlk < 0 {
      WholeTable(t.blocksegIdxCmf, ix - 1);
    } else {
      WholeTable(t.blockTransitionCmf[prevBlk], b);
      ContourShare(t, c);
    }
  }

  /** An internal frame is its spectral block, its pulses, then pitch if it is voiced and gains if not. */
  lemma InternalOrder(t: Frames.Tables, pred: Pred, f: nat, ip: Frames.InternalParams)
    requires t.Ok() && ip.Ok(t, pred, f) && (f > 0 ==> Pitch.PredOk(pred))
    ensures var q := PredAfterLsf(pred, f, ip.lsf.stage1);
            var w, lsf := Frames.InternalTrace(t, pred, f, ip), LsfTrace(t.lsf, pred.stage1, 0, f, ip.lsf);
            var pulses := Pulses.PulseTrace(t.pulses, ip.pulses);
            && |lsf| + |pulses| <= |w| && w[..|lsf|] == lsf && w[|lsf|..|lsf| + |pulses|] == pulses
            && Pitch.PredOk(q) && (ip.block.Voiced? <==> ip.lsf.stage1 == 1)
            && (ip.block.Voiced? ==>
                  w[|lsf| + |pulses|..] == Pitch.PitchTrace(t.acb, t.pitch, 0, q, ip.pulses.subfr, ip.block.pitch))
            && (ip.block.Unvoiced? ==>
                  w[|lsf| + |pulses|..] == Gains.GainTrace(t.gains, ip.pulses.subfr, ip.block.gains))
  {
    hide Pitch.TablesOk, Pitch.GainCdfs.Ok, Gains.GainTables.Ok, Pulses.PulseTables.Ok, LsfTables.Ok, LsfTrace,
         Pulses.PulseTrace, Pitch.PitchTrace, Gains.GainTrace, LsfParams.Ok, PulseParams.Ok, Gains.GainParams.Ok,
         Pitch.PitchParams.Ok, Pitch.PredOk;
    Frames.NextPredOk(t, pred, f, ip);
  }

  /** A body is its three internal frames in order, each predicted from what the ones before it left. */
  lemma FrameOrder(t: Frames.Tables, ips: seq<Frames.InternalParams>)
    requires t.Ok() && |ips| == 3 && Frames.FramesOk(t, Frames.INITIAL, 0, ips)
    ensures var w, p0 := Frames.FramesTrace(t, Frames.INITIAL, 0, ips), Frames.INITIAL;
            && ips[0].Ok(t, p0, 0)
            && var p1 := Frames.NextPred(t, p0, 0, ips[0]);
               && ips[1].Ok(t, p1, 1) && Pitch.PredOk(p1)
               && var p2 := Frames.NextPred(t, p1, 1, ips[1]);
                  && ips[2].Ok(t, p2, 2) && Pitch.PredOk(p2)
                  && w == Frames.InternalTrace(t, p0, 0, ips[0]) + Frames.InternalTrace(t, p1, 1, ips[1])
                        + Frames.InternalTrace(t, p2, 2, ips[2])
                  && Frames.LastPred(t, p0, 0, ips) == Frames.NextPred(t, p2, 2, ips[2])
  {
    hide Frames.Tables.Ok, Frames.InternalParams.Ok, Frames.InternalTrace, Frames.NextPred, Pitch.PredOk;
    var p0 := Frames.INITIAL;
    Frames.NextPredOk(t, p0, 0, ips[0]);
    var p1, late := Frames.NextPred(t, p0, 0, ips[0]), ips[1..];
    assert Frames.FramesOk(t, p1, 1, late);
    Frames.NextPredOk(t, p1, 1, late[0]);
    var p2, last := Frames.NextPred(t, p1, 1, late[0]), late[1..];
    assert Frames.FramesOk(t, p2, 2, last);
    Frames.NextPredOk(t, p2, 2, last[0]);
    var p3 := Frames.NextPred(t, p2, 2, last[0]);
    assert last[1..] == [] && Frames.FramesTrace(t, p3, 3, []) == [] && Frames.LastPred(t, p3, 3, []) == p3;
    assert Frames.FramesTrace(t, p2, 2, last) == Frames.InternalTrace(t, p2, 2, last[0]);
    assert Frames.FramesTrace(t, p1, 1, late)
        == Frames.InternalTrace(t, p1, 1, late[0]) + Frames.InternalTrace(t, p2, 2, last[0]);
    assert late[0] == ips[1] && last[0] == ips[2];
    assert Frames.LastPred(t, p2, 2, last) == p3 && Frames.LastPred(t, p1, 1, late) == p3;
  }

  /** A pitch block is its gains and filters, then its contour, then its lags. */
  lemma PitchOrder(g: Pitch.GainCdfs, t: Mem.PitchTables, config: nat, pred: Pred, counts: seq<nat>,
                   p: Pitch.PitchParams)
    requires g.Ok() && Pitch.TablesOk(t) && config < 2 && Pitch.PredOk(pred) && p.Ok(t, counts)
    ensures var w := Pitch.PitchTrace(g, t, config, pred, counts, p);
            var gains := Pitch.GainTrace(g, config, pred.gainIdx, pred.filtIdx, counts, p.gainIdx, p.filtIdx, 0);
            var contour := Pitch.ContourTrace(t, pred.blk, p.contour);
            && |gains| + |contour| <= |w| && w[..|gains|] == gains
            && w[|gains|..|gains| + |contour|] == contour
            && Pitch.ContourOk(t.blocksegs[p.contour])
            && w[|gains| + |contour|..]
               == Pitch.LagPart(t, t.blocksegs[p.contour], pred.blk, pred.lag, Pitch.ModeOf(g, config, p.gainIdx),
                                p.laginds)
  {
    hide Pitch.GainCdfs.Ok, Pitch.GainTrace, Pitch.ContourTrace, Pitch.LagPart, Pitch.ContourOk, Pitch.ModeOf;
    Pitch.GainTablesReady(g, config, -1, -1);
  }

  /** A voiced frame leaves its last gain, its last filter sent, and block and lag of its last subframe. */
  lemma PredictionLeft(t: Mem.PitchTables, pred: Pred, counts: seq<nat>, p: Pitch.PitchParams)
    requires Pitch.TablesOk(t) && Pitch.PredOk(pred) && p.Ok(t, counts)
    ensures var q, seg := Pitch.PredAfterPitch(t, pred, counts, p), t.blocksegs[p.contour];
            && |seg.blocks| == |seg.seglens|
            && |Tracks.Track(seg, |seg.blocks|)| == |p.laginds| == Pitch.SUBFRAMES
            && q.blk == Tracks.Track(seg, |seg.blocks|)[Pitch.SUBFRAMES - 1] && q.lag == p.laginds[Pitch.SUBFRAMES - 1]
            && Pitch.InBlock(q.lag, q.blk) && q.gainIdx == p.gainIdx[NUM - 1] && q.stage1 == pred.stage1
            && (counts[NUM - 1] > 0 ==> q.filtIdx == p.filtIdx[NUM - 1])
  {
    Pitch.ContourReady(t, p.contour);
    var seg := t.blocksegs[p.contour];
    Pitch.ContourShape(seg);
    Pitch.ContourEnd(seg);
    Tracks.TrackEnds(seg, |seg.blocks|);
    Pitch.PredKept(t, pred, counts, p);
    hide Pitch.TablesOk, Pitch.ContourOk;
  }
}
