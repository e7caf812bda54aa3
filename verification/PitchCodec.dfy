/** The pitch block of a voiced frame: gains and filters per subframe, a lag contour, then its lags. */
module PitchCodec {
  import opened Arith
  import opened RangeSpec
  import opened RangeEncoding
  import opened RangeDecoding
  import opened CdfCoding
  import CdfTables
  import opened SmplMemory
  import opened LsfCodec
  import opened PulseVector

  const GAINS := 16
  const FILTERS := 34
  const SUBFRAMES := 8
  const BLOCK := 64

  // ---- Tables ----

  /** Gain tables for both rates: 17 rows of 17 entries end to end, and pairs of codebook weights. */
  datatype GainCdfs = GainCdfs(rows: seq<seq<uint16>>, weights: seq<seq<int>>, filters: Cdf, filterDeltas: Cdf) {
    ghost predicate Ok() {
      && |rows| == 2 && |weights| == 2
      && (forall i :: 0 <= i < 2 ==> |rows[i]| == 289 && |weights[i]| == 2 * GAINS)
      && (forall i, prev :: 0 <= i < 2 && -1 <= prev < GAINS ==> Strict(Row(i, prev)))
      && Strict(filters) && |filters| == FILTERS + 1
      && Strict(filterDeltas) && |filterDeltas| == 2 * FILTERS
    }

    function Row(config: nat, prev: int): (row: Cdf)
      requires config < |rows| && |rows[config]| == 289 && -1 <= prev < GAINS
      ensures |row| == GAINS + 1
    {
      rows[config][17 * (prev + 1)..17 * (prev + 1) + 17]
    }

    /** The filter table after a filter, or the plain one after none. */
    function Filter(prev: int): (f: Cdf)
      requires |filters| == FILTERS + 1 && |filterDeltas| == 2 * FILTERS && -1 <= prev < FILTERS
      ensures |f| == FILTERS + 1
    {
      if prev == -1 then filters else filterDeltas[FILTERS - 1 - prev..FILTERS - 1 - prev + 35]
    }
  }

  /** Whatever gain and filter came before, the tables they select lie in range and are strict. */
  lemma GainTablesReady(g: GainCdfs, config: nat, prevGain: int, prevFilt: int)
    requires g.Ok() && config < 2 && -1 <= prevGain < GAINS && -1 <= prevFilt < FILTERS
    ensures |g.rows| == 2 && |g.rows[config]| == 289 && Strict(g.Row(config, prevGain))
    ensures |g.filters| == FILTERS + 1 && |g.filterDeltas| == 2 * FILTERS && Strict(g.Filter(prevFilt))
    ensures |g.weights| == 2 && |g.weights[config]| == 2 * GAINS
  {
    if prevFilt != -1 {
      CdfTables.StrictWindow(g.filterDeltas, FILTERS - 1 - prevFilt, 35);
    }
  }

  /** Where run k of a contour starts. */
  function Start(seglens: seq<nat>, k: nat): nat
    requires k <= |seglens|
  {
    if k == 0 then 0 else Start(seglens, k - 1) + seglens[k - 1]
  }

  ghost predicate ContourOk(bs: BlockSeg) {
    && bs.Shaped() && Start(bs.seglens, |bs.blocks|) == SUBFRAMES
    && forall i :: 0 < i < |bs.blocks| ==> bs.blocks[i - 1] - 1 <= bs.blocks[i] as int <= bs.blocks[i - 1] + 2
  }

  /** Every contour fills the frame in small steps, has a number of its own, and is in its first block's range. */
  ghost predicate TablesOk(t: PitchTables) {
    && t.Shaped()
    && (forall c :: 0 <= c < CONTOURS ==> ContourOk(t.blocksegs[c]))
    && (forall c :: 0 <= c < CONTOURS ==> 1 <= t.blocksegs2idx[c] <= CONTOURS)
    && (forall c, d :: 0 <= c < d < CONTOURS ==> t.blocksegs2idx[c] != t.blocksegs2idx[d])
    && Strict(t.blocksegIdxCmf) && t.blocksegIdxCmf[0] == 0
    && (forall m :: 0 <= m < MODES ==> Strict(t.deltaLagCmfs[m]))
    && (forall b :: 0 <= b < BLOCKS ==> Strict(t.blockTransitionCmf[b]) && t.blockTransitionCmf[b][0] == 0)
    && (forall b :: 0 <= b < BLOCKS ==> t.firstblockRange[b].1 < CONTOURS)
    && forall c :: 0 <= c < CONTOURS ==> RangeHolds(t, t.blocksegs[c].blocks[0], t.blocksegs2idx[c])
  }

  predicate RangeHolds(t: PitchTables, b: nat, ix: int) {
    b < |t.firstblockRange| && t.firstblockRange[b].0 <= ix - 1 <= t.firstblockRange[b].1
  }

  // ---- Parameters and predictor ----

  ghost predicate PredOk(pred: Pred) {
    && -1 <= pred.gainIdx < GAINS && -1 <= pred.filtIdx < FILTERS && -1 <= pred.blk < BLOCKS
    && (pred.blk >= 0 ==> InBlock(pred.lag, pred.blk))
  }

  predicate InBlock(lag: int, blk: int) {
    BLOCK * blk <= lag < BLOCK * blk + BLOCK
  }

  datatype PitchParams = PitchParams(gainIdx: seq<int>, filtIdx: seq<int>, contour: int, laginds: seq<int>) {
    ghost predicate Ok(t: PitchTables, counts: seq<nat>) {
      && GainsOk(counts, gainIdx, filtIdx)
      && 0 <= contour < |t.blocksegs| && LagsFit(t.blocksegs[contour], laginds)
    }
  }

  ghost predicate GainsOk(counts: seq<nat>, gainIdx: seq<int>, filtIdx: seq<int>) {
    && |counts| == |gainIdx| == |filtIdx| == NUM
    && forall sf :: 0 <= sf < NUM ==> GainOk(counts[sf], gainIdx[sf], filtIdx[sf])
  }

  predicate GainOk(cnt: nat, gain: int, filt: int) {
    && 0 <= gain < GAINS
    && if cnt > 0 then 0 <= filt < FILTERS else filt == -1
  }

  /** One lag per run, inside the run's block. */
  ghost predicate LagsFit(bs: BlockSeg, lags: seq<int>) {
    bs.Shaped() && |lags| == SUBFRAMES && LagsFitUpto(bs, lags, |bs.blocks|)
  }

  ghost predicate LagsFitUpto(bs: BlockSeg, lags: seq<int>, k: nat)
    requires bs.Shaped()
  {
    k <= |bs.blocks| && Start(bs.seglens, k) <= |lags| && forall j :: 0 <= j < k ==> RunFits(bs, lags, j)
  }

  ghost predicate RunFits(bs: BlockSeg, lags: seq<int>, j: nat)
    requires bs.Shaped() && j < |bs.blocks|
  {
    var s := Start(bs.seglens, j);
    s + bs.seglens[j] <= |lags| && InBlock(lags[s], bs.blocks[j])
    && forall i :: s <= i < s + bs.seglens[j] ==> lags[i] == lags[s]
  }

  /** Filter last sent among the first k subframes. */
  function LastFilt(prev: int, counts: seq<nat>, filts: seq<int>, k: nat): int
    requires k <= |counts| && k <= |filts|
  {
    if k == 0 then prev else if counts[k - 1] > 0 then filts[k - 1] else LastFilt(prev, counts, filts, k - 1)
  }

  function LastGain(prev: int, gains: seq<int>, k: nat): int
    requires k <= |gains|
  {
    if k == 0 then prev else gains[k - 1]
  }

  lemma {:induction false} LastOk(prevGain: int, prevFilt: int, counts: seq<nat>, gains: seq<int>, filts: seq<int>,
                                  k: nat)
    requires -1 <= prevGain < GAINS && -1 <= prevFilt < FILTERS && k <= |counts| == |gains| == |filts|
    requires forall sf :: 0 <= sf < k ==> GainOk(counts[sf], gains[sf], filts[sf])
    ensures -1 <= LastGain(prevGain, gains, k) < GAINS && -1 <= LastFilt(prevFilt, counts, filts, k) < FILTERS
  {
    if k > 0 {
      LastOk(prevGain, prevFilt, counts, gains, filts, k - 1);
    }
  }

  lemma {:induction false} LastPrefix(prev: int, counts: seq<nat>, filts: seq<int>, more: seq<int>, k: nat)
    requires k <= |counts| && k <= |filts|
    ensures LastFilt(prev, counts, filts + more, k) == LastFilt(prev, counts, filts, k)
  {
    if k > 0 {
      LastPrefix(prev, counts, filts, more, k - 1);
    }
  }

  /** What a voiced frame leaves for the next one to predict from. */
  ghost function PredAfterPitch(t: PitchTables, pred: Pred, counts: seq<nat>, p: PitchParams): Pred
    requires p.Ok(t, counts)
  {
    var blocks := t.blocksegs[p.contour].blocks;
    Pred(pred.stage1, p.gainIdx[NUM - 1], LastFilt(pred.filtIdx, counts, p.filtIdx, NUM),
         blocks[|blocks| - 1], p.laginds[SUBFRAMES - 1])
  }

  // ---- Average gain ----

  function Weight(g: GainCdfs, config: nat, gain: int): int
    requires config < |g.weights| && |g.weights[config]| == 2 * GAINS && 0 <= gain < GAINS
  {
    g.weights[config][2 * gain] + 2 * g.weights[config][2 * gain + 1]
  }

  function GainSum(g: GainCdfs, config: nat, gains: seq<int>, k: nat): int
    requires config < |g.weights| && |g.weights[config]| == 2 * GAINS && k <= |gains|
    requires forall i :: 0 <= i < k ==> 0 <= gains[i] < GAINS
  {
    if k == 0 then 0 else GainSum(g, config, gains, k - 1) + Weight(g, config, gains[k - 1])
  }

  lemma {:induction false} GainSumPrefix(g: GainCdfs, config: nat, gains: seq<int>, more: seq<int>, k: nat)
    requires config < |g.weights| && |g.weights[config]| == 2 * GAINS && k <= |gains|
    requires forall i :: 0 <= i < k ==> 0 <= gains[i] < GAINS
    ensures GainSum(g, config, gains + more, k) == GainSum(g, config, gains, k)
  {
    if k > 0 {
      GainSumPrefix(g, config, gains, more, k - 1);
    }
  }

  /** Division that drops the fraction, as the source's does for negative sums too. */
  function Quotient(a: int, b: nat): int
    requires b > 0
  {
    if a < 0 then -(-a / b) else a / b
  }

  /** Which of the three lag tables the average gain selects. */
  function Mode(sum: int): (m: nat)
    ensures m < MODES
  {
    var avg := Quotient(sum, NUM);
    if avg < 10007 then 0 else if avg < 14085 then 1 else 2
  }

  function ModeOf(g: GainCdfs, config: nat, gains: seq<int>): (m: nat)
    requires config < |g.weights| && |g.weights[config]| == 2 * GAINS && |gains| == NUM
    requires forall i :: 0 <= i < NUM ==> 0 <= gains[i] < GAINS
    ensures m < MODES
  {
    Mode(GainSum(g, config, gains, NUM))
  }

  // ---- Gain symbols ----

  ghost function GainTrace(g: GainCdfs, config: nat, prevGain: int, prevFilt: int, counts: seq<nat>,
                           gains: seq<int>, filts: seq<int>, sf: nat): seq<Sym>
    requires g.Ok() && config < 2 && GainsOk(counts, gains, filts) && sf <= NUM
    requires -1 <= prevGain < GAINS && -1 <= prevFilt < FILTERS
    decreases NUM - sf
  {
    if sf == NUM then []
    else
      LastOk(prevGain, prevFilt, counts, gains, filts, sf);
      var pg, pf := LastGain(prevGain, gains, sf), LastFilt(prevFilt, counts, filts, sf);
      GainTablesReady(g, config, pg, pf);
      assert GainOk(counts[sf], gains[sf], filts[sf]);
      [Code(g.Row(config, pg), gains[sf])]
      + ((if counts[sf] > 0 then [Code(g.Filter(pf), filts[sf])] else [])
      + GainTrace(g, config, prevGain, prevFilt, counts, gains, filts, sf + 1))
  }

  lemma GainNext(g: GainCdfs, config: nat, prevGain: int, prevFilt: int, counts: seq<nat>,
                 gains: seq<int>, filts: seq<int>, sf: nat, rest: seq<Sym>)
    requires g.Ok() && config < 2 && GainsOk(counts, gains, filts) && sf < NUM
    requires -1 <= prevGain < GAINS && -1 <= prevFilt < FILTERS
    ensures var pg, pf := LastGain(prevGain, gains, sf), LastFilt(prevFilt, counts, filts, sf);
      && -1 <= pg < GAINS && -1 <= pf < FILTERS && GainOk(counts[sf], gains[sf], filts[sf])
      && |g.rows| == 2 && |g.rows[config]| == 289 && |g.filters| == FILTERS + 1 && |g.filterDeltas| == 2 * FILTERS
      && Codes(g.Row(config, pg), gains[sf]) && (counts[sf] > 0 ==> Codes(g.Filter(pf), filts[sf]))
      && GainTrace(g, config, prevGain, prevFilt, counts, gains, filts, sf) + rest
      == [Code(g.Row(config, pg), gains[sf])]
         + ((if counts[sf] > 0 then [Code(g.Filter(pf), filts[sf])] else [])
         + (GainTrace(g, config, prevGain, prevFilt, counts, gains, filts, sf + 1) + rest))
  {
    LastOk(prevGain, prevFilt, counts, gains, filts, sf);
    GainTablesReady(g, config, LastGain(prevGain, gains, sf), LastFilt(prevFilt, counts, filts, sf));
    assert GainOk(counts[sf], gains[sf], filts[sf]);
  }

  lemma GainEnd(g: GainCdfs, config: nat, prevGain: int, prevFilt: int, counts: seq<nat>,
                gains: seq<int>, filts: seq<int>, rest: seq<Sym>)
    requires g.Ok() && config < 2 && GainsOk(counts, gains, filts)
    requires -1 <= prevGain < GAINS && -1 <= prevFilt < FILTERS
    ensures GainTrace(g, config, prevGain, prevFilt, counts, gains, filts, NUM) + rest == rest
  {
  }

  method EncodeGains(enc: RangeEncoder, g: GainCdfs, st: LsfState, config: nat, counts: seq<nat>,
                     gains: seq<int>, filts: seq<int>)
    returns (gainAccum: int)
    requires enc.Valid() && g.Ok() && config < 2 && GainsOk(counts, gains, filts)
    requires -1 <= st.PrevGainIdx < GAINS && -1 <= st.PrevFiltIdx < FILTERS
    modifies enc, enc.buf, st`PrevGainIdx, st`PrevFiltIdx
    ensures enc.Valid() && enc.raws == old(enc.raws)
    ensures |g.weights| == 2 && |g.weights[config]| == 2 * GAINS && gainAccum == GainSum(g, config, gains, NUM)
    ensures enc.trace == old(enc.trace)
              + GainTrace(g, config, old(st.PrevGainIdx), old(st.PrevFiltIdx), counts, gains, filts, 0)
    ensures st.PrevGainIdx == gains[NUM - 1]
    ensures st.PrevFiltIdx == LastFilt(old(st.PrevFiltIdx), counts, filts, NUM)
    ensures enc.failed == old(enc.failed) && (old(enc.err) != 0 ==> enc.err != 0)
  {
    hide RangeEncoder.Valid, GainCdfs.Ok, GainCdfs.Row, GainCdfs.Filter, GainTrace, Code, Codes;
    ghost var pg, pf := st.PrevGainIdx, st.PrevFiltIdx;
    ghost var all := enc.trace + GainTrace(g, config, pg, pf, counts, gains, filts, 0);
    gainAccum := 0;
    GainTablesReady(g, config, pg, pf);
    for sf := 0 to NUM
      invariant enc.Valid() && enc.raws == old(enc.raws)
      invariant st.PrevGainIdx == LastGain(pg, gains, sf) && st.PrevFiltIdx == LastFilt(pf, counts, filts, sf)
      invariant gainAccum == GainSum(g, config, gains, sf)
      invariant enc.trace + GainTrace(g, config, pg, pf, counts, gains, filts, sf) == all
      invariant enc.failed == old(enc.failed) && (old(enc.err) != 0 ==> enc.err != 0)
    {
      GainNext(g, config, pg, pf, counts, gains, filts, sf, []);
      ghost var before, tail := enc.trace, GainTrace(g, config, pg, pf, counts, gains, filts, sf + 1);
      assert tail + [] == tail;
      assert all == before + (GainTrace(g, config, pg, pf, counts, gains, filts, sf) + []);
      var row := g.Row(config, st.PrevGainIdx);
      ghost var first := [Code(row, gains[sf])];
      Put(enc, gains[sf], row);
      st.PrevGainIdx := gains[sf];
      gainAccum := gainAccum + (g.weights[config][2 * gains[sf]] + 2 * g.weights[config][2 * gains[sf] + 1]);
      if counts[sf] > 0 {
        var f := g.Filter(st.PrevFiltIdx);
        ghost var second := [Code(f, filts[sf])];
        Put(enc, filts[sf], f);
        st.PrevFiltIdx := filts[sf];
        assert before + (first + (second + tail)) == before + first + second + tail;
      } else {
        assert before + (first + ([] + tail)) == before + first + tail;
      }
    }
    GainEnd(g, config, pg, pf, counts, gains, filts, []);
  }

  method DecodeGain(dec: RangeDecoder, g: GainCdfs, st: LsfState, config: nat, cnt: nat,
                    ghost sentGain: int, ghost sentFilt: int, ghost rest: seq<Sym>)
    returns (gi: int, fi: int)
    requires dec.Valid() && g.Ok() && config < 2
    requires -1 <= st.PrevGainIdx < GAINS && -1 <= st.PrevFiltIdx < FILTERS
    modifies dec, st`PrevGainIdx, st`PrevFiltIdx
    ensures dec.Valid() && dec.Err == old(dec.Err) && GainOk(cnt, gi, fi)
    ensures st.PrevGainIdx == gi && st.PrevFiltIdx == if cnt > 0 then fi else old(st.PrevFiltIdx)
    ensures GainOk(cnt, sentGain, sentFilt)
            && |g.rows| == 2 && |g.rows[config]| == 289 && |g.filters| == FILTERS + 1 && |g.filterDeltas| == 2 * FILTERS
            && Codes(g.Row(config, old(st.PrevGainIdx)), sentGain)
            && (cnt > 0 ==> Codes(g.Filter(old(st.PrevFiltIdx)), sentFilt))
            && old(dec.todo) == [Code(g.Row(config, old(st.PrevGainIdx)), sentGain)]
                 + ((if cnt > 0 then [Code(g.Filter(old(st.PrevFiltIdx)), sentFilt)] else []) + rest) ==>
              gi == sentGain && fi == sentFilt && dec.todo == rest
  {
    hide RangeDecoder.Valid, GainCdfs.Ok, GainCdfs.Row, GainCdfs.Filter, Code, Strict;
    GainTablesReady(g, config, st.PrevGainIdx, st.PrevFiltIdx);
    var row, f := g.Row(config, st.PrevGainIdx), g.Filter(st.PrevFiltIdx);
    ghost var afterGain := rest;
    if cnt > 0 && Codes(f, sentFilt) {
      afterGain := [Code(f, sentFilt)] + rest;
    } else {
      assert [] + rest == rest;
    }
    gi := Take(dec, row, sentGain, afterGain);
    st.PrevGainIdx := gi;
    fi := -1;
    if cnt > 0 {
      fi := Take(dec, f, sentFilt, rest);
      st.PrevFiltIdx := fi;
    }
  }

  /** The next promised symbols, in terms of what has been decoded so far. */
  lemma GainPromised(g: GainCdfs, config: nat, prevGain: int, prevFilt: int, counts: seq<nat>,
                     gains: seq<int>, filts: seq<int>, sf: nat, rest: seq<Sym>)
    requires g.Ok() && config < 2 && GainsOk(counts, gains, filts) && sf < NUM
    requires -1 <= prevGain < GAINS && -1 <= prevFilt < FILTERS
    ensures var pg, pf := LastGain(prevGain, gains[..sf], sf), LastFilt(prevFilt, counts, filts[..sf], sf);
      && -1 <= pg < GAINS && -1 <= pf < FILTERS && GainOk(counts[sf], gains[sf], filts[sf])
      && |g.rows| == 2 && |g.rows[config]| == 289 && |g.filters| == FILTERS + 1 && |g.filterDeltas| == 2 * FILTERS
      && Codes(g.Row(config, pg), gains[sf]) && (counts[sf] > 0 ==> Codes(g.Filter(pf), filts[sf]))
      && GainTrace(g, config, prevGain, prevFilt, counts, gains, filts, sf) + rest
      == [Code(g.Row(config, pg), gains[sf])]
         + ((if counts[sf] > 0 then [Code(g.Filter(pf), filts[sf])] else [])
         + (GainTrace(g, config, prevGain, prevFilt, counts, gains, filts, sf + 1) + rest))
  {
    hide GainTrace, Code, GainCdfs.Ok, Codes;
    GainNext(g, config, prevGain, prevFilt, counts, gains, filts, sf, rest);
    assert filts == filts[..sf] + filts[sf..];
    LastPrefix(prevFilt, counts, filts[..sf], filts[sf..], sf);
  }

  lemma PushGain(g: GainCdfs, config: nat, prevFilt: int, counts: seq<nat>, gains: seq<int>, filts: seq<int>, gi: int,
                 fi: int)
    requires config < |g.weights| && |g.weights[config]| == 2 * GAINS && |gains| == |filts| < |counts|
    requires 0 <= gi < GAINS && forall i :: 0 <= i < |gains| ==> 0 <= gains[i] < GAINS
    ensures GainSum(g, config, gains + [gi], |gains| + 1) == GainSum(g, config, gains, |gains|) + Weight(g, config, gi)
    ensures LastFilt(prevFilt, counts, filts + [fi], |filts| + 1)
         == if counts[|filts|] > 0 then fi else LastFilt(prevFilt, counts, filts, |filts|)
  {
    GainSumPrefix(g, config, gains, [gi], |gains|);
    LastPrefix(prevFilt, counts, filts, [fi], |filts|);
  }

  lemma NoGains(g: GainCdfs, config: nat, prevFilt: int, counts: seq<nat>)
    requires config < |g.weights| && |g.weights[config]| == 2 * GAINS
    ensures GainSum(g, config, [], 0) == 0 && LastFilt(prevFilt, counts, [], 0) == prevFilt
  {
  }

  method DecodeGains(dec: RangeDecoder, g: GainCdfs, st: LsfState, config: nat, counts: seq<nat>,
                     ghost sentGains: seq<int>, ghost sentFilts: seq<int>, ghost rest: seq<Sym>)
    returns (gainIdx: seq<int>, filtIdx: seq<int>, gainAccum: int)
    requires dec.Valid() && g.Ok() && config < 2 && |counts| == NUM
    requires -1 <= st.PrevGainIdx < GAINS && -1 <= st.PrevFiltIdx < FILTERS
    modifies dec, st`PrevGainIdx, st`PrevFiltIdx
    ensures dec.Valid() && dec.Err == old(dec.Err) && GainsOk(counts, gainIdx, filtIdx)
    ensures |g.weights| == 2 && |g.weights[config]| == 2 * GAINS && gainAccum == GainSum(g, config, gainIdx, NUM)
    ensures st.PrevGainIdx == gainIdx[NUM - 1]
    ensures st.PrevFiltIdx == LastFilt(old(st.PrevFiltIdx), counts, filtIdx, NUM)
    ensures -1 <= st.PrevFiltIdx < FILTERS
    ensures GainsOk(counts, sentGains, sentFilts)
            && old(dec.todo) == GainTrace(g, config, old(st.PrevGainIdx), old(st.PrevFiltIdx), counts,
                                          sentGains, sentFilts, 0) + rest ==>
              gainIdx == sentGains && filtIdx == sentFilts && dec.todo == rest
  {
    hide RangeDecoder.Valid, GainCdfs.Ok, GainCdfs.Row, GainCdfs.Filter, GainTrace, Code, Strict, Codes,
         GainSum, LastFilt;
    ghost var pg, pf := st.PrevGainIdx, st.PrevFiltIdx;
    ghost var kept := GainsOk(counts, sentGains, sentFilts)
                      && dec.todo == GainTrace(g, config, pg, pf, counts, sentGains, sentFilts, 0) + rest;
    gainIdx, filtIdx, gainAccum := [], [], 0;
    GainTablesReady(g, config, pg, pf);
    NoGains(g, config, pf, counts);
    for sf := 0 to NUM
      invariant dec.Valid() && dec.Err == old(dec.Err) && |gainIdx| == |filtIdx| == sf
      invariant forall i :: 0 <= i < sf ==> GainOk(counts[i], gainIdx[i], filtIdx[i])
      invariant st.PrevGainIdx == LastGain(pg, gainIdx, sf) && st.PrevFiltIdx == LastFilt(pf, counts, filtIdx, sf)
      invariant -1 <= st.PrevGainIdx < GAINS && -1 <= st.PrevFiltIdx < FILTERS
      invariant gainAccum == GainSum(g, config, gainIdx, sf)
      invariant kept ==> gainIdx == sentGains[..sf] && filtIdx == sentFilts[..sf]
                         && dec.todo == GainTrace(g, config, pg, pf, counts, sentGains, sentFilts, sf) + rest
    {
      ghost var nextGain, nextFilt, tail := 0, 0, [];
      if kept {
        GainPromised(g, config, pg, pf, counts, sentGains, sentFilts, sf, rest);
        nextGain, nextFilt := sentGains[sf], sentFilts[sf];
        tail := GainTrace(g, config, pg, pf, counts, sentGains, sentFilts, sf + 1) + rest;
      }
      var gi, fi := DecodeGain(dec, g, st, config, counts[sf], nextGain, nextFilt, tail);
      PushGain(g, config, pf, counts, gainIdx, filtIdx, gi, fi);
      gainAccum := gainAccum + (g.weights[config][2 * gi] + 2 * g.weights[config][2 * gi + 1]);
      gainIdx, filtIdx := gainIdx + [gi], filtIdx + [fi];
    }
    if kept {
      GainEnd(g, config, pg, pf, counts, sentGains, sentFilts, rest);
    }
  }

  // ---- Contour selection ----

  /** The symbols of the contours whose first block may be b. */
  function FirstBlockTable(t: PitchTables, b: nat): Cdf
    requires b < |t.firstblockRange| && t.firstblockRange[b].1 + 2 <= |t.blocksegIdxCmf|
    requires t.firstblockRange[b].0 <= t.firstblockRange[b].1
  {
    t.blocksegIdxCmf[t.firstblockRange[b].0..t.firstblockRange[b].1 + 2]
  }

  ghost function ContourTrace(t: PitchTables, prevBlk: int, c: int): seq<Sym>
    requires TablesOk(t) && -1 <= prevBlk < BLOCKS && 0 <= c < CONTOURS
  {
    var ix, b := t.blocksegs2idx[c], t.blocksegs[c].blocks[0];
    if prevBlk < 0 then [Code(t.blocksegIdxCmf, ix - 1)]
    else
      FirstBlockReady(t, c);
      [Code(t.blockTransitionCmf[prevBlk], b), Code(FirstBlockTable(t, b), ix - 1 - t.firstblockRange[b].0)]
  }

  lemma FirstBlockReady(t: PitchTables, c: int)
    requires TablesOk(t) && 0 <= c < CONTOURS
    ensures t.blocksegs[c].Shaped() && 1 <= t.blocksegs2idx[c] <= CONTOURS
    ensures var b, ix := t.blocksegs[c].blocks[0], t.blocksegs2idx[c];
      && b < |t.firstblockRange| && t.firstblockRange[b].0 <= ix - 1 <= t.firstblockRange[b].1
      && t.firstblockRange[b].1 + 2 <= |t.blocksegIdxCmf|
      && Codes(FirstBlockTable(t, b), ix - 1 - t.firstblockRange[b].0)
  {
    var b := t.blocksegs[c].blocks[0];
    assert ContourOk(t.blocksegs[c]) && RangeHolds(t, b, t.blocksegs2idx[c]);
    WindowReady(t, b);
  }

  /** Any block with a range at all selects a window inside the contour table. */
  lemma WindowReady(t: PitchTables, b: nat)
    requires TablesOk(t) && b < BLOCKS
    ensures |t.firstblockRange| == BLOCKS && t.firstblockRange[b].1 + 2 <= |t.blocksegIdxCmf|
    ensures t.firstblockRange[b].0 <= t.firstblockRange[b].1 ==> Strict(FirstBlockTable(t, b))
  {
    var lo, hi := t.firstblockRange[b].0, t.firstblockRange[b].1;
    if lo <= hi {
      CdfTables.StrictWindow(t.blocksegIdxCmf, lo, hi + 2 - lo);
    }
  }

  lemma SelectorTables(t: PitchTables)
    requires TablesOk(t)
    ensures t.Shaped() && |t.blocksegIdxCmf| == CONTOURS + 1 && Strict(t.blocksegIdxCmf) && t.blocksegIdxCmf[0] == 0
    ensures |t.blockTransitionCmf| == BLOCKS && forall b :: 0 <= b < BLOCKS ==>
      |t.blockTransitionCmf[b]| == BLOCKS + 1 && Strict(t.blockTransitionCmf[b]) && t.blockTransitionCmf[b][0] == 0
  {
  }

  lemma SymbolOf(cdf: Cdf, k: int)
    requires Codes(cdf, k)
    ensures |cdf| >= 2 && 0 <= k < |cdf| - 1 && 0 <= cdf[k] - cdf[0] && 0 <= cdf[k + 1] - cdf[0]
            && 0 <= cdf[|cdf| - 1] - cdf[0]
    ensures Code(cdf, k) == Sym(cdf[k] - cdf[0], cdf[k + 1] - cdf[0], cdf[|cdf| - 1] - cdf[0])
  {
  }

  method EncodeContour(tab: PitchTables, enc: RangeEncoder, blocksegsIx: nat, prevLagblk: int)
    requires enc.Valid() && TablesOk(tab) && blocksegsIx < CONTOURS && -1 <= prevLagblk < BLOCKS
    modifies enc, enc.buf
    ensures enc.Valid() && enc.raws == old(enc.raws)
    ensures enc.trace == old(enc.trace) + ContourTrace(tab, prevLagblk, blocksegsIx)
    ensures enc.failed == old(enc.failed) && (old(enc.err) != 0 ==> enc.err != 0)
  {
    hide RangeEncoder.Valid, TablesOk, Strict, Code;
    FirstBlockReady(tab, blocksegsIx);
    SelectorTables(tab);
    hide BlockSeg.Shaped;
    ghost var trace := enc.trace;
    var ixJulia := tab.blocksegs2idx[blocksegsIx];
    if prevLagblk < 0 {
      var cmf := tab.blocksegIdxCmf;
      SymbolOf(cmf, ixJulia - 1);
      enc.Encode(cmf[ixJulia - 1], cmf[ixJulia], cmf[|tab.blocksegs|]);
    } else {
      var b0 := tab.blocksegs[blocksegsIx].blocks[0];
      EncodeFirstBlock(tab, enc, ixJulia, b0, prevLagblk);
    }
  }

  /** The first block, then the contour among those that may start there. */
  method EncodeFirstBlock(tab: PitchTables, enc: RangeEncoder, ixJulia: int, b0: nat, prevLagblk: nat)
    requires enc.Valid() && prevLagblk < |tab.blockTransitionCmf| && |tab.blocksegIdxCmf| == CONTOURS + 1
    requires |tab.blockTransitionCmf[prevLagblk]| == BLOCKS + 1 && tab.blockTransitionCmf[prevLagblk][0] == 0
    requires Codes(tab.blockTransitionCmf[prevLagblk], b0)
    requires RangeHolds(tab, b0, ixJulia) && tab.firstblockRange[b0].1 + 2 <= |tab.blocksegIdxCmf|
    requires Codes(FirstBlockTable(tab, b0), ixJulia - 1 - tab.firstblockRange[b0].0)
    modifies enc, enc.buf
    ensures enc.Valid() && enc.raws == old(enc.raws)
    ensures enc.trace == old(enc.trace) + [Code(tab.blockTransitionCmf[prevLagblk], b0),
                                           Code(FirstBlockTable(tab, b0), ixJulia - 1 - tab.firstblockRange[b0].0)]
    ensures enc.failed == old(enc.failed) && (old(enc.err) != 0 ==> enc.err != 0)
  {
    hide RangeEncoder.Valid, Strict, Code;
    ghost var trace := enc.trace;
    var cmf := tab.blockTransitionCmf[prevLagblk];
    SymbolOf(cmf, b0);
    enc.Encode(cmf[b0], cmf[b0 + 1], cmf[BLOCKS]);
    var startIx: int := tab.firstblockRange[b0].0;
    var cmfLen := tab.firstblockRange[b0].1 - startIx + 1;
    var cmf2 := tab.blocksegIdxCmf[startIx..];
    var lo := ixJulia - startIx - 1;
    var hi := ixJulia - startIx;
    var w := FirstBlockTable(tab, b0);
    assert w == cmf2[..cmfLen + 1];
    SymbolOf(w, lo);
    enc.Encode(cmf2[lo] - cmf2[0], cmf2[hi] - cmf2[0], cmf2[cmfLen] - cmf2[0]);
    assert trace + [Code(cmf, b0)] + [Code(w, lo)] == trace + [Code(cmf, b0), Code(w, lo)];
  }

  /** Reads a first block, then a contour number; a block with an empty range is a malformed interval. */
  method DecodeFirstBlock(dec: RangeDecoder, mem: SmplMem, lagCdf: uint32, deltaCdf: uint32, prevLag: nat,
                          ghost t: PitchTables, ghost b: int, ghost sym: int, ghost rest: seq<Sym>)
    returns (lag: int)
    requires dec.Valid() && TablesOk(t) && mem == Layout(t) && prevLag < BLOCKS
    requires lagCdf == LAG_CDF && deltaCdf == DELTA_CDF
    modifies dec
    ensures dec.Valid() && dec.Err == old(dec.Err) && -1 <= lag < CONTOURS
    ensures 0 <= b < BLOCKS && prevLag < |t.blockTransitionCmf| && Codes(t.blockTransitionCmf[prevLag], b)
            && |t.firstblockRange| == BLOCKS && t.firstblockRange[b].0 <= t.firstblockRange[b].1
            && t.firstblockRange[b].1 + 2 <= |t.blocksegIdxCmf| && Codes(FirstBlockTable(t, b), sym)
            && old(dec.todo) == [Code(t.blockTransitionCmf[prevLag], b)]
              + ([Code(FirstBlockTable(t, b), sym)] + rest) ==>
              lag == t.firstblockRange[b].0 + sym && dec.todo == rest
  {
    hide RangeDecoder.Valid, TablesOk, Layout, SmplMem.CDFAt, SmplMem.U32, SmplMem.U8, Code, Strict;
    SelectorTables(t);
    TransitionReads(t, prevLag);
    ghost var tail := rest;
    if 0 <= b < BLOCKS {
      WindowReady(t, b);
      if t.firstblockRange[b].0 <= t.firstblockRange[b].1 && Codes(FirstBlockTable(t, b), sym) {
        tail := [Code(FirstBlockTable(t, b), sym)] + rest;
      }
    }
    var di := Take(dec, mem.CDFAt(Addr(deltaCdf + prevLag * 20), 10), b, tail);
    BoundReads(t, di);
    WindowReady(t, di);
    var lo: int := mem.U8(Addr(BOUNDS + di * 2));
    var hi: int := mem.U8(Addr(BOUNDS + di * 2 + 1));
    var rN := (hi - lo) + 2;
    if rN < 2 {
      return -1;
    }
    LagReads(t, lo, rN);
    var k := Take(dec, mem.CDFAt(Addr(lagCdf + lo * 2), rN), sym, rest);
    lag := k + lo;
  }

  method DecodeContour(dec: RangeDecoder, mem: SmplMem, prevLag: int, ghost t: PitchTables,
                       ghost sent: int, ghost rest: seq<Sym>)
    returns (lag: int)
    requires dec.Valid() && TablesOk(t) && mem == Layout(t) && -1 <= prevLag < BLOCKS
    modifies dec
    ensures dec.Valid() && dec.Err == old(dec.Err) && -1 <= lag < CONTOURS
    ensures 0 <= sent < CONTOURS && old(dec.todo) == ContourTrace(t, prevLag, sent) + rest ==>
              lag == t.blocksegs2idx[sent] - 1 && dec.todo == rest
  {
    hide RangeDecoder.Valid, TablesOk, Layout, SmplMem.CDFAt, SmplMem.U32, Code, Strict;
    SelectorTables(t);
    HeaderReads(t);
    ghost var kept := 0 <= sent < CONTOURS && dec.todo == ContourTrace(t, prevLag, sent) + rest;
    ghost var b, sym := 0, 0;
    if kept {
      FirstBlockReady(t, sent);
      b := t.blocksegs[sent].blocks[0];
      sym := t.blocksegs2idx[sent] - 1 - t.firstblockRange[b].0;
    }
    hide BlockSeg.Shaped;
    var numContours := mem.I32(PCFG + 22240);
    var lagCdf := mem.U32(PCFG + 22248);
    var deltaCdf := mem.U32(PCFG + 22268);
    if prevLag < 0 {
      LagReads(t, 0, CONTOURS + 1);
      assert t.blocksegIdxCmf[0..CONTOURS + 1] == t.blocksegIdxCmf;
      var cnt := numContours + 1;
      if cnt < 0 {
        cnt := 0;
      }
      lag := Take(dec, mem.CDFAt(lagCdf, cnt), if kept then t.blocksegs2idx[sent] - 1 else 0, rest);
    } else {
      assert kept ==>
               dec.todo == [Code(t.blockTransitionCmf[prevLag], b)] + ([Code(FirstBlockTable(t, b), sym)] + rest);
      lag := DecodeFirstBlock(dec, mem, lagCdf, deltaCdf, prevLag, t, b, sym, rest);
    }
  }

  /** The first contour with the given number. */
  method SearchContour(mem: SmplMem, contourMap: uint32, target: int, ghost t: PitchTables) returns (contour: int)
    requires t.Shaped() && mem == Layout(t) && contourMap == CONTOUR_MAP
    ensures -1 <= contour < CONTOURS
    ensures contour >= 0 ==> t.blocksegs2idx[contour] == target
    ensures forall i :: 0 <= i < CONTOURS && (contour < 0 || i < contour) ==> t.blocksegs2idx[i] != target
  {
    hide Layout, SmplMem.U8;
    contour := -1;
    for i := 0 to CONTOURS
      invariant contour == -1 && forall j :: 0 <= j < i ==> t.blocksegs2idx[j] != target
    {
      ContourReads(t, i);
      if mem.U8(Addr(contourMap + i)) == target {
        return i;
      }
    }
  }

  /** Contour numbers are distinct, so the search inverts the encoder's lookup. */
  lemma ContourFound(t: PitchTables, c: int, contour: int)
    requires TablesOk(t) && 0 <= c < CONTOURS && -1 <= contour < CONTOURS
    requires contour >= 0 ==> t.blocksegs2idx[contour] == t.blocksegs2idx[c]
    requires forall i :: 0 <= i < CONTOURS && (contour < 0 || i < contour) ==> t.blocksegs2idx[i] != t.blocksegs2idx[c]
    ensures contour == c
  {
    var number := t.blocksegs2idx[c];
    assert contour < 0 || t.blocksegs2idx[contour] == number;
  }

  // ---- Lags ----

  /** A lag is sent in full unless the contour starts within reach of the previous block. */
  predicate ReadFine(prevBlk: int, blk: int) {
    !(prevBlk >= 0 && -1 <= blk - prevBlk < 3)
  }

  /** The 64 symbols that reach block blk from lag prev. */
  function DeltaTable(t: PitchTables, mode: nat, d: int): (w: Cdf)
    requires mode < |t.deltaLagCmfs| && |t.deltaLagCmfs[mode]| == DELTA_STEPS && -127 <= d <= 128
    ensures |w| == BLOCK + 1
  {
    t.deltaLagCmfs[mode][d + 127..d + 192]
  }

  lemma DeltaReady(t: PitchTables, mode: nat, d: int)
    requires TablesOk(t) && mode < MODES && -127 <= d <= 128
    ensures mode < |t.deltaLagCmfs| && |t.deltaLagCmfs[mode]| == DELTA_STEPS && Strict(DeltaTable(t, mode, d))
  {
    CdfTables.StrictWindow(t.deltaLagCmfs[mode], d + 127, 65);
  }

  /** Both ends of the row are reached, and nothing beyond them. */
  lemma DeltaRange(lag: int, blk: int, next: int)
    requires InBlock(lag, blk) && -1 <= next - blk <= 2
    ensures -127 <= BLOCK * next - lag <= 128
    ensures lag == BLOCK * blk + 63 && next == blk - 1 ==> BLOCK * next - lag == -127
    ensures lag == BLOCK * blk && next == blk + 2 ==> BLOCK * next - lag == 128
  {
  }

  /** Lag of run k. */
  ghost function RunLag(bs: BlockSeg, lags: seq<int>, k: nat): int
    requires bs.Shaped() && k < |bs.blocks| && Start(bs.seglens, k) < |lags|
  {
    lags[Start(bs.seglens, k)]
  }

  ghost predicate Reaches(bs: BlockSeg, prev: int, k: nat) {
    k < |bs.blocks| ==> -127 <= BLOCK * bs.blocks[k] - prev <= 128
  }

  ghost function RunTrace(t: PitchTables, bs: BlockSeg, mode: nat, lags: seq<int>, prev: int, k: nat): seq<Sym>
    requires TablesOk(t) && ContourOk(bs) && mode < MODES && LagsFit(bs, lags)
    requires k <= |bs.blocks| && Reaches(bs, prev, k)
    decreases |bs.blocks| - k
  {
    if k == |bs.blocks| then []
    else
      RunFacts(bs, lags, k);
      DeltaReady(t, mode, BLOCK * bs.blocks[k] - prev);
      [Code(DeltaTable(t, mode, BLOCK * bs.blocks[k] - prev), RunLag(bs, lags, k) - BLOCK * bs.blocks[k])]
      + RunTrace(t, bs, mode, lags, RunLag(bs, lags, k), k + 1)
  }

  lemma {:induction false} StartFits(seglens: seq<nat>, j: nat, k: nat)
    requires j <= k <= |seglens|
    ensures Start(seglens, j) <= Start(seglens, k)
  {
    if j < k {
      StartFits(seglens, j, k - 1);
    }
  }

  /** Run k lies in its block, in the frame, and within reach of the next. */
  lemma RunFacts(bs: BlockSeg, lags: seq<int>, k: nat)
    requires ContourOk(bs) && LagsFit(bs, lags) && k < |bs.blocks|
    ensures Start(bs.seglens, k) < Start(bs.seglens, k + 1) <= SUBFRAMES
    ensures InBlock(RunLag(bs, lags, k), bs.blocks[k]) && Reaches(bs, RunLag(bs, lags, k), k + 1)
    ensures forall i :: Start(bs.seglens, k) <= i < Start(bs.seglens, k + 1) ==> lags[i] == RunLag(bs, lags, k)
  {
    assert RunFits(bs, lags, k);
    StartFits(bs.seglens, k + 1, |bs.blocks|);
    if k + 1 < |bs.blocks| {
      DeltaRange(RunLag(bs, lags, k), bs.blocks[k], bs.blocks[k + 1]);
    }
  }

  lemma RunNext(t: PitchTables, bs: BlockSeg, mode: nat, lags: seq<int>, prev: int, k: nat, rest: seq<Sym>)
    requires TablesOk(t) && ContourOk(bs) && mode < MODES && LagsFit(bs, lags)
    requires k < |bs.blocks| && Reaches(bs, prev, k)
    ensures Start(bs.seglens, k) < Start(bs.seglens, k + 1) <= SUBFRAMES
    ensures Reaches(bs, RunLag(bs, lags, k), k + 1)
    ensures -127 <= BLOCK * bs.blocks[k] - prev <= 128
    ensures mode < |t.deltaLagCmfs| && |t.deltaLagCmfs[mode]| == DELTA_STEPS
    ensures Codes(DeltaTable(t, mode, BLOCK * bs.blocks[k] - prev), RunLag(bs, lags, k) - BLOCK * bs.blocks[k])
    ensures RunTrace(t, bs, mode, lags, prev, k) + rest
         == [Code(DeltaTable(t, mode, BLOCK * bs.blocks[k] - prev), RunLag(bs, lags, k) - BLOCK * bs.blocks[k])]
            + (RunTrace(t, bs, mode, lags, RunLag(bs, lags, k), k + 1) + rest)
  {
    RunFacts(bs, lags, k);
    DeltaReady(t, mode, BLOCK * bs.blocks[k] - prev);
  }

  /** The full first lag where one is due, then one symbol per remaining run. */
  ghost function LagPart(t: PitchTables, bs: BlockSeg, prevBlk: int, prevLag: int, mode: nat, lags: seq<int>): seq<Sym>
    requires TablesOk(t) && ContourOk(bs) && mode < MODES && LagsFit(bs, lags) && LagPredOk(prevBlk, prevLag)
  {
    RunFacts(bs, lags, 0);
    if ReadFine(prevBlk, bs.blocks[0]) then [FineSym(bs, lags)] + RunTrace(t, bs, mode, lags, lags[0], 1)
    else RunTrace(t, bs, mode, lags, prevLag, 0)
  }

  ghost function FineSym(bs: BlockSeg, lags: seq<int>): Sym
    requires bs.Shaped() && lags != [] && InBlock(lags[0], bs.blocks[0])
  {
    Sym(lags[0] - BLOCK * bs.blocks[0], lags[0] - BLOCK * bs.blocks[0] + 1, BLOCK)
  }

  predicate LagPredOk(prevBlk: int, prevLag: int) {
    -1 <= prevBlk < BLOCKS && (prevBlk >= 0 ==> InBlock(prevLag, prevBlk))
  }

  ghost function LagTrace(t: PitchTables, prevBlk: int, prevLag: int, c: int, mode: nat, lags: seq<int>): seq<Sym>
    requires TablesOk(t) && mode < MODES && 0 <= c < CONTOURS && LagsFit(t.blocksegs[c], lags)
    requires LagPredOk(prevBlk, prevLag)
  {
    assert ContourOk(t.blocksegs[c]);
    ContourTrace(t, prevBlk, c) + LagPart(t, t.blocksegs[c], prevBlk, prevLag, mode, lags)
  }

  /** One run: its lag relative to its block, in the window that starts where the block does. */
  method EncodeRun(tab: PitchTables, enc: RangeEncoder, mode: nat, deltaRangeStart: int, ix: int)
    requires enc.Valid() && mode < |tab.deltaLagCmfs| && |tab.deltaLagCmfs[mode]| == DELTA_STEPS
    requires -127 <= deltaRangeStart <= 128 && Codes(DeltaTable(tab, mode, deltaRangeStart), ix)
    modifies enc, enc.buf
    ensures enc.Valid() && enc.raws == old(enc.raws)
    ensures enc.trace == old(enc.trace) + [Code(DeltaTable(tab, mode, deltaRangeStart), ix)]
    ensures enc.failed == old(enc.failed) && (old(enc.err) != 0 ==> enc.err != 0)
  {
    hide RangeEncoder.Valid, Strict, Code;
    var deltaLagCmf := tab.deltaLagCmfs[mode];
    var cmfBase := deltaRangeStart + 2 * BLOCK - 1;
    var w := DeltaTable(tab, mode, deltaRangeStart);
    SymbolOf(w, ix);
    assert w[0] == deltaLagCmf[cmfBase] && w[ix] == deltaLagCmf[cmfBase + ix];
    assert w[ix + 1] == deltaLagCmf[cmfBase + ix + 1] && w[BLOCK] == deltaLagCmf[cmfBase + BLOCK];
    var p0 := deltaLagCmf[cmfBase];
    enc.Encode(deltaLagCmf[cmfBase + ix] - p0, deltaLagCmf[cmfBase + ix + 1] - p0, deltaLagCmf[cmfBase + BLOCK] - p0);
  }

  method EncodeRuns(tab: PitchTables, enc: RangeEncoder, bs: BlockSeg, laginds: seq<int>,
                    startSeg: nat, startIx: nat, startBlk: int, startIdx: int, mode: nat)
    requires enc.Valid() && TablesOk(tab) && ContourOk(bs) && LagsFit(bs, laginds) && mode < MODES
    requires startSeg <= |bs.blocks| && Reaches(bs, startIdx, startSeg) && startIx == Start(bs.seglens, startSeg)
    modifies enc, enc.buf
    ensures enc.Valid() && enc.raws == old(enc.raws)
    ensures enc.trace == old(enc.trace) + RunTrace(tab, bs, mode, laginds, startIdx, startSeg)
    ensures enc.failed == old(enc.failed) && (old(enc.err) != 0 ==> enc.err != 0)
  {
    hide RangeEncoder.Valid, TablesOk, ContourOk, LagsFitUpto, Code, Codes, Start, RunTrace, DeltaTable, Reaches;
    ghost var all := enc.trace + RunTrace(tab, bs, mode, laginds, startIdx, startSeg);
    var prevLagblk, prevLagidx, lagindsIx := startBlk, startIdx, startIx;
    for k := startSeg to |bs.blocks|
      invariant enc.Valid() && enc.raws == old(enc.raws)
      invariant lagindsIx == Start(bs.seglens, k) && Reaches(bs, prevLagidx, k)
      invariant enc.trace + RunTrace(tab, bs, mode, laginds, prevLagidx, k) == all
      invariant enc.failed == old(enc.failed) && (old(enc.err) != 0 ==> enc.err != 0)
    {
      RunNext(tab, bs, mode, laginds, prevLagidx, k, []);
      StartNext(bs.seglens, k);
      var blk := bs.blocks[k];
      var idx := laginds[lagindsIx];
      lagindsIx := lagindsIx + bs.seglens[k];
      var deltaBlk := blk - prevLagblk;
      var deltaIdx := idx - prevLagidx;
      var prevLagidxMod := prevLagidx - prevLagblk * BLOCK;
      var deltaRangeStart := -prevLagidxMod + deltaBlk * BLOCK;
      ghost var trace, s := enc.trace, [Code(DeltaTable(tab, mode, deltaRangeStart), deltaIdx - deltaRangeStart)];
      ghost var tail := RunTrace(tab, bs, mode, laginds, idx, k + 1);
      EncodeRun(tab, enc, mode, deltaRangeStart, deltaIdx - deltaRangeStart);
      assert tail + [] == tail;
      assert all == trace + (RunTrace(tab, bs, mode, laginds, prevLagidx, k) + []);
      assert trace + (s + tail) == trace + s + tail;
      prevLagblk := blk;
      prevLagidx := idx;
    }
    RunEnd(tab, bs, mode, laginds, prevLagidx, []);
  }

  lemma StartNext(seglens: seq<nat>, k: nat)
    requires k < |seglens|
    ensures Start(seglens, k + 1) == Start(seglens, k) + seglens[k]
  {
  }

  lemma RunEnd(t: PitchTables, bs: BlockSeg, mode: nat, lags: seq<int>, prev: int, rest: seq<Sym>)
    requires TablesOk(t) && ContourOk(bs) && mode < MODES && LagsFit(bs, lags)
    ensures Reaches(bs, prev, |bs.blocks|) && RunTrace(t, bs, mode, lags, prev, |bs.blocks|) + rest == rest
  {
  }

  /** The contour and lags of a voiced frame, predicted from the last block and lag sent. */
  method EncodeLagsWire(tab: PitchTables, enc: RangeEncoder, blocksegsIx: nat, laginds: seq<int>,
                        prevLagblk: int, prevLagidx: int, mode: nat)
    requires enc.Valid() && TablesOk(tab) && blocksegsIx < CONTOURS && LagsFit(tab.blocksegs[blocksegsIx], laginds)
    requires LagPredOk(prevLagblk, prevLagidx) && mode < MODES
    modifies enc, enc.buf
    ensures enc.Valid() && enc.raws == old(enc.raws)
    ensures enc.trace == old(enc.trace) + LagTrace(tab, prevLagblk, prevLagidx, blocksegsIx, mode, laginds)
    ensures enc.failed == old(enc.failed) && (old(enc.err) != 0 ==> enc.err != 0)
  {
    hide RangeEncoder.Valid, ContourOk, RunTrace, ContourTrace;
    ghost var trace := enc.trace;
    EncodeContour(tab, enc, blocksegsIx, prevLagblk);
    var bs := tab.blocksegs[blocksegsIx];
    assert ContourOk(bs);
    RunFacts(bs, laginds, 0);
    hide TablesOk, LagsFit;
    ContourShape(bs);
    ghost var contour := ContourTrace(tab, prevLagblk, blocksegsIx);
    var blk := bs.blocks[0];
    var deltaBlk := blk - prevLagblk;
    if !(prevLagblk > -1 && deltaBlk >= -1 && deltaBlk <= 2) {
      var idxMod := laginds[0] - blk * BLOCK;
      enc.Encode(idxMod, idxMod + 1, BLOCK);
      EncodeRuns(tab, enc, bs, laginds, 1, bs.seglens[0], blk, laginds[0], mode);
      ghost var fine, runs := [FineSym(bs, laginds)], RunTrace(tab, bs, mode, laginds, laginds[0], 1);
      assert trace + contour + fine + runs == trace + (contour + (fine + runs));
    } else {
      EncodeRuns(tab, enc, bs, laginds, 0, 0, prevLagblk, prevLagidx, mode);
      ghost var runs := RunTrace(tab, bs, mode, laginds, prevLagidx, 0);
      assert trace + contour + runs == trace + (contour + runs);
    }
  }

  lemma ContourShape(bs: BlockSeg)
    requires ContourOk(bs)
    ensures bs.Shaped() && Start(bs.seglens, 0) == 0 && Start(bs.seglens, 1) == bs.seglens[0]
  {
  }

  method FillLags(blockLags: seq<int>, subfrW: nat, n: nat, lag: int) returns (lags: seq<int>, w: nat)
    requires |blockLags| == SUBFRAMES
    ensures |lags| == SUBFRAMES && w == subfrW + n
    ensures forall i :: 0 <= i < SUBFRAMES ==> lags[i] == if subfrW <= i < subfrW + n then lag else blockLags[i]
  {
    lags, w := blockLags, subfrW;
    for i := 0 to n
      invariant |lags| == SUBFRAMES && w == subfrW + i
      invariant forall j :: 0 <= j < SUBFRAMES ==> lags[j] == if subfrW <= j < w then lag else blockLags[j]
    {
      if w < SUBFRAMES {
        lags := lags[w := lag];
      }
      w := w + 1;
    }
  }

  /** Filling run k with a lag of its block keeps the earlier runs and adds this one. */
  lemma FillFits(bs: BlockSeg, before: seq<int>, after: seq<int>, k: nat, lag: int)
    requires ContourOk(bs) && k < |bs.blocks| && |before| == |after| == SUBFRAMES
    requires LagsFitUpto(bs, before, k) && InBlock(lag, bs.blocks[k])
    requires forall i :: 0 <= i < Start(bs.seglens, k) ==> after[i] == before[i]
    requires forall i :: Start(bs.seglens, k) <= i < Start(bs.seglens, k) + bs.seglens[k] && i < SUBFRAMES ==>
             after[i] == lag
    ensures Start(bs.seglens, k + 1) <= SUBFRAMES && LagsFitUpto(bs, after, k + 1)
    ensures after[Start(bs.seglens, k + 1) - 1] == lag
  {
    StartFits(bs.seglens, k + 1, |bs.blocks|);
    StartNext(bs.seglens, k);
    forall j | 0 <= j < k + 1
      ensures RunFits(bs, after, j)
    {
      StartNext(bs.seglens, j);
      if j < k {
        assert RunFits(bs, before, j);
        StartFits(bs.seglens, j + 1, k);
      }
    }
  }

  /** The window of one run, by the decoder's pointer arithmetic. */
  method DecodeRun(dec: RangeDecoder, mem: SmplMem, fracBase: uint32, mode: nat, nl2: int, ghost t: PitchTables,
                   ghost sent: int, ghost rest: seq<Sym>)
    returns (sym: int)
    requires dec.Valid() && TablesOk(t) && mem == Layout(t) && fracBase == FRAC_BASE
    requires mode < MODES && -127 <= nl2 <= 128
    modifies dec
    ensures dec.Valid() && dec.Err == old(dec.Err) && 0 <= sym < BLOCK
    ensures mode < |t.deltaLagCmfs| && |t.deltaLagCmfs[mode]| == DELTA_STEPS
            && Codes(DeltaTable(t, mode, nl2), sent)
            && old(dec.todo) == [Code(DeltaTable(t, mode, nl2), sent)] + rest ==>
              sym == sent && dec.todo == rest
  {
    hide RangeDecoder.Valid, Layout, SmplMem.CDFAt, Code, Strict;
    DeltaReady(t, mode, nl2);
    DeltaReads(t, mode, nl2 + 127, 65);
    var fracSegBase := Addr(fracBase + mode * 0x280);
    var off := Addr(fracSegBase + Addr(nl2 * 2) + 0xfe);
    sym := Take(dec, mem.CDFAt(off, 65), sent, rest);
  }

  lemma LagsPrefix(bs: BlockSeg, sent: seq<int>, lags: seq<int>, before: seq<int>, k: nat)
    requires ContourOk(bs) && LagsFit(bs, sent) && k < |bs.blocks| && |lags| == |before| == SUBFRAMES
    requires Start(bs.seglens, k) <= SUBFRAMES && before[..Start(bs.seglens, k)] == sent[..Start(bs.seglens, k)]
    requires forall i :: 0 <= i < SUBFRAMES ==>
      lags[i] == if Start(bs.seglens, k) <= i < Start(bs.seglens, k) + bs.seglens[k] then RunLag(bs, sent, k)
        else before[i]
    ensures Start(bs.seglens, k + 1) <= SUBFRAMES
    ensures lags[..Start(bs.seglens, k + 1)] == sent[..Start(bs.seglens, k + 1)]
  {
    RunFacts(bs, sent, k);
    StartNext(bs.seglens, k);
    var s := Start(bs.seglens, k);
    forall i | 0 <= i < Start(bs.seglens, k + 1)
      ensures lags[i] == sent[i]
    {
      if i < s {
        assert before[..s][i] == sent[..s][i];
      }
    }
  }

  /** One run of the contour: whatever the bits, it gets a lag of its own block. */
  method DecodeRunLags(dec: RangeDecoder, mem: SmplMem, st: LsfState, ctrBase: int, fracBase: uint32, mode: nat,
                       seg: nat, l2: int, subfrW: nat, blockLags: seq<int>,
                       ghost t: PitchTables, ghost c: nat, ghost sent: seq<int>, ghost rest: seq<Sym>)
    returns (lags: seq<int>, w: nat, segLag: int)
    requires dec.Valid() && TablesOk(t) && mem == Layout(t) && c < |t.blocksegs| && ctrBase == PCFG + 0x44 * c
    requires fracBase == FRAC_BASE && mode < MODES && |blockLags| == SUBFRAMES
    requires ContourOk(t.blocksegs[c]) && seg < |t.blocksegs[c].blocks| && Reaches(t.blocksegs[c], st.PrevFracLag, seg)
    requires subfrW == Start(t.blocksegs[c].seglens, seg) <= SUBFRAMES && LagsFitUpto(t.blocksegs[c], blockLags, seg)
    modifies dec, st`PrevLag, st`PrevFracLag
    ensures dec.Valid() && dec.Err == old(dec.Err) && |lags| == SUBFRAMES
    ensures segLag == st.PrevLag == t.blocksegs[c].blocks[seg] && Reaches(t.blocksegs[c], st.PrevFracLag, seg + 1)
    ensures 0 < w == Start(t.blocksegs[c].seglens, seg + 1) <= SUBFRAMES && LagsFitUpto(t.blocksegs[c], lags, seg + 1)
    ensures st.PrevFracLag == lags[w - 1]
    ensures LagsFit(t.blocksegs[c], sent) && blockLags[..subfrW] == sent[..subfrW]
            && old(dec.todo) == RunTrace(t, t.blocksegs[c], mode, sent, old(st.PrevFracLag), seg) + rest ==>
              lags[..w] == sent[..w]
              && dec.todo == RunTrace(t, t.blocksegs[c], mode, sent, st.PrevFracLag, seg + 1) + rest
  {
    hide RangeDecoder.Valid, TablesOk, Layout, SmplMem.I32, Code, Codes, Start, RunTrace, DeltaTable, LagsFitUpto,
         ContourOk;
    ghost var bs := t.blocksegs[c];
    ContourShape(bs);
    SelectorTables(t);
    RecordReads(t, c, seg);
    hide PitchTables.Shaped;
    ghost var kept, next, tail := false, 0, [];
    if LagsFit(bs, sent) && dec.todo == RunTrace(t, bs, mode, sent, st.PrevFracLag, seg) + rest {
      RunNext(t, bs, mode, sent, st.PrevFracLag, seg, rest);
      kept := blockLags[..subfrW] == sent[..subfrW];
      next := RunLag(bs, sent, seg) - BLOCK * bs.blocks[seg];
      tail := RunTrace(t, bs, mode, sent, RunLag(bs, sent, seg), seg + 1) + rest;
    }
    segLag := mem.I32(Addr(ctrBase + 0x1d38 + seg * 4));
    var nl2 := (l2 * 64 - st.PrevFracLag) + (segLag - l2) * 64;
    var sym := DecodeRun(dec, mem, fracBase, mode, nl2, t, next, tail);
    var l3 := sym + st.PrevFracLag + nl2;
    var segLen := mem.I32(Addr(ctrBase + 0x1d58 + seg * 4));
    lags, w := FillLags(blockLags, subfrW, segLen, l3);
    FillFits(bs, blockLags, lags, seg, l3);
    StartNext(bs.seglens, seg);
    ReachesNext(bs, seg, l3);
    if kept {
      LagsPrefix(bs, sent, lags, blockLags, seg);
    }
    st.PrevFracLag := l3;
    st.PrevLag := segLag;
  }

  method DecodeRuns(dec: RangeDecoder, mem: SmplMem, st: LsfState, ctrBase: int, fracBase: uint32, mode: nat,
                    startSeg: nat, curLag2: int, subfrW0: nat, lags0: seq<int>,
                    ghost t: PitchTables, ghost c: nat, ghost sent: seq<int>, ghost rest: seq<Sym>)
    returns (blockLags: seq<int>)
    requires dec.Valid() && TablesOk(t) && mem == Layout(t) && c < |t.blocksegs| && ctrBase == PCFG + 0x44 * c
    requires fracBase == FRAC_BASE && mode < MODES && startSeg <= 1 && |lags0| == SUBFRAMES
    requires ContourOk(t.blocksegs[c]) && Reaches(t.blocksegs[c], st.PrevFracLag, startSeg)
    requires LagsFitUpto(t.blocksegs[c], lags0, startSeg) && subfrW0 == Start(t.blocksegs[c].seglens, startSeg)
    requires startSeg == 1 ==> st.PrevLag == t.blocksegs[c].blocks[0] && st.PrevFracLag == lags0[subfrW0 - 1]
    modifies dec, st`PrevLag, st`PrevFracLag
    ensures dec.Valid() && dec.Err == old(dec.Err) && LagsFit(t.blocksegs[c], blockLags)
    ensures st.PrevLag == t.blocksegs[c].blocks[|t.blocksegs[c].blocks| - 1]
            && st.PrevFracLag == blockLags[SUBFRAMES - 1]
    ensures LagsFit(t.blocksegs[c], sent) && lags0[..subfrW0] == sent[..subfrW0]
            && old(dec.todo) == RunTrace(t, t.blocksegs[c], mode, sent, old(st.PrevFracLag), startSeg) + rest ==>
              blockLags == sent && dec.todo == rest
  {
    hide RangeDecoder.Valid, TablesOk, Layout, SmplMem.I32, Start, RunTrace, LagsFitUpto, ContourOk;
    ghost var bs := t.blocksegs[c];
    ContourShape(bs);
    StartFits(bs.seglens, startSeg, |bs.blocks|);
    ContourEnd(bs);
    SelectorTables(t);
    RecordReads(t, c, 0);
    hide PitchTables.Shaped;
    ghost var kept := LagsFit(bs, sent) && lags0[..subfrW0] == sent[..subfrW0]
                      && dec.todo == RunTrace(t, bs, mode, sent, st.PrevFracLag, startSeg) + rest;
    blockLags := lags0;
    var cnt2 := mem.I32(ctrBase + 0x1d78);
    var l2, subfrW := curLag2, subfrW0;
    for seg := startSeg to cnt2
      invariant dec.Valid() && dec.Err == old(dec.Err) && |blockLags| == SUBFRAMES
      invariant subfrW == Start(bs.seglens, seg) <= SUBFRAMES && LagsFitUpto(bs, blockLags, seg)
      invariant Reaches(bs, st.PrevFracLag, seg)
      invariant seg > 0 ==> subfrW > 0 && st.PrevLag == bs.blocks[seg - 1] && st.PrevFracLag == blockLags[subfrW - 1]
      invariant kept ==> blockLags[..subfrW] == sent[..subfrW]
                         && dec.todo == RunTrace(t, bs, mode, sent, st.PrevFracLag, seg) + rest
    {
      blockLags, subfrW, l2 := DecodeRunLags(dec, mem, st, ctrBase, fracBase, mode, seg, l2, subfrW, blockLags,
                                                   t, c, sent, rest);
    }
    if kept {
      RunEnd(t, bs, mode, sent, st.PrevFracLag, rest);
      assert blockLags[..SUBFRAMES] == blockLags && sent[..SUBFRAMES] == sent;
    }
  }

  lemma ReachesNext(bs: BlockSeg, k: nat, lag: int)
    requires ContourOk(bs) && k < |bs.blocks| && InBlock(lag, bs.blocks[k])
    ensures Reaches(bs, lag, k + 1)
  {
  }

  lemma ContourEnd(bs: BlockSeg)
    requires ContourOk(bs)
    ensures Start(bs.seglens, |bs.blocks|) == SUBFRAMES
  {
  }

  lemma NoneFit(bs: BlockSeg, lags: seq<int>)
    requires bs.Shaped()
    ensures LagsFitUpto(bs, lags, 0)
  {
  }

  lemma FitsInside(bs: BlockSeg, lags: seq<int>)
    requires ContourOk(bs) && LagsFit(bs, lags)
    ensures |lags| == SUBFRAMES && 1 <= |bs.blocks|
    ensures InBlock(lags[SUBFRAMES - 1], bs.blocks[|bs.blocks| - 1]) && InBlock(lags[0], bs.blocks[0])
    ensures lags[..0] == [] && bs.blocks[|bs.blocks| - 1] < BLOCKS
  {
    RunFacts(bs, lags, 0);
    RunFacts(bs, lags, |bs.blocks| - 1);
  }

  /** The full first lag: the first run's lag in steps of one within its block. */
  method DecodeFine(dec: RangeDecoder, mem: SmplMem, st: LsfState, ctrBase: int, baseLag: int,
                    ghost t: PitchTables, ghost c: nat, ghost sent: seq<int>, ghost rest: seq<Sym>)
    returns (blockLags: seq<int>, subfrW: nat, curLag2: int)
    requires dec.Valid() && TablesOk(t) && mem == Layout(t) && c < |t.blocksegs| && ctrBase == PCFG + 0x44 * c
    requires ContourOk(t.blocksegs[c]) && baseLag == t.blocksegs[c].blocks[0]
    modifies dec, st`PrevLag, st`PrevFracLag
    ensures dec.Valid() && dec.Err == old(dec.Err) && |blockLags| == SUBFRAMES
    ensures LagsFitUpto(t.blocksegs[c], blockLags, 1) && Reaches(t.blocksegs[c], st.PrevFracLag, 1)
    ensures 0 < subfrW == Start(t.blocksegs[c].seglens, 1) <= SUBFRAMES
    ensures st.PrevLag == baseLag && st.PrevFracLag == blockLags[subfrW - 1]
    ensures LagsFit(t.blocksegs[c], sent) && InBlock(sent[0], baseLag)
            && old(dec.todo) == [FineSym(t.blocksegs[c], sent)] + rest ==>
              blockLags[..subfrW] == sent[..subfrW] && st.PrevFracLag == sent[0] && dec.todo == rest
  {
    hide RangeDecoder.Valid, TablesOk, Layout, SmplMem.I32, RunTrace, LagsFitUpto, ContourOk, LagsFit;
    ghost var bs := t.blocksegs[c];
    ContourShape(bs);
    SelectorTables(t);
    RecordReads(t, c, 0);
    hide PitchTables.Shaped;
    ghost var kept := false;
    if LagsFit(bs, sent) {
      FitsInside(bs, sent);
      kept := dec.todo == [FineSym(bs, sent)] + rest;
    }
    var sym := dec.Decode64FineSym(if kept then sent[0] - BLOCK * baseLag else 0, rest);
    curLag2 := baseLag * 64 + sym;
    st.PrevFracLag := curLag2;
    st.PrevLag := baseLag;
    var segLen0 := mem.I32(ctrBase + 0x1d58);
    var zeros := seq(SUBFRAMES, _ => 0);
    NoneFit(bs, zeros);
    blockLags, subfrW := FillLags(zeros, 0, segLen0, curLag2);
    if subfrW < SUBFRAMES {
      blockLags := blockLags[subfrW := curLag2];
    }
    FillFits(bs, zeros, blockLags, 0, curLag2);
    ReachesNext(bs, 0, curLag2);
    if kept {
      RunFacts(bs, sent, 0);
      assert blockLags[..subfrW] == sent[..subfrW];
    }
  }

  /** The lags of contour c, predicted from the state. */
  method DecodeContourLags(dec: RangeDecoder, mem: SmplMem, st: LsfState, contour: nat, fracBase: uint32, mode: nat,
                           ghost t: PitchTables, ghost sent: seq<int>, ghost rest: seq<Sym>)
    returns (blockLags: seq<int>)
    requires dec.Valid() && TablesOk(t) && mem == Layout(t) && contour < |t.blocksegs| && fracBase == FRAC_BASE
    requires ContourOk(t.blocksegs[contour]) && LagPredOk(st.PrevLag, st.PrevFracLag) && mode < MODES
    modifies dec, st`PrevLag, st`PrevFracLag
    ensures dec.Valid() && dec.Err == old(dec.Err) && LagsFit(t.blocksegs[contour], blockLags)
    ensures st.PrevLag == t.blocksegs[contour].blocks[|t.blocksegs[contour].blocks| - 1]
    ensures st.PrevFracLag == blockLags[SUBFRAMES - 1]
    ensures LagsFit(t.blocksegs[contour], sent)
            && old(dec.todo) == LagPart(t, t.blocksegs[contour], old(st.PrevLag), old(st.PrevFracLag),
                                      mode, sent) + rest ==>
              blockLags == sent && dec.todo == rest
  {
    hide RangeDecoder.Valid, TablesOk, Layout, SmplMem.I32, RunTrace, LagsFitUpto, ContourOk, LagsFit, Start;
    ghost var bs := t.blocksegs[contour];
    ContourShape(bs);
    SelectorTables(t);
    RecordReads(t, contour, 0);
    hide PitchTables.Shaped;
    ghost var kept := LagsFit(bs, sent) && dec.todo == LagPart(t, bs, st.PrevLag, st.PrevFracLag, mode, sent) + rest;
    ghost var runs := [];
    if kept {
      FitsInside(bs, sent);
    }
    var ctrBase := PCFG + contour * 0x44;
    var baseLag := mem.I32(ctrBase + 0x1d38);
    var readFine := true;
    if st.PrevLag >= 0 {
      var delta := baseLag - st.PrevLag;
      if delta >= -1 && delta < 3 {
        readFine := false;
      }
    }
    if readFine {
      if kept {
        RunFacts(bs, sent, 0);
        runs := RunTrace(t, bs, mode, sent, sent[0], 1) + rest;
        assert dec.todo == [FineSym(bs, sent)] + runs;
      }
      var subfrW, curLag2;
      blockLags, subfrW, curLag2 := DecodeFine(dec, mem, st, ctrBase, baseLag, t, contour, sent, runs);
      blockLags := DecodeRuns(dec, mem, st, ctrBase, fracBase, mode, 1, curLag2, subfrW, blockLags, t,
                              contour, sent, rest);
    } else {
      DeltaRange(st.PrevFracLag, st.PrevLag, baseLag);
      blockLags := seq(SUBFRAMES, _ => 0);
      NoneFit(bs, blockLags);
      blockLags := DecodeRuns(dec, mem, st, ctrBase, fracBase, mode, 0, baseLag, 0, blockLags, t, contour, sent, rest);
    }
  }

  datatype PitchResult = PitchResult(gainIdx: seq<int>, filtIdx: seq<int>, lag: int, contour: int,
                                     blockLags: seq<int>) {
    /** The contour and lags were found: nothing was malformed. */
    predicate Found() {
      lag >= 0 && contour >= 0
    }
  }

  method DecodeLags(dec: RangeDecoder, mem: SmplMem, st: LsfState, avgGain: int, ghost t: PitchTables, ghost mode: nat,
                    ghost sentContour: int, ghost sentLags: seq<int>, ghost rest: seq<Sym>)
    returns (lag: int, contour: int, blockLags: seq<int>)
    requires dec.Valid() && TablesOk(t) && mem == Layout(t) && LagPredOk(st.PrevLag, st.PrevFracLag)
    requires mode == if avgGain < 10007 then 0 else if avgGain < 14085 then 1 else 2
    modifies dec, st`PrevLag, st`PrevFracLag
    ensures dec.Valid() && dec.Err == old(dec.Err) && LagPredOk(st.PrevLag, st.PrevFracLag)
    ensures lag >= 0 && contour >= 0 ==>
              contour < |t.blocksegs| && lag == t.blocksegs2idx[contour] - 1 && LagsFit(t.blocksegs[contour], blockLags)
              && st.PrevLag == t.blocksegs[contour].blocks[|t.blocksegs[contour].blocks| - 1]
              && st.PrevFracLag == blockLags[SUBFRAMES - 1]
    ensures 0 <= sentContour < |t.blocksegs| && LagsFit(t.blocksegs[sentContour], sentLags)
            && old(dec.todo) == LagTrace(t, old(st.PrevLag), old(st.PrevFracLag), sentContour,
                                       mode, sentLags) + rest ==>
              lag >= 0 && contour == sentContour && blockLags == sentLags && dec.todo == rest
  {
    hide RangeDecoder.Valid, TablesOk, Layout, SmplMem.U32, RunTrace, LagsFitUpto, ContourOk, LagsFit, Start,
         ContourTrace, LagPart;
    SelectorTables(t);
    HeaderReads(t);
    ghost var kept := 0 <= sentContour < |t.blocksegs| && LagsFit(t.blocksegs[sentContour], sentLags)
      && dec.todo == LagTrace(t, st.PrevLag, st.PrevFracLag, sentContour, mode, sentLags) + rest;
    ghost var lags := [];
    if kept {
      ContourReady(t, sentContour);
      lags := LagPart(t, t.blocksegs[sentContour], st.PrevLag, st.PrevFracLag, mode, sentLags) + rest;
      assert dec.todo == ContourTrace(t, st.PrevLag, sentContour) + lags;
    }
    var numContours := mem.I32(PCFG + 22240);
    var contourMap := mem.U32(PCFG + 22244);
    var fracBase := mem.U32(PCFG + 22252);
    blockLags := seq(SUBFRAMES, _ => 0);
    lag := DecodeContour(dec, mem, st.PrevLag, t, if kept then sentContour else 0 - 1, lags);
    if lag < 0 {
      return -1, 0, blockLags;
    }
    contour := SearchContour(mem, contourMap, lag + 1, t);
    if kept {
      ContourFound(t, sentContour, contour);
    }
    if contour < 0 || contour >= numContours {
      return;
    }
    ContourReady(t, contour);
    var segSel := 0;
    if avgGain >= 10007 {
      segSel := if avgGain < 14085 then 1 else 2;
    }
    blockLags := DecodeContourLags(dec, mem, st, contour, fracBase, segSel, t, sentLags, rest);
    FitsInside(t.blocksegs[contour], blockLags);
  }

  lemma ContourReady(t: PitchTables, c: int)
    requires TablesOk(t) && 0 <= c < |t.blocksegs|
    ensures c < CONTOURS && ContourOk(t.blocksegs[c]) && |t.blocksegs2idx| == CONTOURS && 1 <= t.blocksegs2idx[c]
  {
  }

  // ---- The block ----

  ghost function PitchTrace(g: GainCdfs, t: PitchTables, config: nat, pred: Pred, counts: seq<nat>,
                            p: PitchParams): seq<Sym>
    requires g.Ok() && TablesOk(t) && config < 2 && PredOk(pred) && p.Ok(t, counts)
  {
    GainTablesReady(g, config, -1, -1);
    GainTrace(g, config, pred.gainIdx, pred.filtIdx, counts, p.gainIdx, p.filtIdx, 0)
    + LagTrace(t, pred.blk, pred.lag, p.contour, ModeOf(g, config, p.gainIdx), p.laginds)
  }

  lemma PredKept(t: PitchTables, pred: Pred, counts: seq<nat>, p: PitchParams)
    requires TablesOk(t) && PredOk(pred) && p.Ok(t, counts)
    ensures PredOk(PredAfterPitch(t, pred, counts, p))
  {
    LastOk(pred.gainIdx, pred.filtIdx, counts, p.gainIdx, p.filtIdx, NUM);
    ContourReady(t, p.contour);
    FitsInside(t.blocksegs[p.contour], p.laginds);
  }

  method EncodeSmplPitch(enc: RangeEncoder, g: GainCdfs, tab: PitchTables, st: LsfState, config: nat,
                         subfrCounts: seq<nat>, pp: PitchParams)
    requires enc.Valid() && g.Ok() && TablesOk(tab) && config < 2 && PredOk(st.EncPred()) && pp.Ok(tab, subfrCounts)
    modifies enc, enc.buf, st
    ensures enc.Valid() && enc.raws == old(enc.raws)
    ensures enc.trace == old(enc.trace) + PitchTrace(g, tab, config, old(st.EncPred()), subfrCounts, pp)
    ensures st.EncPred() == PredAfterPitch(tab, old(st.EncPred()), subfrCounts, pp)
    ensures enc.failed == old(enc.failed) && (old(enc.err) != 0 ==> enc.err != 0)
  {
    hide RangeEncoder.Valid, TablesOk, GainCdfs.Ok, GainTrace, LagTrace, LagsFit, LastFilt;
    ghost var trace := enc.trace;
    ContourReady(tab, pp.contour);
    FitsInside(tab.blocksegs[pp.contour], pp.laginds);
    var gainAccum := EncodeGains(enc, g, st, config, subfrCounts, pp.gainIdx, pp.filtIdx);
    var avgGain := Quotient(gainAccum, NUM);
    var mode := 0;
    if avgGain >= 10007 {
      mode := if avgGain < 14085 then 1 else 2;
    }
    EncodeLagsWire(tab, enc, pp.contour, pp.laginds, st.PrevLagblk, st.PrevLagidx, mode);
    var (nblk, nidx) := SmplLagsPredictorAfter(tab, pp.contour, pp.laginds);
    st.PrevLagblk := nblk;
    st.PrevLagidx := nidx;
    assert enc.trace == trace + PitchTrace(g, tab, config, old(st.EncPred()), subfrCounts, pp);
  }

  function SmplLagsPredictorAfter(tab: PitchTables, blocksegsIx: nat, laginds: seq<int>): (int, int)
    requires blocksegsIx < |tab.blocksegs| && |laginds| == SUBFRAMES && |tab.blocksegs[blocksegsIx].blocks| > 0
  {
    var blocks := tab.blocksegs[blocksegsIx].blocks;
    (blocks[|blocks| - 1], laginds[SUBFRAMES - 1])
  }

  /**
   * Reads a pitch block of any byte string. When an encoder with the same prediction wrote it, the gains, the
   * contour and all eight lags come back, and both sides predict the next block alike.
   */
  method DecodeSmplPitch(dec: RangeDecoder, mem: SmplMem, g: GainCdfs, st: LsfState, config: nat, subfrCounts: seq<nat>,
                         ghost t: PitchTables, ghost sent: PitchParams, ghost rest: seq<Sym>)
    returns (res: PitchResult)
    requires dec.Valid() && g.Ok() && TablesOk(t) && mem == Layout(t) && config < 2 && |subfrCounts| == NUM
    requires PredOk(st.DecPred())
    modifies dec, st
    ensures dec.Valid() && dec.Err == old(dec.Err) && PredOk(st.DecPred()) && st.PrevStage1 == old(st.PrevStage1)
    ensures GainsOk(subfrCounts, res.gainIdx, res.filtIdx)
    ensures res.Found() ==>
              var p := PitchParams(res.gainIdx, res.filtIdx, res.contour, res.blockLags);
              p.Ok(t, subfrCounts) && st.DecPred() == PredAfterPitch(t, old(st.DecPred()), subfrCounts, p)
    ensures sent.Ok(t, subfrCounts)
            && old(dec.todo) == PitchTrace(g, t, config, old(st.DecPred()), subfrCounts, sent) + rest ==>
              res.Found() && PitchParams(res.gainIdx, res.filtIdx, res.contour, res.blockLags) == sent
                && dec.todo == rest
  {
    hide RangeDecoder.Valid, TablesOk, GainCdfs.Ok, GainTrace, LagTrace, LagsFit, LastFilt, Layout, GainsOk;
    ghost var pred := st.DecPred();
    ghost var kept := sent.Ok(t, subfrCounts) && dec.todo == PitchTrace(g, t, config, pred, subfrCounts, sent) + rest;
    ghost var tail := [];
    GainTablesReady(g, config, -1, -1);
    if kept {
      SentGains(subfrCounts, sent.gainIdx, sent.filtIdx);
      ContourReady(t, sent.contour);
      tail := LagTrace(t, pred.blk, pred.lag, sent.contour, ModeOf(g, config, sent.gainIdx), sent.laginds) + rest;
      assert dec.todo == GainTrace(g, config, pred.gainIdx, pred.filtIdx, subfrCounts, sent.gainIdx,
                                    sent.filtIdx, 0) + tail;
    }
    SelectorTables(t);
    hide PitchTables.Shaped;
    var gainIdx, filtIdx, gainAccum := DecodeGains(dec, g, st, config, subfrCounts, sent.gainIdx, sent.filtIdx, tail);
    SentGains(subfrCounts, gainIdx, filtIdx);
    var avgGain := Quotient(gainAccum, NUM);
    var lag, contour, blockLags := DecodeLags(dec, mem, st, avgGain, t, Mode(gainAccum), sent.contour,
                                               sent.laginds, rest);
    res := PitchResult(gainIdx, filtIdx, lag, contour, blockLags);
  }

  lemma SentGains(counts: seq<nat>, gains: seq<int>, filts: seq<int>)
    requires GainsOk(counts, gains, filts)
    ensures |counts| == |gains| == |filts| == NUM
    ensures forall sf :: 0 <= sf < NUM ==> 0 <= gains[sf] < GAINS && -1 <= filts[sf] < FILTERS
  {
    assert forall sf :: 0 <= sf < NUM ==> GainOk(counts[sf], gains[sf], filts[sf]);
  }
}
