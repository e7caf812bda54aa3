/** The spectral block of an internal frame: selector, grid, sixteen residuals, one extra symbol. */
module LsfCodec {
  import opened Arith
  import opened RangeSpec
  import opened RangeEncoding
  import opened RangeDecoding
  import opened CdfCoding

  datatype LsfTables = LsfTables(
    sel: seq<Cdf>,
    match1: Cdf, match1Alt: Cdf, match0: Cdf, match0Alt: Cdf,
    stage2: seq<seq<seq<seq<Cdf>>>>,
    extra: Cdf)
  {
    /** Two selector values, and a residual table for every value a grid table can code. */
    ghost predicate Ok() {
      && |sel| == 3 && (forall i :: 0 <= i < 3 ==> Strict(sel[i]) && |sel[i]| == 3)
      && |stage2| == 2 && (forall s :: 0 <= s < 2 ==> |stage2[s]| == 2)
      && GridOk(match1) && GridOk(match1Alt) && GridOk(match0) && GridOk(match0Alt)
      && (forall s, c, g :: 0 <= s < 2 && 0 <= c < 2 && 0 <= g < |stage2[s][c]| ==> ResidualsOk(stage2[s][c][g]))
      && Strict(extra)
    }

    ghost predicate GridOk(grid: Cdf)
      requires |stage2| == 2 && (forall s :: 0 <= s < 2 ==> |stage2[s]| == 2)
    {
      Strict(grid) && forall s, c :: 0 <= s < 2 && 0 <= c < 2 ==> |grid| - 1 <= |stage2[s][c]|
    }

    function Grid(matched: bool, stage1: int): Cdf {
      if matched && stage1 != 0 then match1
      else if matched then match1Alt
      else if stage1 != 0 then match0Alt
      else match0
    }
  }

  datatype LsfParams = LsfParams(stage1: int, grid: int, stage2: seq<int>, extra: int) {
    /** Every index has a place in the tables that the predictor selects. */
    ghost predicate Ok(t: LsfTables, prevStage1: int, config: nat, intf: nat)
      requires t.Ok() && config < 2
    {
      && 0 <= stage1 < 2 && Codes(t.Grid(Matched(prevStage1, intf, stage1), stage1), grid)
      && ResidualsCode(t.stage2[stage1][config][grid], stage2)
      && Codes(t.extra, extra)
    }
  }

  ghost predicate ResidualsOk(tables: seq<Cdf>) {
    |tables| == 16 && forall k :: 0 <= k < 16 ==> Strict(tables[k])
  }

  /** What the later blocks of a packet predict from. */
  datatype Pred = Pred(stage1: int, gainIdx: int, filtIdx: int, blk: int, lag: int)

  function Selector(prevStage1: int, intf: nat): nat {
    if intf == 0 then 0 else if prevStage1 != 0 then 2 else 1
  }

  predicate Matched(prevStage1: int, intf: nat, stage1: int) {
    intf != 0 && stage1 == prevStage1
  }

  /** A frame that does not continue its predecessor's selector forgets every pitch prediction. */
  function PredAfterLsf(pred: Pred, intf: nat, stage1: int): Pred {
    if Matched(pred.stage1, intf, stage1) then pred else Pred(stage1, -1, -1, -1, -1)
  }

  /** The state shared by the blocks; the decoder predicts lags from PrevLag, the encoder from PrevLagblk. */
  class LsfState {
    var PrevStage1: int
    var PrevMatch: bool
    var HavePrev: bool
    var PrevGainIdx: int
    var PrevFiltIdx: int
    var PrevLag: int
    var PrevFracLag: int
    var PrevLagblk: int
    var PrevLagidx: int

    constructor ()
      ensures EncPred() == Pred(0, 0, 0, 0, 0)
    {
      PrevStage1, PrevMatch, HavePrev := 0, false, false;
      PrevGainIdx, PrevFiltIdx := 0, 0;
      PrevLag, PrevFracLag, PrevLagblk, PrevLagidx := 0, 0, 0, 0;
    }

    ghost function EncPred(): Pred
      reads this
    {
      Pred(PrevStage1, PrevGainIdx, PrevFiltIdx, PrevLagblk, PrevLagidx)
    }

    ghost function DecPred(): Pred
      reads this
    {
      Pred(PrevStage1, PrevGainIdx, PrevFiltIdx, PrevLag, PrevFracLag)
    }
  }

  ghost predicate ResidualsCode(tables: seq<Cdf>, values: seq<int>) {
    |tables| == 16 && |values| == 16 && forall k :: 0 <= k < 16 ==> Codes(tables[k], values[k])
  }

  ghost function ResidualTrace(tables: seq<Cdf>, values: seq<int>, k: nat): seq<Sym>
    requires k <= 16 && ResidualsCode(tables, values)
    decreases 16 - k
  {
    if k == 16 then []
    else
      assert Codes(tables[k], values[k]);
      [Code(tables[k], values[k])] + ResidualTrace(tables, values, k + 1)
  }

  lemma ResidualNext(tables: seq<Cdf>, values: seq<int>, k: nat, rest: seq<Sym>)
    requires k < 16 && ResidualsCode(tables, values)
    ensures Codes(tables[k], values[k])
    ensures ResidualTrace(tables, values, k) == [Code(tables[k], values[k])] + ResidualTrace(tables, values, k + 1)
    ensures ResidualTrace(tables, values, k) + rest
         == [Code(tables[k], values[k])] + (ResidualTrace(tables, values, k + 1) + rest)
  {
    assert Codes(tables[k], values[k]);
  }

  /** The symbols of one spectral block. */
  ghost function LsfTrace(t: LsfTables, prevStage1: int, config: nat, intf: nat, p: LsfParams): seq<Sym>
    requires t.Ok() && config < 2 && p.Ok(t, prevStage1, config, intf)
  {
    [Code(t.sel[Selector(prevStage1, intf)], p.stage1)]
    + ([Code(t.Grid(Matched(prevStage1, intf, p.stage1), p.stage1), p.grid)]
    + (ResidualTrace(t.stage2[p.stage1][config][p.grid], p.stage2, 0)
    + [Code(t.extra, p.extra)]))
  }

  method EncodeResiduals(enc: RangeEncoder, st2: seq<Cdf>, values: seq<int>)
    requires enc.Valid() && ResidualsCode(st2, values)
    modifies enc, enc.buf
    ensures enc.Valid() && enc.raws == old(enc.raws)
    ensures enc.trace == old(enc.trace) + ResidualTrace(st2, values, 0)
    ensures enc.failed == old(enc.failed) && (old(enc.err) != 0 ==> enc.err != 0)
  {
    hide RangeEncoder.Valid, Strict, Code, ResidualTrace;
    assert |st2| == 16 && |values| == 16;
    for k := 0 to 16
      invariant enc.Valid() && enc.raws == old(enc.raws)
      invariant enc.trace + ResidualTrace(st2, values, k) == old(enc.trace) + ResidualTrace(st2, values, 0)
      invariant enc.failed == old(enc.failed) && (old(enc.err) != 0 ==> enc.err != 0)
    {
      hide ResidualsCode;
      ghost var trace, tail := enc.trace, ResidualTrace(st2, values, k + 1);
      ResidualNext(st2, values, k, []);
      Put(enc, values[k], st2[k]);
      assert enc.trace + tail == trace + ([Code(st2[k], values[k])] + tail);
    }
    ResidualEnd(st2, values);
  }

  lemma ResidualEnd(tables: seq<Cdf>, values: seq<int>)
    requires ResidualsCode(tables, values)
    ensures ResidualTrace(tables, values, 16) == []
  {
  }

  /** Starts a frame: the selector decides whether the pitch predictions survive. */
  method EncodeSelector(enc: RangeEncoder, t: LsfTables, st: LsfState, intf: nat, stage1: int) returns (m: bool)
    requires enc.Valid() && t.Ok() && 0 <= stage1 < 2
    modifies enc, enc.buf, st
    ensures enc.Valid() && enc.raws == old(enc.raws)
    ensures m == Matched(old(st.PrevStage1), intf, stage1)
    ensures enc.trace == old(enc.trace) + [Code(t.sel[Selector(old(st.PrevStage1), intf)], stage1)]
    ensures st.EncPred() == PredAfterLsf(old(st.EncPred()), intf, stage1)
    ensures enc.failed == old(enc.failed) && (old(enc.err) != 0 ==> enc.err != 0)
  {
    hide RangeEncoder.Valid, Strict, Code;
    var sel := 0;
    if intf != 0 {
      sel := if st.PrevStage1 != 0 then 2 else 1;
    }
    Put(enc, stage1, t.sel[sel]);
    m := intf != 0 && stage1 == st.PrevStage1;
    if !m {
      st.PrevGainIdx := -1;
      st.PrevFiltIdx := -1;
      st.PrevLag := -1;
      st.PrevFracLag := -1;
      st.PrevLagblk := -1;
      st.PrevLagidx := -1;
    }
    st.PrevStage1 := stage1;
  }

  /** Whatever the grid table codes, its residual tables are there. */
  lemma TablesReady(t: LsfTables, m: bool, stage1: int, grid: int, config: nat)
    requires t.Ok() && 0 <= stage1 < 2 && config < 2
    ensures Strict(t.Grid(m, stage1)) && Strict(t.extra)
    ensures Codes(t.Grid(m, stage1), grid) ==>
              |t.stage2| == 2 && |t.stage2[stage1]| == 2 && grid < |t.stage2[stage1][config]|
              && ResidualsOk(t.stage2[stage1][config][grid])
  {
  }

  lemma SelectorReady(t: LsfTables, i: nat)
    requires t.Ok() && i < 3
    ensures |t.sel| == 3 && Codes(t.sel[i], 0) && Codes(t.sel[i], 1)
  {
  }

  method EncodeSmplLsf(enc: RangeEncoder, t: LsfTables, st: LsfState, config: nat, intf: nat, lsf: LsfParams)
    requires enc.Valid() && t.Ok() && config < 2 && lsf.Ok(t, st.PrevStage1, config, intf)
    modifies enc, enc.buf, st
    ensures enc.Valid() && enc.raws == old(enc.raws)
    ensures enc.trace == old(enc.trace) + LsfTrace(t, old(st.PrevStage1), config, intf, lsf)
    ensures st.EncPred() == PredAfterLsf(old(st.EncPred()), intf, lsf.stage1)
    ensures enc.failed == old(enc.failed) && (old(enc.err) != 0 ==> enc.err != 0)
  {
    hide RangeEncoder.Valid, Strict, Code, PredAfterLsf, LsfTables.Ok, ResidualTrace, ResidualsCode, ResidualsOk;
    ghost var trace := enc.trace;
    var stage1 := lsf.stage1;
    TablesReady(t, Matched(st.PrevStage1, intf, stage1), stage1, lsf.grid, config);
    var m := EncodeSelector(enc, t, st, intf, stage1);
    Put(enc, lsf.grid, t.Grid(m, stage1));
    st.PrevMatch := m;
    st.HavePrev := true;
    var st2 := t.stage2[stage1][config][lsf.grid];
    EncodeResiduals(enc, st2, lsf.stage2);
    Put(enc, lsf.extra, t.extra);
    assert enc.trace == trace + LsfTrace(t, old(st.PrevStage1), config, intf, lsf);
  }

  method DecodeResiduals(dec: RangeDecoder, st2: seq<Cdf>, ghost sent: seq<int>, ghost rest: seq<Sym>)
    returns (values: seq<int>)
    requires dec.Valid() && ResidualsOk(st2)
    modifies dec
    ensures dec.Valid() && dec.Err == old(dec.Err) && ResidualsCode(st2, values)
    ensures ResidualsCode(st2, sent) && old(dec.todo) == ResidualTrace(st2, sent, 0) + rest ==>
              values == sent && dec.todo == rest
  {
    hide RangeDecoder.Valid, Strict, Code, ResidualTrace;
    ghost var kept := ResidualsCode(st2, sent) && dec.todo == ResidualTrace(st2, sent, 0) + rest;
    values := [];
    for k := 0 to 16
      invariant dec.Valid() && dec.Err == old(dec.Err) && |values| == k
      invariant forall i :: 0 <= i < k ==> Codes(st2[i], values[i])
      invariant kept ==> values == sent[..k] && dec.todo == ResidualTrace(st2, sent, k) + rest
    {
      ghost var s, tail := 0, [];
      if kept {
        ResidualNext(st2, sent, k, rest);
        s, tail := sent[k], ResidualTrace(st2, sent, k + 1) + rest;
      }
      var v := Take(dec, st2[k], s, tail);
      values := values + [v];
    }
    if kept {
      ResidualEnd(st2, sent);
    }
  }

  method DecodeSelector(dec: RangeDecoder, t: LsfTables, st: LsfState, intf: nat,
                        ghost sent: int, ghost rest: seq<Sym>)
    returns (stage1: int, m: bool)
    requires dec.Valid() && t.Ok()
    modifies dec, st
    ensures dec.Valid() && dec.Err == old(dec.Err) && 0 <= stage1 < 2
    ensures m == Matched(old(st.PrevStage1), intf, stage1)
    ensures st.DecPred() == PredAfterLsf(old(st.DecPred()), intf, stage1)
    ensures 0 <= sent < 2 && old(dec.todo) == [Code(t.sel[Selector(old(st.PrevStage1), intf)], sent)] + rest ==>
              stage1 == sent && dec.todo == rest
  {
    hide RangeDecoder.Valid, Strict, Code;
    var sel := 0;
    if intf != 0 {
      sel := if st.PrevStage1 != 0 then 2 else 1;
    }
    stage1 := Take(dec, t.sel[sel], sent, rest);
    m := intf != 0 && stage1 == st.PrevStage1;
    if !m {
      st.PrevGainIdx := -1;
      st.PrevFiltIdx := -1;
      st.PrevLag := -1;
      st.PrevFracLag := -1;
    }
    st.PrevStage1 := stage1;
  }

  /**
   * Reads one spectral block of any byte string. When `sent` is what an encoder in the same state wrote,
   * it is what comes back.
   */
  method DecodeSmplLsf(dec: RangeDecoder, t: LsfTables, st: LsfState, config: nat, intf: nat,
                       ghost sent: LsfParams, ghost rest: seq<Sym>)
    returns (idx: LsfParams)
    requires dec.Valid() && t.Ok() && config < 2
    modifies dec, st
    ensures dec.Valid() && dec.Err == old(dec.Err) && idx.Ok(t, old(st.PrevStage1), config, intf)
    ensures st.DecPred() == PredAfterLsf(old(st.DecPred()), intf, idx.stage1)
    ensures sent.Ok(t, old(st.PrevStage1), config, intf)
            && old(dec.todo) == LsfTrace(t, old(st.PrevStage1), config, intf, sent) + rest ==>
              idx == sent && dec.todo == rest
  {
    hide RangeDecoder.Valid, Strict, Code, PredAfterLsf, LsfTables.Ok, ResidualTrace, ResidualsCode, ResidualsOk;
    ghost var prev := st.PrevStage1;
    ghost var kept := sent.Ok(t, prev, config, intf) && dec.todo == LsfTrace(t, prev, config, intf, sent) + rest;
    ghost var tail, afterGrid, afterSel: seq<Sym> := [], [], [];
    if kept {
      SelectorReady(t, Selector(prev, intf));
      TablesReady(t, Matched(prev, intf, sent.stage1), sent.stage1, sent.grid, config);
      tail := [Code(t.extra, sent.extra)] + rest;
      afterGrid := ResidualTrace(t.stage2[sent.stage1][config][sent.grid], sent.stage2, 0) + tail;
      afterSel := [Code(t.Grid(Matched(prev, intf, sent.stage1), sent.stage1), sent.grid)] + afterGrid;
      assert dec.todo == [Code(t.sel[Selector(prev, intf)], sent.stage1)] + afterSel;
    }
    var stage1, m := DecodeSelector(dec, t, st, intf, sent.stage1, afterSel);
    TablesReady(t, m, stage1, 0, config);
    var grid := Take(dec, t.Grid(m, stage1), sent.grid, afterGrid);
    st.PrevMatch := m;
    st.HavePrev := true;
    TablesReady(t, m, stage1, grid, config);
    var st2 := t.stage2[stage1][config][grid];
    var stage2 := DecodeResiduals(dec, st2, sent.stage2, tail);
    var extra := Take(dec, t.extra, sent.extra, rest);
    idx := LsfParams(stage1, grid, stage2, extra);
  }
}
