/** The gain block of an unvoiced frame: main and delta gain, then one energy residual per busy subframe. */
module GainCodec {
  import opened Arith
  import opened RangeSpec
  import opened RangeEncoding
  import opened RangeDecoding
  import opened CdfCoding
  import opened PulseVector
  import CdfTables

  const BUCKETS := 4
  const OFFSET_STEPS := 176
  const OFFSET_WINDOW := 92
  const GAIN_CFG := 2
  const BASE := 0x154000
  /** Rodata address of the four-subframe reconstruction table. */
  const RECON4 := 0xf35f0

  datatype GainTables = GainTables(
    gain4: Cdf, shape4: Cdf,
    fcbgOffset: seq<Cdf>,
    gainRecon: seq<int>, gainReconBase: uint32)
  {
    ghost predicate Ok() {
      && Strict(gain4) && Strict(shape4)
      && |fcbgOffset| == 3 * BUCKETS
      && forall i :: 0 <= i < 3 * BUCKETS ==> Strict(fcbgOffset[i]) && |fcbgOffset[i]| == OFFSET_STEPS + 1
    }

    /** The signed entry at a rodata address; anything odd or outside the table reads as zero. */
    function ReconAt(addr: uint32): int {
      var off := (addr - gainReconBase) % 0x1_0000_0000;
      if off % 2 == 0 && off / 2 < |gainRecon| then gainRecon[off / 2] else 0
    }

    function NrgStep(cfg: nat): int {
      ReconAt((gainReconBase + 2 * cfg) % 0x1_0000_0000)
    }

    function Recon(idx: nat): int {
      ReconAt((RECON4 + 2 * idx) % 0x1_0000_0000)
    }
  }

  datatype GainParams = GainParams(gainMain: int, gainDelta: int, nrgRes: seq<int>) {
    /** Every residual has a symbol in the window its subframe selects; silent subframes carry none. */
    ghost predicate Ok(t: GainTables, counts: seq<nat>)
      requires t.Ok() && |counts| == NUM
    {
      && Codes(t.gain4, gainMain) && Codes(t.shape4, gainDelta) && |nrgRes| == NUM
      && forall sf :: 0 <= sf < NUM ==> ResidualOk(t, gainMain, gainDelta, counts, sf, nrgRes[sf])
    }
  }

  ghost predicate ResidualOk(t: GainTables, gm: int, gd: int, counts: seq<nat>, sf: nat, r: int)
    requires t.Ok() && |counts| == NUM && sf < NUM && gd >= 0
  {
    if counts[sf] == 0 then r == 0 else Codes(ResidualTable(t, GainQ(t, gm, gd, sf), counts[sf]), r)
  }

  /** The quantised log gain of a subframe. */
  function GainQ(t: GainTables, gainMain: int, gainDelta: int, sf: nat): int
    requires gainDelta >= 0
  {
    gainMain * t.NrgStep(GAIN_CFG) - BASE + t.Recon(sf + NUM * gainDelta) * 16
  }

  function Bucket(cnt: nat): nat {
    if cnt >= 30 then 3 else cnt / 10
  }

  /** How far a negative gain, rounded and clamped at -85, moves the window up. */
  function MinOffset(gainQ: int): (o: nat)
    ensures o <= 85
  {
    -Min(Max((gainQ + 8192) / 0x4000, -85), 0)
  }

  function ResidualTable(t: GainTables, gainQ: int, cnt: nat): (w: Cdf)
    requires t.Ok()
    ensures |w| == OFFSET_WINDOW
  {
    t.fcbgOffset[GAIN_CFG * BUCKETS + Bucket(cnt)][MinOffset(gainQ)..MinOffset(gainQ) + OFFSET_WINDOW]
  }

  /** Every window that any gain can select lies inside its row and is strict. */
  lemma ResidualTableOk(t: GainTables, gainQ: int, cnt: nat)
    requires t.Ok()
    ensures Strict(ResidualTable(t, gainQ, cnt))
  {
    var row, o := t.fcbgOffset[GAIN_CFG * BUCKETS + Bucket(cnt)], MinOffset(gainQ);
    CdfTables.StrictWindow(row, o, OFFSET_WINDOW);
  }

  /** o is -gainQ in steps of 2^14, to the nearest, within 0 to 85. */
  predicate NearestStep(gainQ: int, o: nat) {
    && o <= 85
    && (o == 0 || gainQ + 0x4000 * o < 8192)
    && (o == 85 || gainQ + 0x4000 * o >= -8192)
  }

  /** b is the pulse count in tens, at most three. */
  predicate InTens(cnt: nat, b: nat) {
    b <= 3 && 10 * b <= cnt && (b == 3 || cnt < 10 * b + 10)
  }

  /** The window starts as many entries up as the gain lies steps below zero, in the row of the busyness. */
  lemma ResidualPlace(t: GainTables, gainQ: int, cnt: nat, o: nat, b: nat)
    requires t.Ok() && NearestStep(gainQ, o) && InTens(cnt, b)
    ensures ResidualTable(t, gainQ, cnt) == t.fcbgOffset[GAIN_CFG * BUCKETS + b][o..o + OFFSET_WINDOW]
  {
    assert o == MinOffset(gainQ) && b == Bucket(cnt);
  }

  /** A step of the main gain moves every subframe by the energy step, a unit of its own entry by sixteen. */
  lemma GainSteps(t: GainTables, gm: int, gd: nat, sf: nat, gm': int, gd': nat, sf': nat)
    ensures GainQ(t, gm', gd', sf') - GainQ(t, gm, gd, sf)
         == (gm' - gm) * t.NrgStep(GAIN_CFG) + 16 * (t.Recon(sf' + NUM * gd') - t.Recon(sf + NUM * gd))
    ensures GainQ(t, 0, gd, sf) == 16 * t.Recon(sf + NUM * gd) - BASE
  {
    assert (gm' - gm) * t.NrgStep(GAIN_CFG) == gm' * t.NrgStep(GAIN_CFG) - gm * t.NrgStep(GAIN_CFG);
  }

  /** Energy steps are the table's first entries; reconstruction levels follow each other from their address. */
  lemma ReconEntries(t: GainTables, n: nat)
    requires t.gainReconBase + 2 * |t.gainRecon| <= 0x1_0000_0000
    ensures n < |t.gainRecon| ==> t.NrgStep(n) == t.gainRecon[n]
    ensures var at := RECON4 - t.gainReconBase;
            at >= 0 && at % 2 == 0 && at / 2 + n < |t.gainRecon| ==> t.Recon(n) == t.gainRecon[at / 2 + n]
  {
    if n < |t.gainRecon| {
      DivModUnique(t.gainReconBase + 2 * n, 0x1_0000_0000, 0, t.gainReconBase + 2 * n);
      DivModUnique(2 * n, 0x1_0000_0000, 0, 2 * n);
    }
    var at := RECON4 - t.gainReconBase;
    if at >= 0 && at % 2 == 0 && at / 2 + n < |t.gainRecon| {
      DivModUnique(RECON4 + 2 * n, 0x1_0000_0000, 0, RECON4 + 2 * n);
      DivModUnique(at + 2 * n, 0x1_0000_0000, 0, at + 2 * n);
    }
  }

  ghost function ResidualTrace(t: GainTables, gm: int, gd: int, counts: seq<nat>, nrgRes: seq<int>, sf: nat): seq<Sym>
    requires t.Ok() && |counts| == NUM && gd >= 0 && |nrgRes| == NUM && sf <= NUM
    requires forall i :: 0 <= i < NUM ==> ResidualOk(t, gm, gd, counts, i, nrgRes[i])
    decreases NUM - sf
  {
    if sf == NUM then []
    else
      assert ResidualOk(t, gm, gd, counts, sf, nrgRes[sf]);
      (if counts[sf] == 0 then [] else [Code(ResidualTable(t, GainQ(t, gm, gd, sf), counts[sf]), nrgRes[sf])])
      + ResidualTrace(t, gm, gd, counts, nrgRes, sf + 1)
  }

  ghost function GainTrace(t: GainTables, counts: seq<nat>, p: GainParams): seq<Sym>
    requires t.Ok() && |counts| == NUM && p.Ok(t, counts)
  {
    [Code(t.gain4, p.gainMain)]
    + ([Code(t.shape4, p.gainDelta)]
    + ResidualTrace(t, p.gainMain, p.gainDelta, counts, p.nrgRes, 0))
  }

  /** The reconstruction both sides run before the residuals. */
  method Reconstruct(t: GainTables, gainMain: int, gainDelta: nat) returns (gainQ: seq<int>)
    ensures |gainQ| == NUM && forall sf :: 0 <= sf < NUM ==> gainQ[sf] == GainQ(t, gainMain, gainDelta, sf)
  {
    var off6 := NUM * gainDelta;
    var base7 := gainMain * t.NrgStep(GAIN_CFG) - BASE;
    gainQ := [];
    for sf := 0 to NUM
      invariant |gainQ| == sf && forall i :: 0 <= i < sf ==> gainQ[i] == GainQ(t, gainMain, gainDelta, i)
    {
      var cbv := t.Recon(sf + off6);
      gainQ := gainQ + [base7 + cbv * 16];
    }
  }

  /** The residual window of one subframe, found as the code finds it. */
  method SelectTable(t: GainTables, gainQ: int, cnt: nat) returns (w: Cdf)
    requires t.Ok()
    ensures w == ResidualTable(t, gainQ, cnt) && Strict(w)
    ensures exists o: nat, b: nat ::
              NearestStep(gainQ, o) && InTens(cnt, b)
              && w == t.fcbgOffset[GAIN_CFG * BUCKETS + b][o..o + OFFSET_WINDOW]
  {
    var bucket;
    if cnt >= 30 {
      bucket := 3;
    } else {
      bucket := cnt % 0x1_0000 / 10;
    }
    var g := (gainQ + 8192) / 0x4000;
    if g < -85 {
      g := -85;
    }
    // (g >> 31) & g keeps g when it is negative.
    var negPart := if g < 0 then g else 0;
    var minOffset := -negPart;
    ResidualTableOk(t, gainQ, cnt);
    assert NearestStep(gainQ, minOffset) && InTens(cnt, bucket);
    w := t.fcbgOffset[GAIN_CFG * BUCKETS + bucket][minOffset..minOffset + OFFSET_WINDOW];
  }

  lemma ResidualNext(t: GainTables, gm: int, gd: int, counts: seq<nat>, nrgRes: seq<int>, sf: nat, rest: seq<Sym>)
    requires t.Ok() && |counts| == NUM && gd >= 0 && |nrgRes| == NUM && sf < NUM
    requires forall i :: 0 <= i < NUM ==> ResidualOk(t, gm, gd, counts, i, nrgRes[i])
    ensures ResidualOk(t, gm, gd, counts, sf, nrgRes[sf])
    ensures ResidualTrace(t, gm, gd, counts, nrgRes, sf) + rest
         == (if counts[sf] == 0 then [] else [Code(ResidualTable(t, GainQ(t, gm, gd, sf), counts[sf]), nrgRes[sf])])
            + (ResidualTrace(t, gm, gd, counts, nrgRes, sf + 1) + rest)
  {
    assert ResidualOk(t, gm, gd, counts, sf, nrgRes[sf]);
  }

  lemma ResidualEnd(t: GainTables, gm: int, gd: int, counts: seq<nat>, nrgRes: seq<int>, rest: seq<Sym>)
    requires t.Ok() && |counts| == NUM && gd >= 0 && |nrgRes| == NUM
    requires forall i :: 0 <= i < NUM ==> ResidualOk(t, gm, gd, counts, i, nrgRes[i])
    ensures ResidualTrace(t, gm, gd, counts, nrgRes, NUM) + rest == rest
  {
  }

  method EncodeResiduals(enc: RangeEncoder, t: GainTables, gm: int, gd: int, gainQ: seq<int>,
                         counts: seq<nat>, nrgRes: seq<int>)
    requires enc.Valid() && t.Ok() && |counts| == NUM && gd >= 0 && |nrgRes| == NUM && |gainQ| == NUM
    requires forall i :: 0 <= i < NUM ==> ResidualOk(t, gm, gd, counts, i, nrgRes[i])
    requires forall sf :: 0 <= sf < NUM ==> gainQ[sf] == GainQ(t, gm, gd, sf)
    modifies enc, enc.buf
    ensures enc.Valid() && enc.raws == old(enc.raws)
    ensures enc.trace == old(enc.trace) + ResidualTrace(t, gm, gd, counts, nrgRes, 0)
    ensures enc.failed == old(enc.failed) && (old(enc.err) != 0 ==> enc.err != 0)
  {
    hide RangeEncoder.Valid, Strict, Code, GainTables.Ok, GainQ, ResidualTable, ResidualTrace;
    ghost var all := old(enc.trace) + ResidualTrace(t, gm, gd, counts, nrgRes, 0);
    for sf := 0 to NUM
      invariant enc.Valid() && enc.raws == old(enc.raws)
      invariant enc.trace + ResidualTrace(t, gm, gd, counts, nrgRes, sf) == all
      invariant enc.failed == old(enc.failed) && (old(enc.err) != 0 ==> enc.err != 0)
    {
      ghost var tail := ResidualTrace(t, gm, gd, counts, nrgRes, sf + 1);
      ResidualNext(t, gm, gd, counts, nrgRes, sf, []);
      hide ResidualOk;
      assert tail + [] == tail;
      assert all == enc.trace + (ResidualTrace(t, gm, gd, counts, nrgRes, sf) + []);
      ghost var before := enc.trace;
      var cnt := counts[sf];
      if cnt > 0 {
        ResidualCodes(t, gm, gd, counts, sf, nrgRes[sf]);
        var w := SelectTable(t, gainQ[sf], cnt);
        Put(enc, nrgRes[sf], w);
        assert before + ([Code(w, nrgRes[sf])] + tail) == enc.trace + tail;
      } else {
        assert before + ([] + tail) == enc.trace + tail;
      }
    }
    ResidualEnd(t, gm, gd, counts, nrgRes, []);
  }

  lemma ResidualCodes(t: GainTables, gm: int, gd: int, counts: seq<nat>, sf: nat, r: int)
    requires t.Ok() && |counts| == NUM && gd >= 0 && sf < NUM && ResidualOk(t, gm, gd, counts, sf, r) && counts[sf] > 0
    ensures Codes(ResidualTable(t, GainQ(t, gm, gd, sf), counts[sf]), r)
  {
  }

  method EncodeSmplGains(enc: RangeEncoder, t: GainTables, subfrCounts: seq<nat>, gp: GainParams)
    requires enc.Valid() && t.Ok() && |subfrCounts| == NUM && gp.Ok(t, subfrCounts)
    modifies enc, enc.buf
    ensures enc.Valid() && enc.raws == old(enc.raws)
    ensures enc.trace == old(enc.trace) + GainTrace(t, subfrCounts, gp)
    ensures enc.failed == old(enc.failed) && (old(enc.err) != 0 ==> enc.err != 0)
  {
    hide RangeEncoder.Valid, Strict, Code, GainTables.Ok, GainQ, ResidualTable, ResidualTrace;
    ghost var trace := enc.trace;
    Put(enc, gp.gainMain, t.gain4);
    Put(enc, gp.gainDelta, t.shape4);
    var gainQ := Reconstruct(t, gp.gainMain, gp.gainDelta);
    EncodeResiduals(enc, t, gp.gainMain, gp.gainDelta, gainQ, subfrCounts, gp.nrgRes);
    assert enc.trace == trace + GainTrace(t, subfrCounts, gp);
  }

  method DecodeResiduals(dec: RangeDecoder, t: GainTables, gm: int, gd: int, gainQ: seq<int>,
                         counts: seq<nat>, ghost sent: seq<int>, ghost rest: seq<Sym>)
    returns (nrgRes: seq<int>)
    requires dec.Valid() && t.Ok() && |counts| == NUM && gd >= 0 && |gainQ| == NUM
    requires forall sf :: 0 <= sf < NUM ==> gainQ[sf] == GainQ(t, gm, gd, sf)
    modifies dec
    ensures dec.Valid() && dec.Err == old(dec.Err)
    ensures |nrgRes| == NUM && forall i :: 0 <= i < NUM ==> ResidualOk(t, gm, gd, counts, i, nrgRes[i])
    ensures |sent| == NUM && (forall i :: 0 <= i < NUM ==> ResidualOk(t, gm, gd, counts, i, sent[i]))
            && old(dec.todo) == ResidualTrace(t, gm, gd, counts, sent, 0) + rest ==>
              nrgRes == sent && dec.todo == rest
  {
    hide RangeDecoder.Valid, Strict, Code, GainTables.Ok, GainQ, ResidualTable;
    ghost var kept := |sent| == NUM && (forall i :: 0 <= i < NUM ==> ResidualOk(t, gm, gd, counts, i, sent[i]))
                      && dec.todo == ResidualTrace(t, gm, gd, counts, sent, 0) + rest;
    nrgRes := [];
    for sf := 0 to NUM
      invariant dec.Valid() && dec.Err == old(dec.Err) && |nrgRes| == sf
      invariant forall i :: 0 <= i < sf ==> ResidualOk(t, gm, gd, counts, i, nrgRes[i])
      invariant kept ==> nrgRes == sent[..sf] && dec.todo == ResidualTrace(t, gm, gd, counts, sent, sf) + rest
    {
      ghost var next, tail := 0, [];
      if kept {
        ResidualNext(t, gm, gd, counts, sent, sf, rest);
        next, tail := sent[sf], ResidualTrace(t, gm, gd, counts, sent, sf + 1) + rest;
      }
      hide ResidualTrace;
      var cnt := counts[sf];
      var r := 0;
      if cnt > 0 {
        var w := SelectTable(t, gainQ[sf], cnt);
        r := Take(dec, w, next, tail);
      } else {
        assert [] + tail == tail;
      }
      nrgRes := nrgRes + [r];
    }
    if kept {
      ResidualEnd(t, gm, gd, counts, sent, rest);
    }
  }

  method DecodeSmplGains(dec: RangeDecoder, t: GainTables, subfrCounts: seq<nat>,
                         ghost sent: GainParams, ghost rest: seq<Sym>)
    returns (res: GainParams, gainQ: seq<int>)
    requires dec.Valid() && t.Ok() && |subfrCounts| == NUM
    modifies dec
    ensures dec.Valid() && dec.Err == old(dec.Err) && res.Ok(t, subfrCounts)
    ensures |gainQ| == NUM && forall sf :: 0 <= sf < NUM ==> gainQ[sf] == GainQ(t, res.gainMain, res.gainDelta, sf)
    ensures sent.Ok(t, subfrCounts) && old(dec.todo) == GainTrace(t, subfrCounts, sent) + rest ==>
              res == sent && dec.todo == rest
  {
    hide RangeDecoder.Valid, Strict, Code, GainTables.Ok, GainQ, ResidualTable, ResidualTrace, ResidualOk;
    ghost var kept := sent.Ok(t, subfrCounts) && dec.todo == GainTrace(t, subfrCounts, sent) + rest;
    ghost var afterMain, afterDelta: seq<Sym> := [], [];
    if kept {
      afterDelta := ResidualTrace(t, sent.gainMain, sent.gainDelta, subfrCounts, sent.nrgRes, 0) + rest;
      afterMain := [Code(t.shape4, sent.gainDelta)] + afterDelta;
      assert dec.todo == [Code(t.gain4, sent.gainMain)] + afterMain;
    }
    TablesOk(t);
    var gm := Take(dec, t.gain4, sent.gainMain, afterMain);
    var gd := Take(dec, t.shape4, sent.gainDelta, afterDelta);
    gainQ := Reconstruct(t, gm, gd);
    var nrgRes := DecodeResiduals(dec, t, gm, gd, gainQ, subfrCounts, sent.nrgRes, rest);
    res := GainParams(gm, gd, nrgRes);
  }

  lemma TablesOk(t: GainTables)
    requires t.Ok()
    ensures Strict(t.gain4) && Strict(t.shape4)
  {
  }
}
