/**
 * A whole 60 ms frame: a table-of-contents byte and one range-coded body holding three internal frames,
 * each with its spectral block, its pulses, and a pitch block if voiced or a gain block if not.
 */
module FrameCodec {
  import opened Arith
  import opened RangeSpec
  import opened RangeEncoding
  import opened RangeDecoding
  import opened LsfCodec
  import opened PulseVector
  import Pulses = PulseCodec
  import Gains = GainCodec
  import Pitch = PitchCodec
  import Mem = SmplMemory

  const INTERNAL := 3
  const ENCODE_BUF_BYTES := 512

  datatype Tables = Tables(
    lsf: LsfTables,
    pulses: Pulses.PulseTables,
    gains: Gains.GainTables,
    acb: Pitch.GainCdfs,
    pitch: Mem.PitchTables)
  {
    ghost predicate Ok() {
      lsf.Ok() && pulses.Ok() && gains.Ok() && acb.Ok() && Pitch.TablesOk(pitch)
    }
  }

  datatype Block = Voiced(pitch: Pitch.PitchParams) | Unvoiced(gains: Gains.GainParams)

  datatype InternalParams = InternalParams(lsf: LsfParams, pulses: PulseParams, block: Block) {
    /** Every index has its place in the tables that the prediction so far selects. */
    ghost predicate Ok(t: Tables, pred: Pred, f: nat)
      requires t.Ok()
    {
      && lsf.Ok(t.lsf, pred.stage1, 0, f) && pulses.Ok()
      && (lsf.stage1 == 1 <==> block.Voiced?)
      && match block
         case Voiced(p) => p.Ok(t.pitch, pulses.subfr)
         case Unvoiced(g) => g.Ok(t.gains, pulses.subfr)
    }
  }

  /** What the encoder starts from; a packet's first frame resets it on both sides. */
  const INITIAL := Pred(0, 0, 0, 0, 0)

  /** What the frame after this one predicts from. */
  ghost function NextPred(t: Tables, pred: Pred, f: nat, ip: InternalParams): Pred
    requires t.Ok() && ip.Ok(t, pred, f)
  {
    var q := PredAfterLsf(pred, f, ip.lsf.stage1);
    match ip.block
    case Voiced(p) => Pitch.PredAfterPitch(t.pitch, q, ip.pulses.subfr, p)
    case Unvoiced(_) => q
  }

  lemma NextPredOk(t: Tables, pred: Pred, f: nat, ip: InternalParams)
    requires t.Ok() && ip.Ok(t, pred, f) && (f > 0 ==> Pitch.PredOk(pred))
    ensures Pitch.PredOk(PredAfterLsf(pred, f, ip.lsf.stage1)) && Pitch.PredOk(NextPred(t, pred, f, ip))
  {
    if ip.block.Voiced? {
      Pitch.PredKept(t.pitch, PredAfterLsf(pred, f, ip.lsf.stage1), ip.pulses.subfr, ip.block.pitch);
    }
  }

  /** A packet's first frame leaves nothing of what was predicted before. */
  lemma FirstForgets(t: Tables, before: Pred, ip: InternalParams)
    requires t.Ok()
    ensures ip.Ok(t, before, 0) <==> ip.Ok(t, INITIAL, 0)
    ensures ip.Ok(t, before, 0) ==> NextPred(t, before, 0, ip) == NextPred(t, INITIAL, 0, ip)
    ensures ip.Ok(t, before, 0) ==> InternalTrace(t, before, 0, ip) == InternalTrace(t, INITIAL, 0, ip)
  {
    if ip.Ok(t, before, 0) || ip.Ok(t, INITIAL, 0) {
      assert ip.Ok(t, before, 0) && ip.Ok(t, INITIAL, 0);
      NextPredOk(t, before, 0, ip);
    }
  }

  ghost function BlockTrace(t: Tables, q: Pred, counts: seq<nat>, b: Block): seq<Sym>
    requires t.Ok() && |counts| == NUM && Pitch.PredOk(q)
    requires match b case Voiced(p) => p.Ok(t.pitch, counts) case Unvoiced(g) => g.Ok(t.gains, counts)
  {
    match b
    case Voiced(p) => Pitch.PitchTrace(t.acb, t.pitch, 0, q, counts, p)
    case Unvoiced(g) => Gains.GainTrace(t.gains, counts, g)
  }

  ghost function InternalTrace(t: Tables, pred: Pred, f: nat, ip: InternalParams): seq<Sym>
    requires t.Ok() && ip.Ok(t, pred, f) && (f > 0 ==> Pitch.PredOk(pred))
  {
    NextPredOk(t, pred, f, ip);
    LsfTrace(t.lsf, pred.stage1, 0, f, ip.lsf)
    + (Pulses.PulseTrace(t.pulses, ip.pulses)
    + BlockTrace(t, PredAfterLsf(pred, f, ip.lsf.stage1), ip.pulses.subfr, ip.block))
  }

  /** The internal frames from f on are codable from this prediction. */
  ghost predicate FramesOk(t: Tables, pred: Pred, f: nat, ips: seq<InternalParams>)
    requires t.Ok()
    decreases |ips|
  {
    ips == [] || (ips[0].Ok(t, pred, f) && FramesOk(t, NextPred(t, pred, f, ips[0]), f + 1, ips[1..]))
  }

  ghost function FramesTrace(t: Tables, pred: Pred, f: nat, ips: seq<InternalParams>): seq<Sym>
    requires t.Ok() && FramesOk(t, pred, f, ips) && (f > 0 ==> Pitch.PredOk(pred))
    decreases |ips|
  {
    if ips == [] then []
    else
      NextPredOk(t, pred, f, ips[0]);
      InternalTrace(t, pred, f, ips[0]) + FramesTrace(t, NextPred(t, pred, f, ips[0]), f + 1, ips[1..])
  }

  /** The prediction left after all of them. */
  ghost function LastPred(t: Tables, pred: Pred, f: nat, ips: seq<InternalParams>): Pred
    requires t.Ok() && FramesOk(t, pred, f, ips)
    decreases |ips|
  {
    if ips == [] then pred else LastPred(t, NextPred(t, pred, f, ips[0]), f + 1, ips[1..])
  }

  method EncodeInternal(enc: RangeEncoder, t: Tables, st: LsfState, f: nat, ip: InternalParams)
    requires enc.Valid() && t.Ok() && ip.Ok(t, st.EncPred(), f) && (f > 0 ==> Pitch.PredOk(st.EncPred()))
    modifies enc, enc.buf, st
    ensures enc.Valid() && enc.raws == old(enc.raws)
    ensures enc.trace == old(enc.trace) + InternalTrace(t, old(st.EncPred()), f, ip)
    ensures st.EncPred() == NextPred(t, old(st.EncPred()), f, ip)
    ensures enc.failed == old(enc.failed) && (old(enc.err) != 0 ==> enc.err != 0)
  {
    hide RangeEncoder.Valid, LsfTables.Ok, Pulses.PulseTables.Ok, Gains.GainTables.Ok, Pitch.GainCdfs.Ok,
         Pitch.TablesOk, LsfParams.Ok, PulseParams.Ok, Gains.GainParams.Ok, Pitch.PitchParams.Ok, PredAfterLsf,
         Pitch.PredAfterPitch, LsfTrace, Pulses.PulseTrace, Gains.GainTrace, Pitch.PitchTrace, Pitch.PredOk;
    ghost var trace, pred := enc.trace, st.EncPred();
    Selected(t, pred, f, ip);
    NextPredOk(t, pred, f, ip);
    EncodeSmplLsf(enc, t.lsf, st, 0, f, ip.lsf);
    Pulses.EncodeSmplPulses(enc, t.pulses, ip.pulses);
    ghost var lsf, pulses := LsfTrace(t.lsf, pred.stage1, 0, f, ip.lsf), Pulses.PulseTrace(t.pulses, ip.pulses);
    ghost var block := BlockTrace(t, PredAfterLsf(pred, f, ip.lsf.stage1), ip.pulses.subfr, ip.block);
    if ip.lsf.stage1 == 1 {
      Pitch.EncodeSmplPitch(enc, t.acb, t.pitch, st, 0, ip.pulses.subfr, ip.block.pitch);
    } else {
      Gains.EncodeSmplGains(enc, t.gains, ip.pulses.subfr, ip.block.gains);
    }
    assert trace + lsf + pulses + block == trace + (lsf + (pulses + block));
  }

  /** Facts about an internal frame that its blocks need, without the definitions behind them. */
  lemma Selected(t: Tables, pred: Pred, f: nat, ip: InternalParams)
    requires t.Ok() && ip.Ok(t, pred, f)
    ensures |ip.pulses.subfr| == NUM && 0 <= ip.lsf.stage1 < 2
    ensures PredAfterLsf(pred, f, ip.lsf.stage1).stage1 == ip.lsf.stage1
  {
  }

  /**
   * Reads one internal frame of any byte string. An encoder's frame comes back, and both sides predict
   * the next one alike.
   */
  method DecodeInternal(dec: RangeDecoder, mem: Mem.SmplMem, t: Tables, st: LsfState, f: nat,
                        ghost sent: InternalParams, ghost rest: seq<Sym>)
    returns (ip: InternalParams, pulses: seq<int>)
    requires dec.Valid() && t.Ok() && mem == Mem.Layout(t.pitch) && (f > 0 ==> Pitch.PredOk(st.DecPred()))
    modifies dec, st
    ensures dec.Valid() && dec.Err == old(dec.Err) && Pitch.PredOk(st.DecPred())
    ensures ip.pulses.Ok() && pulses == Vector(ip.pulses)
    ensures sent.Ok(t, old(st.DecPred()), f) && old(dec.todo) == InternalTrace(t, old(st.DecPred()), f, sent) + rest ==>
              ip == sent && dec.todo == rest && st.DecPred() == NextPred(t, old(st.DecPred()), f, sent)
  {
    hide RangeDecoder.Valid, LsfTables.Ok, Pulses.PulseTables.Ok, Gains.GainTables.Ok, Pitch.GainCdfs.Ok,
         Pitch.TablesOk, LsfParams.Ok, PulseParams.Ok, Gains.GainParams.Ok, Pitch.PitchParams.Ok, PredAfterLsf,
         Pitch.PredAfterPitch, LsfTrace, Pulses.PulseTrace, Gains.GainTrace, Pitch.PitchTrace, Pitch.PredOk, Vector,
         Mem.Layout;
    ghost var pred := st.DecPred();
    ghost var kept := sent.Ok(t, pred, f) && dec.todo == InternalTrace(t, pred, f, sent) + rest;
    ghost var afterLsf, afterPulses: seq<Sym> := [], [];
    if kept {
      Selected(t, pred, f, sent);
      NextPredOk(t, pred, f, sent);
      afterPulses := BlockTrace(t, PredAfterLsf(pred, f, sent.lsf.stage1), sent.pulses.subfr, sent.block) + rest;
      afterLsf := Pulses.PulseTrace(t.pulses, sent.pulses) + afterPulses;
      assert dec.todo == LsfTrace(t.lsf, pred.stage1, 0, f, sent.lsf) + afterLsf;
    }
    var lsf := DecodeSmplLsf(dec, t.lsf, st, 0, f, sent.lsf, afterLsf);
    PredReset(pred, f, lsf.stage1);
    var pp;
    pp, pulses := Pulses.DecodeSmplPulses(dec, t.pulses, sent.pulses, afterPulses);
    FourSubframes(pp);
    var block;
    if lsf.stage1 == 1 {
      ghost var p := if kept then sent.block.pitch else Pitch.PitchParams([], [], 0, []);
      var pr := Pitch.DecodeSmplPitch(dec, mem, t.acb, st, 0, pp.subfr, t.pitch, p, if kept then rest else []);
      block := Voiced(Pitch.PitchParams(pr.gainIdx, pr.filtIdx, pr.contour, pr.blockLags));
    } else {
      ghost var g := if kept then sent.block.gains else Gains.GainParams(0, 0, []);
      var gp, gainQ := Gains.DecodeSmplGains(dec, t.gains, pp.subfr, g, if kept then rest else []);
      block := Unvoiced(gp);
    }
    ip := InternalParams(lsf, pp, block);
  }

  lemma PredReset(pred: Pred, f: nat, stage1: int)
    requires f > 0 ==> Pitch.PredOk(pred)
    ensures Pitch.PredOk(PredAfterLsf(pred, f, stage1))
  {
  }

  lemma FourSubframes(p: PulseParams)
    requires p.Ok()
    ensures |p.subfr| == NUM
  {
  }

  datatype Result<T> = Ok(value: T) | Overflow

  method EncodeFrames(enc: RangeEncoder, t: Tables, ips: seq<InternalParams>)
    requires enc.Valid() && t.Ok() && |ips| == INTERNAL && FramesOk(t, INITIAL, 0, ips)
    requires enc.trace == [] && enc.raws == []
    modifies enc, enc.buf
    ensures enc.Valid() && enc.raws == [] && enc.trace == FramesTrace(t, INITIAL, 0, ips)
    ensures enc.failed == old(enc.failed) && (old(enc.err) != 0 ==> enc.err != 0)
  {
    hide RangeEncoder.Valid, Tables.Ok, InternalParams.Ok, NextPred, InternalTrace, Pitch.PredOk;
    var st := new LsfState();
    ghost var all := FramesTrace(t, INITIAL, 0, ips);
    assert [] + all == all && ips[0..] == ips;
    for f := 0 to INTERNAL
      invariant fresh(st) && enc.Valid() && enc.raws == [] && (f > 0 ==> Pitch.PredOk(st.EncPred()))
      invariant FramesOk(t, st.EncPred(), f, ips[f..])
      invariant enc.trace + FramesTrace(t, st.EncPred(), f, ips[f..]) == all
      invariant enc.failed == old(enc.failed) && (old(enc.err) != 0 ==> enc.err != 0)
    {
      ghost var pred, trace := st.EncPred(), enc.trace;
      NextPredOk(t, pred, f, ips[f]);
      assert ips[f..][1..] == ips[f + 1..] && ips[f..][0] == ips[f];
      EncodeInternal(enc, t, st, f, ips[f]);
      ghost var tail := FramesTrace(t, st.EncPred(), f + 1, ips[f + 1..]);
      assert trace + (InternalTrace(t, pred, f, ips[f]) + tail) == enc.trace + tail;
    }
  }

  /**
   * [TOC, body], where the body and anything appended to it still codes exactly these parameters; refused
   * exactly when the symbols need more than the encoder's buffer.
   */
  method EncodeSmplFrame(t: Tables, toc: byte, ips: seq<InternalParams>) returns (r: Result<seq<byte>>)
    requires t.Ok() && |ips| == INTERNAL && FramesOk(t, INITIAL, 0, ips)
    ensures AllCodable(FramesTrace(t, INITIAL, 0, ips))
    ensures r.Ok? <==> FlushedBytes(Run(START, FramesTrace(t, INITIAL, 0, ips))) <= 1 + ENCODE_BUF_BYTES
    ensures r.Ok? ==> |r.value| == 1 + FlushedBytes(Run(START, FramesTrace(t, INITIAL, 0, ips)))
    ensures r.Ok? ==> r.value[0] == toc && Settles(r.value[1..], Run(START, FramesTrace(t, INITIAL, 0, ips)))
  {
    hide Tables.Ok, FramesOk, FramesTrace, FlushedBytes, Run, Settles;
    var enc := new RangeEncoder(1 + ENCODE_BUF_BYTES);
    EncodeFrames(enc, t, ips);
    assert AllCodable(enc.trace);
    enc.Done();
    if enc.err != 0 {
      return Overflow;
    }
    var n := enc.offs + enc.endOffs;
    var body := enc.buf[..];
    r := Ok([toc] + body[..n]);
    assert r.value[1..] == enc.buf[..enc.offs];
  }

  /** Stands for the parameters of a frame of which nothing was promised. */
  ghost const NOTHING :=
    InternalParams(LsfParams(0, 0, [], 0), PulseParams(0, [], [], []), Voiced(Pitch.PitchParams([], [], 0, [])))

  method DecodeFrames(dec: RangeDecoder, mem: Mem.SmplMem, t: Tables, st: LsfState, ghost sent: seq<InternalParams>)
    returns (ips: seq<InternalParams>, pulses: seq<seq<int>>)
    requires dec.Valid() && t.Ok() && mem == Mem.Layout(t.pitch)
    modifies dec, st
    ensures dec.Err == old(dec.Err) && |ips| == |pulses| == INTERNAL
    ensures forall f :: 0 <= f < INTERNAL ==> ips[f].pulses.Ok() && pulses[f] == Vector(ips[f].pulses)
    ensures |sent| == INTERNAL && FramesOk(t, INITIAL, 0, sent) && old(dec.todo) == FramesTrace(t, INITIAL, 0, sent) ==>
              ips == sent && st.DecPred() == LastPred(t, INITIAL, 0, sent)
  {
    hide RangeDecoder.Valid, Tables.Ok, InternalParams.Ok, NextPred, InternalTrace, Pitch.PredOk, Mem.Layout, Vector,
         PulseParams.Ok;
    ghost var kept := |sent| == INTERNAL && FramesOk(t, INITIAL, 0, sent)
      && dec.todo == FramesTrace(t, INITIAL, 0, sent);
    ips, pulses := [], [];
    ghost var pred := INITIAL;
    assert kept ==> sent[0..] == sent;
    for f := 0 to INTERNAL
      invariant dec.Valid() && dec.Err == old(dec.Err) && |ips| == |pulses| == f
      invariant forall i :: 0 <= i < f ==> ips[i].pulses.Ok() && pulses[i] == Vector(ips[i].pulses)
      invariant f > 0 ==> Pitch.PredOk(st.DecPred())
      invariant f > 0 && kept ==> pred == st.DecPred()
      invariant f == 0 ==> pred == INITIAL
      invariant kept ==> ips == sent[..f] && (f > 0 ==> Pitch.PredOk(pred)) && FramesOk(t, pred, f, sent[f..])
                         && dec.todo == FramesTrace(t, pred, f, sent[f..])
                         && LastPred(t, pred, f, sent[f..]) == LastPred(t, INITIAL, 0, sent)
    {
      ghost var next, tail := NOTHING, [];
      if kept {
        next := sent[f];
        assert sent[f..][1..] == sent[f + 1..] && sent[f..][0] == sent[f];
        NextPredOk(t, pred, f, next);
        if f == 0 {
          FirstForgets(t, st.DecPred(), next);
        }
        tail := FramesTrace(t, NextPred(t, pred, f, next), f + 1, sent[f + 1..]);
      }
      var ip, vector := DecodeInternal(dec, mem, t, st, f, next, tail);
      ips, pulses := ips + [ip], pulses + [vector];
      pred := st.DecPred();
    }
  }

  /**
   * The parameter loop over a frame of any bytes, from any state left by earlier packets: it never reports
   * a decoder error, and a frame whose body codes `sent` gives back exactly `sent`.
   */
  method DecodeActiveFrame(frame: seq<byte>, mem: Mem.SmplMem, t: Tables, st: LsfState, ghost sent: seq<InternalParams>)
    returns (err: int, ips: seq<InternalParams>, pulses: seq<seq<int>>)
    requires |frame| > 0 && frame[0] / 4 % 2 == 0 && t.Ok() && mem == Mem.Layout(t.pitch)
    modifies st
    ensures err == 0 && |ips| == |pulses| == INTERNAL
    ensures forall f :: 0 <= f < INTERNAL ==> ips[f].pulses.Ok() && pulses[f] == Vector(ips[f].pulses)
    ensures |sent| == INTERNAL && FramesOk(t, INITIAL, 0, sent) && AllCodable(FramesTrace(t, INITIAL, 0, sent))
            && Inside(Run(START, FramesTrace(t, INITIAL, 0, sent)), frame[1..]) ==>
              ips == sent && st.DecPred() == LastPred(t, INITIAL, 0, sent)
  {
    hide Tables.Ok, FramesOk, FramesTrace, LastPred, RangeDecoder.Valid, Inside, Vector, PulseParams.Ok, Mem.Layout;
    ghost var promise := [];
    StartInside(frame[1..]);
    if |sent| == INTERNAL && FramesOk(t, INITIAL, 0, sent) {
      ghost var trace := FramesTrace(t, INITIAL, 0, sent);
      if AllCodable(trace) && Inside(Run(START, trace), frame[1..]) {
        promise := trace;
      }
    }
    var dec := new RangeDecoder(frame[1..], promise, []);
    ips, pulses := DecodeFrames(dec, mem, t, st, sent);
    err := dec.Err;
  }

  /**
   * Whatever was decoded before, and whatever bytes follow the frame: every frame whose symbols fit the
   * encoder's buffer decodes to the parameters and the pulse vectors it was made from.
   */
  method FrameRoundTrip(t: Tables, toc: byte, ips: seq<InternalParams>, st: LsfState, following: seq<byte>)
    returns (r: Result<seq<InternalParams>>, pulses: seq<seq<int>>)
    requires t.Ok() && |ips| == INTERNAL && FramesOk(t, INITIAL, 0, ips) && toc / 4 % 2 == 0
    modifies st
    ensures AllCodable(FramesTrace(t, INITIAL, 0, ips))
    ensures r.Ok? <==> FlushedBytes(Run(START, FramesTrace(t, INITIAL, 0, ips))) <= 1 + ENCODE_BUF_BYTES
    ensures r.Ok? ==> r.value == ips && st.DecPred() == LastPred(t, INITIAL, 0, ips)
    ensures r.Ok? ==> |pulses| == INTERNAL
    ensures r.Ok? ==> forall f :: 0 <= f < INTERNAL ==> ips[f].pulses.Ok() && pulses[f] == Vector(ips[f].pulses)
  {
    hide Tables.Ok, FramesOk, FramesTrace, LastPred, Inside, FlushedBytes, Run;
    var sent := EncodeSmplFrame(t, toc, ips);
    if sent.Overflow? {
      return Overflow, [];
    }
    TablesShaped(t);
    var mem := Mem.BuildSmplMem(t.pitch);
    var frame := sent.value + following;
    assert sent.value[1..] <= frame[1..];
    var err, got;
    err, got, pulses := DecodeActiveFrame(frame, mem, t, st, ips);
    r := Ok(got);
  }

  lemma TablesShaped(t: Tables)
    requires t.Ok()
    ensures t.pitch.Shaped()
  {
  }
}
