/** Encoding any interleaving of symbols and raw fields, then decoding the buffer. */
module RangeRoundTrip {
  import opened Arith
  import opened RangeSpec
  import opened RawSpec
  import opened RangeEncoding
  import opened RangeDecoding

  datatype Op = Symbol(t: Sym) | Field(f: Raw) {
    predicate Ok() {
      match this
      case Symbol(t) => t.Codable()
      case Field(f) => f.Fits()
    }

    /** The decoded value is right: inside the symbol's range, or the field itself. */
    predicate Answers(v: nat) {
      match this
      case Symbol(t) => t.fl <= v < t.fh
      case Field(f) => v == f.v
    }
  }

  /** What both coders expose after a step: the range and the bit count behind `Tell`. */
  datatype Tell = Tell(rng: nat, nbitsTotal: nat)

  function Symbols(ops: seq<Op>): seq<Sym> {
    if ops == [] then []
    else (if ops[0].Symbol? then [ops[0].t] else []) + Symbols(ops[1..])
  }

  function Fields(ops: seq<Op>): seq<Raw> {
    if ops == [] then []
    else (if ops[0].Field? then [ops[0].f] else []) + Fields(ops[1..])
  }

  predicate AllOk(ops: seq<Op>) {
    forall i :: 0 <= i < |ops| ==> ops[i].Ok()
  }

  lemma {:induction false} Snoc(ops: seq<Op>, op: Op)
    ensures Symbols(ops + [op]) == Symbols(ops) + (if op.Symbol? then [op.t] else [])
    ensures Fields(ops + [op]) == Fields(ops) + (if op.Field? then [op.f] else [])
  {
    if ops == [] {
      assert ops + [op] == [op];
    } else {
      assert (ops + [op])[1..] == ops[1..] + [op];
      Snoc(ops[1..], op);
    }
  }

  lemma {:induction false} PartsOk(ops: seq<Op>)
    requires AllOk(ops)
    ensures AllCodable(Symbols(ops)) && AllFit(Fields(ops))
  {
    if ops != [] {
      PartsOk(ops[1..]);
    }
  }

  /** The range and bit count that the operations alone determine. */
  ghost function TellAfter(ops: seq<Op>): Tell
  {
    if AllOk(ops) then
      PartsOk(ops);
      var c := Run(START, Symbols(ops));
      Tell(c.rng, 33 + 8 * c.n + Bits(Fields(ops)))
    else Tell(0, 0)
  }

  /** Front bytes of the flushed symbols and back bytes of the raw fields. */
  ghost function Bytes(ops: seq<Op>): nat
    requires AllOk(ops)
  {
    PartsOk(ops);
    FlushedBytes(Run(START, Symbols(ops))) + (Bits(Fields(ops)) + 7) / 8
  }

  method EncodeOp(e: RangeEncoder, op: Op, ghost done: seq<Op>) returns (tell: Tell)
    requires e.Valid() && op.Ok() && AllOk(done)
    requires e.trace == Symbols(done) && e.raws == Fields(done)
    modifies e, e.buf
    ensures e.Valid() && e.trace == Symbols(done + [op]) && e.raws == Fields(done + [op])
    ensures e.failed == old(e.failed)
    ensures tell == TellAfter(done + [op])
  {
    Snoc(done, op);
    match op {
      case Symbol(t) => e.Encode(t.fl, t.fh, t.ft);
      case Field(f) => e.BitsN(f.v, f.n);
    }
    tell := Tell(e.rng, e.nbitsTotal);
  }

  method EncodeAll(ops: seq<Op>, size: nat) returns (e: RangeEncoder, tells: seq<Tell>)
    requires AllOk(ops) && size < 0x1_0000_0000
    ensures fresh(e) && fresh(e.buf) && e.Valid() && !e.failed && e.buf.Length == size
    ensures e.trace == Symbols(ops) && e.raws == Fields(ops)
    ensures |tells| == |ops| && forall i :: 0 <= i < |ops| ==> tells[i] == TellAfter(ops[..i + 1])
  {
    hide RangeEncoder.Valid;
    e := new RangeEncoder(size);
    tells := [];
    for i := 0 to |ops|
      invariant fresh(e) && fresh(e.buf) && e.Valid() && !e.failed && e.buf.Length == size
      invariant e.trace == Symbols(ops[..i]) && e.raws == Fields(ops[..i])
      invariant |tells| == i && forall j :: 0 <= j < i ==> tells[j] == TellAfter(ops[..j + 1])
    {
      assert ops[..i + 1] == ops[..i] + [ops[i]];
      var tell := EncodeOp(e, ops[i], ops[..i]);
      tells := tells + [tell];
    }
    assert ops[..|ops|] == ops;
  }

  /** A decoder that has taken `done` and holds `rest`. */
  ghost predicate Between(d: RangeDecoder, done: seq<Op>, rest: seq<Op>)
    reads d
  {
    && d.Valid() && AllOk(done) && AllOk(rest)
    && AllCodable(Symbols(done)) && d.c == Run(START, Symbols(done)) && d.todo == Symbols(rest)
    && d.pos == Bits(Fields(done)) && d.rawTodo == Fields(rest)
  }

  method DecodeSymbol(d: RangeDecoder, t: Sym, ghost done: seq<Op>, ghost rest: seq<Op>) returns (v: nat)
    requires Between(d, done, [Symbol(t)] + rest)
    modifies d
    ensures Between(d, done + [Symbol(t)], rest) && d.Err == old(d.Err)
    ensures t.fl <= v < t.fh
  {
    hide RangeDecoder.Valid, Step, Target, Run;
    StepOver(done, Symbol(t), rest);
    assert ([t] + Symbols(rest))[1..] == Symbols(rest);
    RunAppend(START, Symbols(done), t);
    v := d.Decode(t.ft);
    d.Update(t.fl, t.fh, t.ft);
  }

  method DecodeField(d: RangeDecoder, f: Raw, ghost done: seq<Op>, ghost rest: seq<Op>) returns (v: nat)
    requires Between(d, done, [Field(f)] + rest)
    modifies d
    ensures Between(d, done + [Field(f)], rest) && d.Err == old(d.Err)
    ensures v == f.v
  {
    hide RangeDecoder.Valid;
    StepOver(done, Field(f), rest);
    assert ([f] + Fields(rest))[1..] == Fields(rest);
    PackedAppend(Fields(done), f);
    v := d.BitsN(f.n);
  }

  lemma StepOver(done: seq<Op>, op: Op, rest: seq<Op>)
    requires AllOk(done) && AllOk([op] + rest)
    ensures op.Ok() && AllOk(rest) && AllOk(done + [op])
    ensures Symbols(done + [op]) == if op.Symbol? then Symbols(done) + [op.t] else Symbols(done)
    ensures Fields(done + [op]) == if op.Field? then Fields(done) + [op.f] else Fields(done)
    ensures Symbols([op] + rest) == if op.Symbol? then [op.t] + Symbols(rest) else Symbols(rest)
    ensures Fields([op] + rest) == if op.Field? then [op.f] + Fields(rest) else Fields(rest)
    ensures AllCodable(Symbols(done + [op])) && AllFit(Fields(done + [op]))
  {
    var all := [op] + rest;
    assert all[0] == op && all[1..] == rest;
    forall i | 0 <= i < |rest|
      ensures rest[i].Ok()
    {
      assert rest[i] == all[i + 1];
    }
    Snoc(done, op);
    PartsOk(done + [op]);
  }

  method DecodeOp(d: RangeDecoder, op: Op, ghost done: seq<Op>, ghost rest: seq<Op>) returns (v: nat, tell: Tell)
    requires Between(d, done, [op] + rest)
    modifies d
    ensures Between(d, done + [op], rest) && d.Err == old(d.Err)
    ensures op.Answers(v) && tell == TellAfter(done + [op])
  {
    match op {
      case Symbol(t) => v := DecodeSymbol(d, t, done, rest);
      case Field(f) => v := DecodeField(d, f, done, rest);
    }
    tell := Tell(d.rng, d.nbitsTotal);
  }

  method DecodeAll(d: RangeDecoder, ops: seq<Op>) returns (values: seq<nat>, tells: seq<Tell>)
    requires Between(d, [], ops)
    modifies d
    ensures |values| == |ops| && forall i :: 0 <= i < |ops| ==> ops[i].Answers(values[i])
    ensures |tells| == |ops| && forall i :: 0 <= i < |ops| ==> tells[i] == TellAfter(ops[..i + 1])
    ensures d.Err == old(d.Err)
  {
    hide Between, TellAfter;
    values, tells := [], [];
    assert ops[..0] == [] && ops[0..] == ops;
    for i := 0 to |ops|
      invariant Between(d, ops[..i], ops[i..]) && d.Err == old(d.Err)
      invariant |values| == i && forall j :: 0 <= j < i ==> ops[j].Answers(values[j])
      invariant |tells| == i && forall j :: 0 <= j < i ==> tells[j] == TellAfter(ops[..j + 1])
    {
      assert ops[..i + 1] == ops[..i] + [ops[i]];
      assert ops[i..] == [ops[i]] + ops[i + 1..];
      var v, tell := DecodeOp(d, ops[i], ops[..i], ops[i + 1..]);
      values, tells := values + [v], tells + [tell];
    }
  }

  /**
   * For any operations and any buffer size: the encoder ends without an error exactly when both streams
   * fit, and then the decoder gets a value in every symbol's range and every raw field back, and both sides
   * agree on the range and the bit count after every step.
   */
  method RoundTrip(ops: seq<Op>, size: nat)
    returns (ok: bool, values: seq<nat>, encTells: seq<Tell>, decTells: seq<Tell>)
    requires AllOk(ops) && size < 0x1_0000_0000
    ensures ok <==> Bytes(ops) <= size
    ensures ok ==> |values| == |ops| && forall i :: 0 <= i < |ops| ==> ops[i].Answers(values[i])
    ensures ok ==> |encTells| == |ops| && decTells == encTells
  {
    var e;
    e, encTells := EncodeAll(ops, size);
    e.Done();
    ok := e.err == 0;
    values, decTells := [], [];
    if ok {
      assert e.buf[..e.offs] <= e.buf[..];
      PartsOk(ops);
      var d := new RangeDecoder(e.buf[..], Symbols(ops), Fields(ops));
      values, decTells := DecodeAll(d, ops);
    }
  }

  lemma {:induction false} SymbolsOnly(ts: seq<Sym>)
    requires AllCodable(ts)
    ensures AllOk(Ops(ts)) && Symbols(Ops(ts)) == ts && Fields(Ops(ts)) == []
  {
    if ts != [] {
      SymbolsOnly(ts[..|ts| - 1]);
      var init, last := Ops(ts[..|ts| - 1]), Symbol(ts[|ts| - 1]);
      assert Ops(ts) == init + [last];
      Snoc(init, last);
    }
  }

  function Ops(ts: seq<Sym>): (ops: seq<Op>)
    ensures |ops| == |ts|
  {
    seq(|ts|, i requires 0 <= i < |ts| => Symbol(ts[i]))
  }

  /** Symbols depend on the front bytes alone: any bytes may stand behind them instead of the raw fields. */
  method FrontRoundTrip(ops: seq<Op>, size: nat, following: seq<byte>) returns (ok: bool, values: seq<nat>)
    requires AllOk(ops) && size < 0x1_0000_0000
    ensures ok <==> Bytes(ops) <= size
    ensures ok ==> |values| == |Symbols(ops)|
    ensures ok ==> forall i :: 0 <= i < |values| ==> Symbols(ops)[i].fl <= values[i] < Symbols(ops)[i].fh
  {
    hide RangeEncoder.Valid, RangeDecoder.Valid, Settles, Holds, TellAfter, FlushedBytes, Run;
    PartsOk(ops);
    SymbolsOnly(Symbols(ops));
    var symbols: seq<Op> := Ops(Symbols(ops));
    var e, encTells := EncodeAll(ops, size);
    e.Done();
    ok := e.err == 0;
    values := [];
    if ok {
      var s := e.buf[..e.offs] + following;
      assert e.buf[..e.offs] <= s;
      NoFields(s);
      SettledInside(e.buf[..e.offs], s, Run(START, Symbols(ops)));
      assert Run(START, Symbols([])) == START by {
        NothingRun();
      }
      var d := new RangeDecoder(s, Symbols(ops), []);
      var decTells;
      values, decTells := DecodeAll(d, symbols);
      assert forall i :: 0 <= i < |symbols| ==> symbols[i] == Symbol(Symbols(ops)[i]) && symbols[i].Answers(values[i]);
    }
  }

  lemma NothingRun()
    ensures Run(START, Symbols([])) == START
  {
  }

  lemma SettledInside(front: seq<byte>, s: seq<byte>, c: Interval)
    requires Settles(front, c) && front <= s
    ensures Inside(c, s)
  {
  }

  lemma NoFields(s: seq<byte>)
    ensures AllFit([]) && Holds(s, [])
  {
  }
}
