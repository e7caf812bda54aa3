/** The range decoder: symbols from the front of the buffer, raw fields from its back. */
module RangeDecoding {
  import opened Arith
  import opened RangeSpec
  import opened RawSpec

  /** What is still promised after `t` has been decoded: a symbol nobody promised voids the rest. */
  function Popped(todo: seq<Sym>, t: Sym): seq<Sym> {
    if todo != [] && todo[0] == t then todo[1..] else []
  }

  /** The same interval, counted in bytes read instead of renormalisations. */
  function Ahead(c: Interval): Interval {
    Interval(c.n + 4, c.low, c.rng)
  }

  class RangeDecoder {
    const buf: seq<byte>
    var endOffs: nat
    var endWindow: uint32
    var nendBits: nat
    var nbitsTotal: nat
    var offs: nat
    var rng: uint32
    var val: uint32
    var ext: uint32
    var rem: byte
    var Err: int

    /** The interval reached, and symbols the buffer is known to hold next. */
    ghost var c: Interval
    ghost var todo: seq<Sym>
    /** Raw bits consumed, the number formed by those still ahead, and fields it is known to hold. */
    ghost var pos: nat
    ghost var ahead: nat
    ghost var rawTodo: seq<Raw>

    /** After d.n bytes, `val` counts down from the top of `d` to the code read so far. */
    ghost predicate Reads(d: Interval)
      reads `rng, `val, `offs, `rem
    {
      && d.n >= 1 && rng == d.rng && 0 < rng <= TOP && val < rng
      && val == d.low + d.rng - 1 - Head(buf, d.n) / 2
      && offs == Min(d.n, |buf|) && rem == ByteAt(buf, d.n - 1)
    }

    ghost predicate RawOk()
      reads `endOffs, `endWindow, `nendBits, `pos, `ahead, `rawTodo
    {
      && AllFit(rawTodo) && ahead % Pow2(Bits(rawTodo)) == Packed(rawTodo)
      && Windowed(endWindow, nendBits, endOffs)
    }

    /** The window shows the next `available` bits; they end on a byte boundary. */
    ghost predicate Windowed(window: nat, available: nat, at: nat)
      reads `pos, `ahead
    {
      && available <= 32 && (pos + available) % 8 == 0
      && at == Min((pos + available) / 8, |buf|)
      && ahead == Shr(Tail(buf, |buf|), pos)
      && window == ahead % Pow2(available)
    }

    /** The code lies in the interval that every promised symbol leads to. */
    ghost predicate Follows()
      reads `c, `todo
    {
      BOT < c.rng <= TOP && AllCodable(todo) && Inside(Run(c, todo), buf)
    }

    ghost predicate Valid()
      reads `rng, `val, `offs, `rem, `c, `todo, `nbitsTotal
      reads `endOffs, `endWindow, `nendBits, `pos, `ahead, `rawTodo
    {
      && BOT < rng && Reads(Ahead(c))
      && Follows()
      && RawOk()
      && nbitsTotal == 33 + 8 * c.n + pos
    }

    /**
     * A decoder for any byte string. The ghost arguments name what an encoder is known to have put
     * there; with nothing promised every string is acceptable.
     */
    constructor (buf: seq<byte>, ghost promise: seq<Sym>, ghost fields: seq<Raw>)
      requires AllCodable(promise) && Inside(Run(START, promise), buf)
      requires AllFit(fields) && Holds(buf, fields)
      ensures Valid() && this.buf == buf && Err == 0
      ensures c == START && pos == 0 && todo == promise && rawTodo == fields
    {
      this.buf := buf;
      endOffs, endWindow, nendBits := 0, 0, 0;
      nbitsTotal := 9;
      offs, ext, Err := 0, 0, 0;
      rng, val, rem := 128, 0, 0;
      c, todo, pos, rawTodo := START, promise, 0, fields;
      ahead := Tail(buf, |buf|);
      new;
      var b := ReadByte();
      rem := b;
      FirstByte(buf);
      val := rng - 1 - rem / 2;
      Normalize(Interval(1, 0, 128));
      assert Pow2(0) == 1;
    }

    method ReadByte() returns (b: byte)
      modifies `offs
      ensures b == ByteAt(buf, old(offs))
      ensures offs == (if old(offs) < |buf| then old(offs) + 1 else old(offs))
    {
      if offs < |buf| {
        b := buf[offs];
        offs := offs + 1;
      } else {
        b := 0;
      }
    }

    method ReadByteFromEnd() returns (b: byte)
      modifies `endOffs
      ensures b == BackByte(buf, old(endOffs))
      ensures endOffs == (if old(endOffs) < |buf| then old(endOffs) + 1 else old(endOffs))
    {
      if endOffs < |buf| {
        endOffs := endOffs + 1;
        b := buf[|buf| - endOffs];
      } else {
        b := 0;
      }
    }

    method Normalize(ghost d: Interval)
      requires Reads(d)
      modifies `nbitsTotal, `rng, `rem, `val, `offs
      ensures Reads(Renorm(d)) && BOT < rng
      ensures nbitsTotal == old(nbitsTotal) + 8 * (Renorm(d).n - d.n)
    {
      hide Head, Tail;
      ghost var cur := d;
      while rng <= BOT
        invariant Reads(cur) && Renorm(cur) == Renorm(d)
        invariant nbitsTotal == old(nbitsTotal) + 8 * (cur.n - d.n)
        decreases TOP - rng
      {
        nbitsTotal := nbitsTotal + 8;
        rng := rng * 256;
        var sym0 := rem;
        var b := ReadByte();
        rem := b;
        NextWindow(buf, cur.n);
        var sym := (sym0 * 256 + rem) / 2;
        NextVal(cur.low, cur.rng, Head(buf, cur.n) / 2, val, sym % 256);
        // 255 &^ sym clears from 255 the low byte of sym.
        val := (val * 256 + (255 - sym % 256)) % TOP;
        cur := Interval(cur.n + 1, 256 * cur.low, 256 * cur.rng);
      }
    }

    lemma PromiseKept()
      requires Valid()
      ensures todo != [] ==> todo[0].fl <= Target(rng, val, todo[0].ft) < todo[0].fh
    {
      if todo != [] {
        NarrowFits(rng, todo[0]);
        Promised(c, todo, buf, val);
      }
    }

    /** The cumulative frequency of the next symbol; a total of zero, or beyond the range, is the error. */
    method Decode(ft: nat) returns (v: nat)
      requires Valid()
      modifies `ext, `Err
      ensures Valid()
      ensures ft == 0 || rng < ft ==> v == 0 && ext == 1 && Err == 1
      ensures BOT < rng <= TOP && rng == c.rng
      ensures 0 < ft <= rng ==> v == Target(rng, val, ft) && ext == rng / ft && Err == old(Err)
      ensures todo != [] && todo[0].ft == ft ==> todo[0].fl <= v < todo[0].fh
    {
      if ft == 0 {
        v := Reject();
        return;
      }
      Scale(ft);
      if ext == 0 {
        v := Reject();
        return;
      }
      v := Frequency(ft);
      PromiseKept();
    }

    method Reject() returns (v: nat)
      modifies `ext, `Err
      ensures v == 0 && ext == 1 && Err == 1
    {
      Err := 1;
      ext := 1;
      return 0;
    }

    method Scale(ft: nat)
      requires 0 < ft
      modifies `ext
      ensures ext == rng / ft && (ext == 0 <==> rng < ft)
    {
      QuotientAtLeast(rng, ft, 1);
      ext := rng / ft;
    }

    method Frequency(ft: nat) returns (v: nat)
      requires 0 < ft <= rng && ext == rng / ft
      ensures v == Target(rng, val, ft)
    {
      QuotientAtLeast(rng, ft, 1);
      var s := val / ext;
      v := ft - Min(s + 1, ft);
    }

    /** Moves past the symbol [fl, fh) of ft that the decoded frequency fell in. */
    method Update(fl: nat, fh: nat, ft: nat)
      requires Valid() && Sym(fl, fh, ft).Codable()
      requires ext == rng / ft && fl <= Target(rng, val, ft) < fh
      modifies this
      ensures Valid() && Err == old(Err) && pos == old(pos) && rawTodo == old(rawTodo)
      ensures c == Step(old(c), Sym(fl, fh, ft))
      ensures todo == Popped(old(todo), Sym(fl, fh, ft))
    {
      ghost var t := Sym(fl, fh, ft);
      TargetExact(c, t, buf, val);
      RunStep(c, todo, t, buf);
      Advance(fl, fh, ft);
      todo := Popped(todo, t);
    }

    method Advance(fl: nat, fh: nat, ft: nat)
      requires BOT < rng && Reads(Ahead(c)) && Sym(fl, fh, ft).Codable() && ext == rng / ft
      requires Inside(Narrow(c, Sym(fl, fh, ft)), buf)
      modifies `nbitsTotal, `rng, `rem, `val, `offs, `c
      ensures c == Step(old(c), Sym(fl, fh, ft))
      ensures BOT < rng && Reads(Ahead(c))
      ensures nbitsTotal == old(nbitsTotal) + 8 * (c.n - old(c.n))
    {
      ghost var d := Narrow(c, Sym(fl, fh, ft));
      NarrowTo(fl, fh, ft);
      RenormAhead(d);
      Normalize(Ahead(d));
      c := Renorm(d);
    }

    method NarrowTo(fl: nat, fh: nat, ft: nat)
      requires BOT < rng && Reads(Ahead(c)) && Sym(fl, fh, ft).Codable() && ext == rng / ft
      requires Inside(Narrow(c, Sym(fl, fh, ft)), buf)
      modifies `val, `rng
      ensures Reads(Ahead(Narrow(c, Sym(fl, fh, ft))))
    {
      NarrowFits(rng, Sym(fl, fh, ft));
      var s := ext * (ft - fh);
      val := val - s;
      if fl > 0 {
        rng := ext * (fh - fl);
      } else {
        rng := rng - s;
      }
    }

    /**
     * Reads a symbol of a table; a table without symbols is the sticky error. If the buffer is known to
     * hold `sent` next, that is what comes back, and the rest stays promised.
     */
    method DecodeCDF(cdf: seq<uint16>, ghost sent: int, ghost rest: seq<Sym>) returns (k: nat)
      requires Valid() && Cumulative(cdf)
      modifies this
      ensures Valid() && pos == old(pos) && rawTodo == old(rawTodo)
      ensures !HasSymbol(cdf, 0) ==> k == 0 && Err == 1 && c == old(c) && todo == old(todo)
      ensures HasSymbol(cdf, 0) ==> Err == old(Err) && HasSymbol(cdf, k) && cdf[k] < cdf[k + 1]
      ensures HasSymbol(cdf, sent) && cdf[sent] < cdf[sent + 1] && old(todo) == [CdfSym(cdf, sent)] + rest ==>
                k == sent && todo == rest
    {
      hide Valid, Step, Target, Run;
      var n := |cdf|;
      if n < 2 {
        Err := 1;
        return 0;
      }
      var base := cdf[0];
      if cdf[n - 1] <= base {
        Err := 1;
        return 0;
      }
      var ft := cdf[n - 1] - base;
      var fs := Decode(ft);
      var target := base + fs;
      k := 0;
      while k < n - 1 && cdf[k + 1] <= target
        invariant 0 <= k <= n - 1 && cdf[k] <= target
      {
        k := k + 1;
      }
      UniqueSymbol(cdf, k, fs);
      Update(cdf[k] - base, cdf[k + 1] - base, ft);
    }

    /** A uniform symbol below ft. */
    method DecodeUniform(ft: nat, ghost sent: nat, ghost rest: seq<Sym>) returns (sym: nat)
      requires Valid() && 0 < ft <= BOT
      modifies this
      ensures Valid() && Err == old(Err) && pos == old(pos) && rawTodo == old(rawTodo)
      ensures sym < ft
      ensures sent < ft && old(todo) == [Sym(sent, sent + 1, ft)] + rest ==> sym == sent && todo == rest
    {
      hide Valid, Step, Target, Run;
      sym := Decode(ft);
      Update(sym, sym + 1, ft);
    }

    /** A uniform nbits-bit symbol on the range stream. */
    method DecodeRawSymbol(nbits: nat, ghost sent: nat, ghost rest: seq<Sym>) returns (sym: nat)
      requires Valid() && nbits <= 23
      modifies this
      ensures Valid() && Err == old(Err) && pos == old(pos) && rawTodo == old(rawTodo)
      ensures sym < Pow2(nbits)
      ensures sent < Pow2(nbits) && old(todo) == [Sym(sent, sent + 1, Pow2(nbits))] + rest ==>
                sym == sent && todo == rest
    {
      Pow2Mono(nbits, 23);
      Pow2Values();
      sym := DecodeUniform(Pow2(nbits), sent, rest);
    }

    /** The 64-symbol fine lag, located without the shared frequency search. */
    method Decode64FineSym(ghost sent: nat, ghost rest: seq<Sym>) returns (sym: nat)
      requires Valid()
      modifies this
      ensures Valid() && Err == old(Err) && pos == old(pos) && rawTodo == old(rawTodo)
      ensures sym < 64
      ensures sent < 64 && old(todo) == [Sym(sent, sent + 1, 64)] + rest ==> sym == sent && todo == rest
    {
      ext := rng / 64;
      var s := val / ext;
      sym := Max(63 - s, 0);
      PromiseKept();
      FineTarget(rng, val);
      hide Valid, Step, Target, Run;
      Update(sym, sym + 1, 64);
    }

    method RefillByte(window: uint32, available: nat) returns (window': uint32, available': nat)
      requires Windowed(window, available, endOffs) && available <= 24
      modifies `endOffs
      ensures Windowed(window', available', endOffs) && available' == available + 8
    {
      AheadByte(buf, pos, available);
      var b := ReadByteFromEnd();
      GrowFits(ahead, available, b);
      // The byte lands above the bits in use, so OR-ing it in is a sum.
      window' := window + Pow2(available) * b;
      available' := available + 8;
    }

    /** Refills the raw window a byte at a time until more than 24 bits are on hand. */
    method Refill(window: uint32, available: nat) returns (window': uint32, available': nat)
      requires Windowed(window, available, endOffs) && available <= 24
      modifies `endOffs
      ensures Windowed(window', available', endOffs) && available' > 24
    {
      window', available' := RefillByte(window, available);
      while available' <= 24
        invariant Windowed(window', available', endOffs)
        decreases 32 - available'
      {
        window', available' := RefillByte(window', available');
      }
    }

    /** Takes the next n raw bits. */
    method BitsN(n: nat) returns (ret: nat)
      requires Valid() && n <= 25
      modifies this
      ensures Valid() && Err == old(Err) && c == old(c) && todo == old(todo)
      ensures pos == old(pos) + n && ret < Pow2(n)
      ensures rawTodo == PoppedRaw(old(rawTodo), n)
      ensures old(rawTodo) != [] && old(rawTodo)[0].n == n ==> ret == old(rawTodo)[0].v
    {
      var window, available := endWindow, nendBits;
      if available < n {
        window, available := Refill(window, available);
      }
      ret := TakeBits(window, available, n);
      nbitsTotal := nbitsTotal + n;
    }

    method TakeBits(window: uint32, available: nat, n: nat) returns (ret: nat)
      requires Windowed(window, available, endOffs) && n <= available
      requires AllFit(rawTodo) && ahead % Pow2(Bits(rawTodo)) == Packed(rawTodo)
      modifies `endWindow, `nendBits, `pos, `ahead, `rawTodo
      ensures RawOk() && pos == old(pos) + n && ret < Pow2(n)
      ensures rawTodo == PoppedRaw(old(rawTodo), n)
      ensures old(rawTodo) != [] && old(rawTodo)[0].n == n ==> ret == old(rawTodo)[0].v
    {
      TakeStep(Tail(buf, |buf|), pos, ahead, available, n);
      TakePromised(ahead, rawTodo, n);
      ret := window % Pow2(n);
      endWindow := Shr(window, n);
      nendBits := available - n;
      rawTodo := PoppedRaw(rawTodo, n);
      ahead := Shr(ahead, n);
      pos := pos + n;
    }

    /** The integer that EncodeUint wrote; a value past the end is clamped and flagged. */
    method DecodeUint(ft0: nat, ghost sent: nat) returns (v: nat)
      requires Valid() && sent < ft0 && 1 < ft0 <= 0x1_0000_0000
      modifies this
      ensures Valid() && v < ft0
      ensures old(todo) != [] && old(todo)[0] == UintSym(sent, ft0) && UintRaws(sent, ft0) <= old(rawTodo) ==>
                && v == sent && Err == old(Err) && todo == old(todo)[1..]
                && rawTodo == old(rawTodo)[|UintRaws(sent, ft0)|..]
    {
      hide Valid, Pow2, Ilog;
      var ft := ft0 - 1;
      var ftb := Ilog(ft);
      UintParts(sent, ft0);
      if ftb > 8 {
        ftb := ftb - 8;
        UintJoin(sent, ftb);
        var t := Shr(ft, ftb) + 1;
        var s := DecodeUniform(t, Shr(sent, ftb), if todo == [] then [] else todo[1..]);
        var low := BitsN(ftb);
        v := Join(s, low, ftb);
        if v > ft {
          Err := 1;
          v := ft;
        }
      } else {
        v := DecodeUniform(ft0, sent, if todo == [] then [] else todo[1..]);
      }
    }
  }

  /** s << n | low, for a low part of n bits. */
  function Join(s: nat, low: nat, n: nat): nat {
    s * Pow2(n) + low
  }

  function PoppedRaw(fs: seq<Raw>, n: nat): seq<Raw> {
    if fs != [] && fs[0].n == n then fs[1..] else []
  }

  lemma GrowFits(ahead: nat, available: nat, b: byte)
    requires available <= 24 && Shr(ahead, available) % 256 == b
    ensures 0 <= ahead % Pow2(available) + Pow2(available) * b < 0x1_0000_0000
    ensures ahead % Pow2(available) + Pow2(available) * b == ahead % Pow2(available + 8)
  {
    WindowGrow(ahead, available, b);
    Pow2AtMost32(available + 8);
    DivAtMost(ahead, Pow2(available + 8));
  }

  /** Shifting n bits out of the window shifts them out of the number ahead. */
  lemma TakeStep(tail: nat, pos: nat, ahead: nat, available: nat, n: nat)
    requires ahead == Shr(tail, pos) && n <= available
    ensures var w := ahead % Pow2(available);
            w % Pow2(n) == ahead % Pow2(n) < Pow2(n) && Shr(w, n) == Shr(ahead, n) % Pow2(available - n) <= w
    ensures Shr(ahead, n) == Shr(tail, pos + n)
  {
    WindowTake(ahead, available, n);
    DivAtMost(ahead, Pow2(n));
    DivAtMost(ahead % Pow2(available), Pow2(n));
    ShrShr(tail, pos, n);
  }

  lemma TakePromised(ahead: nat, fs: seq<Raw>, n: nat)
    requires AllFit(fs) && ahead % Pow2(Bits(fs)) == Packed(fs)
    ensures AllFit(PoppedRaw(fs, n))
    ensures Shr(ahead, n) % Pow2(Bits(PoppedRaw(fs, n))) == Packed(PoppedRaw(fs, n))
    ensures fs != [] && fs[0].n == n ==> ahead % Pow2(n) == fs[0].v
  {
    if fs != [] && fs[0].n == n {
      assert fs == [fs[0]] + fs[1..];
      TakeField(ahead, fs[0], fs[1..]);
    } else {
      assert Pow2(0) == 1;
    }
  }

  lemma FineTarget(rng: nat, val: nat)
    requires BOT < rng && val < rng
    ensures rng / 64 > 0 && Max(63 - val / (rng / 64), 0) == Target(rng, val, 64)
  {
    DivAtMost(val, rng / 64);
  }

  /** A uniform integer is its leading part, shifted, plus its raw field. */
  lemma UintJoin(v: nat, n: nat)
    ensures 0 <= v % Pow2(n) < Pow2(n) && Shr(v, n) * Pow2(n) + v % Pow2(n) == v
  {
    DivAtMost(v, Pow2(n));
  }

  /** The byte the refill reads next is the next eight bits ahead of the window. */
  lemma AheadByte(s: seq<byte>, pos: nat, available: nat)
    requires (pos + available) % 8 == 0
    ensures Shr(Shr(Tail(s, |s|), pos), available) % 256 == BackByte(s, Min((pos + available) / 8, |s|))
  {
    ShrShr(Tail(s, |s|), pos, available);
    TailDigit(s, (pos + available) / 8);
  }

  lemma UniqueSymbol(cdf: seq<uint16>, k: nat, fs: nat)
    requires Cumulative(cdf) && k + 1 < |cdf| && cdf[k] <= cdf[0] + fs < cdf[k + 1]
    ensures forall j :: HasSymbol(cdf, j) && CdfSym(cdf, j).fl <= fs < CdfSym(cdf, j).fh ==> j == k
  {
  }

  /** Taking the symbol keeps the code inside what is still promised. */
  lemma RunStep(c: Interval, todo: seq<Sym>, t: Sym, s: seq<byte>)
    requires BOT < c.rng <= TOP && AllCodable(todo) && t.Codable()
    requires Inside(Run(c, todo), s) && Inside(Narrow(c, t), s)
    ensures AllCodable(Popped(todo, t)) && Inside(Run(Step(c, t), Popped(todo, t)), s)
  {
    NarrowFits(c.rng, t);
    RenormInside(Narrow(c, t), s);
  }

  /** Three renormalisations take the first seven bits to the encoder's starting interval. */
  lemma FirstByte(s: seq<byte>)
    ensures Head(s, 1) == ByteAt(s, 0)
    ensures Renorm(Interval(1, 0, 128)) == Ahead(START)
  {
    assert Head(s, 0) == 0;
    assert Renorm(Interval(3, 0, BOT)) == Interval(4, 0, TOP);
    assert Renorm(Interval(2, 0, 0x8000)) == Interval(4, 0, TOP);
  }

  lemma NextVal(low: nat, rng: nat, w: nat, val: nat, b: byte)
    requires val == low + rng - 1 - w && val < rng <= BOT
    ensures (val * 256 + (255 - b)) % TOP == 256 * low + 256 * rng - 1 - (256 * w + b) < 256 * rng
  {
  }

  lemma NextWindow(s: seq<byte>, m: nat)
    requires m >= 1
    ensures var sym := (ByteAt(s, m - 1) * 256 + ByteAt(s, m)) / 2;
            Head(s, m + 1) / 2 == 256 * (Head(s, m) / 2) + sym % 256
  {
    var h, a, b := Head(s, m - 1), ByteAt(s, m - 1) as int, ByteAt(s, m) as int;
    assert Head(s, m) == 256 * h + a;
    assert Head(s, m + 1) == 256 * (256 * h + a) + b;
    hide *;
    TwoBytes(h, a, b);
  }

  lemma TwoBytes(h: nat, a: int, b: int)
    requires 0 <= a < 256 && 0 <= b < 256
    ensures (256 * (256 * h + a) + b) / 2 == 256 * ((256 * h + a) / 2) + (a * 256 + b) / 2 % 256
  {
    DivModUnique(256 * h + a, 2, 128 * h + a / 2, a % 2);
  }

  lemma {:induction false} RenormAhead(c: Interval)
    requires 0 < c.rng <= TOP
    ensures Renorm(Ahead(c)) == Ahead(Renorm(c))
    decreases TOP - c.rng
  {
    if c.rng <= BOT {
      RenormAhead(Interval(c.n + 1, 256 * c.low, 256 * c.rng));
    }
  }

  /** A promised symbol is the one whose range the decoder reports. */
  lemma Promised(c: Interval, todo: seq<Sym>, s: seq<byte>, val: nat)
    requires AllCodable(todo) && BOT < c.rng <= TOP && todo != []
    requires Inside(Run(c, todo), s)
    requires val == c.low + c.rng - 1 - Window(s, c.n)
    ensures todo[0].fl <= Target(c.rng, val, todo[0].ft) < todo[0].fh
  {
    RunInside(c, todo, s);
    FirstInside(c, todo, s);
    TargetExact(c, todo[0], s, val);
  }
}
