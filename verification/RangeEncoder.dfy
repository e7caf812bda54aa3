/** The 32-bit range encoder with byte-wise carry propagation and a two-ended buffer. */
module RangeEncoding {
  import opened Arith
  import opened RangeSpec
  import opened RawSpec

  /** The bytes a pending state stands for before any later carry: written bytes, `rem`, then 0xFF runs. */
  function Pending(front: seq<byte>, rem: int, ext: nat): seq<byte>
    requires -1 <= rem < 256
  {
    front + (if rem >= 0 then [rem as byte] else []) + Repeat(255, ext)
  }

  /** Every code that starts with these bytes, whatever follows them, lies inside the interval. */
  ghost predicate Settles(front: seq<byte>, c: Interval) {
    forall s: seq<byte> :: front <= s ==> Inside(c, s)
  }

  /** Leading bits of the final code: as many as it takes for all that may follow them to stay inside. */
  function EndBits(low: nat, rng: nat): (l: nat)
    requires BOT < rng <= TOP
    ensures l <= 9
  {
    RangeBits(rng);
    var m := Pow2(Ilog(rng) - 1);
    32 - Ilog(rng) + (if RoundUp(low, m) - low + m > rng then 1 else 0)
  }

  /** Bytes in front once the interval is flushed. */
  function FlushedBytes(c: Interval): nat
    requires BOT < c.rng <= TOP
  {
    c.n + (EndBits(c.low, c.rng) + 7) / 8
  }

  class RangeEncoder {
    const buf: array<byte>
    var endOffs: nat
    var endWindow: uint32
    var nendBits: nat
    var nbitsTotal: nat
    var offs: nat
    var rng: uint32
    var val: uint32
    var ext: nat
    var rem: int
    var err: int

    /** Every symbol and raw field accepted so far. */
    ghost var trace: seq<Sym>
    ghost var raws: seq<Raw>
    /** The bytes handed to either end, including any that an overfull buffer dropped. */
    ghost var front: seq<byte>
    ghost var back: seq<byte>
    /** A symbol was refused; the only other error is a full buffer. */
    ghost var failed: bool

    ghost predicate BufferOk()
      reads `offs, `endOffs, `rem, `err, `front, `back, `failed, buf
    {
      && buf.Length < 0x1_0000_0000
      && offs + endOffs <= buf.Length
      && -1 <= rem < 256
      && (rem < 0 ==> front == [])
      && err == (if !failed && |front| + |back| <= buf.Length then 0 else -1)
      && (err == 0 ==> buf[..offs] == front && buf[buf.Length - endOffs..] == back)
    }

    ghost function Digits(): seq<byte>
      reads `front, `rem, `ext
      requires -1 <= rem < 256
    {
      Pending(front, rem, ext)
    }

    ghost function Code(): Interval
      reads `trace
      requires AllCodable(trace)
    {
      Run(START, trace)
    }

    /** A carry can still be absorbed unless `rem` is missing or saturated. */
    ghost predicate CarryRoom()
      reads `rem, `val, `rng
    {
      (rem < 0 || rem == 255) ==> val + rng <= TOP
    }

    /** The registers denote the interval `c`, before renormalisation. */
    ghost predicate Denotes(c: Interval)
      reads `offs, `endOffs, `rem, `ext, `rng, `val, `err, `front, `back, `failed, buf
    {
      && BufferOk()
      && 0 < rng <= TOP && val + rng < 2 * TOP
      && CarryRoom()
      && c == Interval(|Digits()|, TOP * Value(Digits()) + val, rng)
    }

    ghost predicate RawOk()
      reads `raws, `nendBits, `endWindow, `back
    {
      && AllFit(raws)
      && nendBits <= 32 && endWindow < Pow2(nendBits)
      && Bits(raws) == 8 * |back| + nendBits
      && Packed(raws) == Tail(back, |back|) + Pow2(8 * |back|) * endWindow
    }

    ghost predicate Valid()
      reads this, buf
    {
      && AllCodable(trace)
      && BOT < rng
      && Denotes(Code())
      && RawOk()
      && nbitsTotal == 33 + 8 * Code().n + Bits(raws)
    }

    constructor (size: nat)
      requires size < 0x1_0000_0000
      ensures Valid() && fresh(buf) && buf.Length == size
      ensures trace == [] && raws == [] && err == 0 && !failed
    {
      var b := new byte[size](_ => 0);
      buf := b;
      endOffs, endWindow, nendBits, nbitsTotal := 0, 0, 0, 33;
      offs, rng, val, ext, rem, err := 0, TOP, 0, 0, -1, 0;
      trace, raws, front, back, failed := [], [], [], [], false;
      new;
      assert Digits() == [];
    }

    method WriteByte(b: nat)
      requires BufferOk() && rem >= 0
      modifies this`offs, this`err, this`front, buf
      ensures BufferOk()
      ensures front == old(front) + [b % 256]
      ensures err == (if old(err) == 0 && old(offs) + endOffs < buf.Length then 0 else -1)
    {
      if offs + endOffs < buf.Length {
        buf[offs] := b % 256;
        offs := offs + 1;
      } else {
        err := -1;
      }
      front := front + [b % 256];
    }

    method WriteByteAtEnd(b: byte)
      requires BufferOk()
      modifies this`endOffs, this`err, this`back, buf
      ensures BufferOk()
      ensures back == [b] + old(back)
      ensures err == (if old(err) == 0 && offs + old(endOffs) < buf.Length then 0 else -1)
    {
      if offs + endOffs < buf.Length {
        endOffs := endOffs + 1;
        buf[buf.Length - endOffs] := b;
      } else {
        err := -1;
      }
      back := [b] + back;
    }

    /** Writes the pending 0xFF bytes, as `sym` once the carry is known. */
    method WriteRuns(sym: byte)
      requires BufferOk() && rem >= 0
      modifies this`offs, this`ext, this`err, this`front, buf
      ensures BufferOk() && ext == 0
      ensures front == old(front) + Repeat(sym, old(ext))
      ensures old(err) != 0 ==> err != 0
    {
      assert Repeat(sym, 0) == [];
      while ext > 0
        invariant BufferOk() && ext <= old(ext)
        invariant front == old(front) + Repeat(sym, old(ext) - ext)
        invariant old(err) != 0 ==> err != 0
      {
        WriteByte(sym);
        ext := ext - 1;
        assert Repeat(sym, old(ext) - ext) == Repeat(sym, old(ext) - ext - 1) + [sym];
      }
    }

    /** Writes the pending bytes out with the carry applied, and keeps `low` pending instead. */
    method Settle(carry: nat, low: byte)
      requires BufferOk()
      requires carry == 0 || (carry == 1 && 0 <= rem < 255)
      modifies this`offs, this`rem, this`ext, this`err, this`front, buf
      ensures BufferOk() && rem == low && ext == 0
      ensures front == old(Carried(front, rem, ext, carry))
      ensures old(err) != 0 ==> err != 0
    {
      if rem >= 0 {
        WriteByte(rem + carry);
      }
      rem := low;
      WriteRuns((255 + carry) % 256);
    }

    /** Appends one base-256 digit that may carry into the pending ones. */
    method CarryOut(c: nat)
      requires BufferOk()
      requires c < 512 && (c < 256 || 0 <= rem < 255)
      modifies this`offs, this`rem, this`ext, this`err, this`front, buf
      ensures BufferOk()
      ensures Value(Digits()) == 256 * Value(old(Digits())) + c
      ensures |Digits()| == |old(Digits())| + 1
      ensures c == 255 ==> rem == old(rem)
      ensures c != 255 ==> rem == c % 256 && Digits() == front + [rem as byte]
      ensures old(err) != 0 ==> err != 0
    {
      if c != 255 {
        CarriedValue(front, rem, ext, c / 256, c % 256);
        Settle(c / 256, c % 256);
        assert Digits() == front + [rem as byte];
      } else {
        ghost var digits := Digits();
        ext := ext + 1;
        assert Digits() == digits + [255];
        ValuePush(digits, 255);
      }
    }

    /** Moves whole bytes out until more than 2^23 units of range are left. */
    method Normalize(ghost c: Interval)
      requires Denotes(c)
      modifies this`offs, this`rem, this`ext, this`err, this`front, this`val, this`rng, this`nbitsTotal, buf
      ensures Denotes(Renorm(c)) && BOT < rng
      ensures nbitsTotal == old(nbitsTotal) + 8 * (Renorm(c).n - c.n)
      ensures old(err) != 0 ==> err != 0
    {
      hide Head, Value, Repeat;
      ghost var cur := c;
      while rng <= BOT
        invariant Denotes(cur) && Renorm(cur) == Renorm(c)
        invariant nbitsTotal == old(nbitsTotal) + 8 * (cur.n - c.n)
        invariant old(err) != 0 ==> err != 0
        decreases TOP - rng
      {
        ShiftOut(val, rng);
        CarryOut(val / BOT);
        val := val * 256 % TOP;
        rng := rng * 256;
        nbitsTotal := nbitsTotal + 8;
        cur := Interval(cur.n + 1, 256 * cur.low, 256 * cur.rng);
      }
    }

    /** The register update of one symbol, before renormalisation. */
    method NarrowTo(fl: nat, fh: nat, ft: nat, ghost c: Interval)
      requires Sym(fl, fh, ft).Codable() && BOT < rng && Denotes(c)
      modifies this`val, this`rng
      ensures Denotes(Narrow(c, Sym(fl, fh, ft)))
    {
      NarrowFits(rng, Sym(fl, fh, ft));
      var r := rng / ft;
      if fl > 0 {
        val := val + (rng - r * (ft - fl));
        rng := r * (fh - fl);
      } else {
        rng := rng - r * (ft - fh);
      }
    }

    method Advance(fl: nat, fh: nat, ft: nat, ghost c: Interval)
      requires Sym(fl, fh, ft).Codable() && BOT < rng && Denotes(c)
      modifies this`offs, this`rem, this`ext, this`err, this`front, this`val, this`rng, this`nbitsTotal, buf
      ensures Denotes(Step(c, Sym(fl, fh, ft))) && BOT < rng
      ensures nbitsTotal == old(nbitsTotal) + 8 * (Step(c, Sym(fl, fh, ft)).n - c.n)
      ensures old(err) != 0 ==> err != 0
    {
      NarrowTo(fl, fh, ft, c);
      Normalize(Narrow(c, Sym(fl, fh, ft)));
    }

    method Fail()
      requires Valid()
      modifies this`err, this`failed
      ensures Valid() && err != 0 && failed
    {
      err, failed := -1, true;
    }

    /** Narrows the interval to the symbol [fl, fh) of ft; a zero total is the sticky error. */
    method Encode(fl: nat, fh: nat, ft: nat)
      requires Valid()
      requires ft == 0 || Sym(fl, fh, ft).Codable()
      modifies this, buf
      ensures Valid() && raws == old(raws)
      ensures trace == (if ft == 0 then old(trace) else old(trace) + [Sym(fl, fh, ft)])
      ensures old(err) != 0 || ft == 0 ==> err != 0
      ensures failed == (old(failed) || ft == 0)
    {
      hide Denotes, RawOk, Step, Run;
      if ft == 0 {
        Fail();
        return;
      }
      ghost var t := Sym(fl, fh, ft);
      RunAppend(START, trace, t);
      Advance(fl, fh, ft, Code());
      trace := trace + [t];
    }

    /** Writes a symbol of a table, or records the error when the symbol or the table is unusable. */
    method EncodeCDF(s: int, cdf: seq<uint16>)
      requires Valid() && Cumulative(cdf)
      requires HasSymbol(cdf, s) ==> cdf[s] < cdf[s + 1]
      modifies this, buf
      ensures Valid() && raws == old(raws)
      ensures trace == old(trace) + (if HasSymbol(cdf, s) then [CdfSym(cdf, s)] else [])
      ensures old(err) != 0 || !HasSymbol(cdf, s) ==> err != 0
      ensures failed == (old(failed) || !HasSymbol(cdf, s))
    {
      hide Valid;
      var n := |cdf|;
      if n < 2 || s < 0 || s + 1 >= n {
        Fail();
        return;
      }
      var base := cdf[0];
      if cdf[n - 1] <= base {
        Fail();
        return;
      }
      var ft := cdf[n - 1] - base;
      Encode(cdf[s] - base, cdf[s + 1] - base, ft);
    }

    method EncodeRawSymbol(sym: nat, nbits: nat)
      requires Valid() && nbits <= 23 && sym < Pow2(nbits)
      modifies this, buf
      ensures Valid() && raws == old(raws)
      ensures trace == old(trace) + [Sym(sym, sym + 1, Pow2(nbits))]
      ensures failed == old(failed) && (old(err) != 0 ==> err != 0)
    {
      hide Valid;
      Pow2Mono(nbits, 23);
      Pow2Values();
      Encode(sym, sym + 1, Pow2(nbits));
    }

    method Encode64FineSym(sym: nat)
      requires Valid() && sym < 64
      modifies this, buf
      ensures Valid() && raws == old(raws)
      ensures trace == old(trace) + [Sym(sym, sym + 1, 64)]
      ensures failed == old(failed) && (old(err) != 0 ==> err != 0)
    {
      Encode(sym, sym + 1, 64);
    }

    /** A uniform integer below ft0: its eight leading bits as a symbol, the rest as a raw field. */
    method EncodeUint(fl: nat, ft0: nat)
      requires Valid() && fl < ft0 && 1 < ft0 <= 0x1_0000_0000
      modifies this, buf
      ensures Valid()
      ensures trace == old(trace) + [UintSym(fl, ft0)] && raws == old(raws) + UintRaws(fl, ft0)
      ensures failed == old(failed) && (old(err) != 0 ==> err != 0)
    {
      hide Valid, Pow2, Ilog;
      UintParts(fl, ft0);
      var ft := ft0 - 1;
      var ftb := Ilog(ft);
      if ftb > 8 {
        var shift := ftb - 8;
        var t := Shr(ft, shift) + 1;
        Encode(Shr(fl, shift), Shr(fl, shift) + 1, t);
        BitsN(fl % Pow2(shift), shift);
      } else {
        Encode(fl, fl + 1, ft + 1);
      }
    }

    /** Hands whole bytes of a raw window to the back of the buffer; `x` is the number they belong to. */
    method Spill(window: uint32, used: nat, ghost x: nat) returns (window': uint32, used': nat)
      requires BufferOk() && window < Pow2(used)
      requires x == Tail(back, |back|) + Pow2(8 * |back|) * window
      modifies this`endOffs, this`err, this`back, buf
      ensures BufferOk() && used' < 8 && window' < Pow2(used')
      ensures 8 * |back| + used' == 8 * old(|back|) + used
      ensures x == Tail(back, |back|) + Pow2(8 * |back|) * window'
      ensures old(err) != 0 ==> err != 0
    {
      window', used' := window, used;
      while used' >= 8
        invariant BufferOk() && window' < Pow2(used')
        invariant 8 * |back| + used' == 8 * old(|back|) + used
        invariant x == Tail(back, |back|) + Pow2(8 * |back|) * window'
        invariant old(err) != 0 ==> err != 0
      {
        SpillByte(back, window', used');
        WriteByteAtEnd(window' % 256);
        window' := window' / 256;
        used' := used' - 8;
      }
    }

    /** Empties the window below a byte when n more bits would not fit. */
    method MakeRoom(n: nat)
      requires BufferOk() && RawOk() && n <= 25
      modifies this`endOffs, this`err, this`back, this`endWindow, this`nendBits, buf
      ensures BufferOk() && RawOk() && nendBits + n <= 32
      ensures old(err) != 0 ==> err != 0
    {
      if nendBits + n > 32 {
        endWindow, nendBits := Spill(endWindow, nendBits, Packed(raws));
      }
    }

    method PutRaw(fl: nat, n: nat)
      requires RawOk() && Raw(fl, n).Fits() && nendBits + n <= 32
      modifies this`endWindow, this`nendBits, this`raws
      ensures RawOk() && raws == old(raws) + [Raw(fl, n)]
    {
      WindowAppend(raws, back, endWindow, nendBits, Raw(fl, n));
      endWindow := Widen(endWindow, nendBits, Raw(fl, n));
      nendBits := nendBits + n;
      raws := raws + [Raw(fl, n)];
    }

    /** Appends an n-bit raw field toward the back of the buffer. */
    method BitsN(fl: nat, n: nat)
      requires Valid() && Raw(fl, n).Fits()
      modifies this, buf
      ensures Valid() && trace == old(trace)
      ensures raws == old(raws) + [Raw(fl, n)]
      ensures failed == old(failed) && (old(err) != 0 ==> err != 0)
    {
      hide Run;
      PackedAppend(raws, Raw(fl, n));
      MakeRoom(n);
      PutRaw(fl, n);
      nbitsTotal := nbitsTotal + n;
    }

    /** The shortest code, in bits, all of whose continuations stay inside the interval. */
    method ChooseEnd(ghost low: nat) returns (l: nat, end: uint32)
      requires BOT < rng <= TOP && val + rng < 2 * TOP && low >= val && (low - val) % TOP == 0
      ensures l == EndBits(low, rng)
      ensures l <= 9 && end % Pow2(31 - l) == 0
      ensures val <= end && end + Pow2(31 - l) <= val + rng
    {
      hide Pow2, Ilog, RoundUp, EndBits;
      EndMask(rng);
      EndBitsOf(val, low, rng);
      l := 32 - Ilog(rng);
      var msk := (TOP - 1) / Pow2(l);
      end := RoundUp(val, msk + 1);
      // `end` is a multiple of msk + 1, so OR-ing the mask in is a sum.
      if end + msk >= val + rng {
        HalfMask(l + 1);
        l := l + 1;
        msk := msk / 2;
        end := RoundUp(val, msk + 1);
      }
    }

    /** Emits the next eight bits of the final code. */
    method FlushByte(end: nat, l: int) returns (end': nat)
      requires BufferOk() && 0 < l <= 9 && end % Pow2(31 - l) == 0
      requires end < 2 * TOP && (end < TOP || 0 <= rem < 255)
      modifies this`offs, this`rem, this`ext, this`err, this`front, buf
      ensures BufferOk() && |Digits()| == |old(Digits())| + 1
      ensures TOP * Value(Digits()) + end' == 256 * (TOP * Value(old(Digits())) + end)
      ensures end' < TOP && if l > 8 then end' % Pow2(39 - l) == 0 else end' == 0
      ensures old(err) != 0 ==> err != 0
    {
      ShiftEnd(end, l);
      CarryOut(end / BOT);
      end' := end * 256 % TOP;
    }

    /** Writes every pending byte; the digit that pushes them out stays behind. */
    method FlushPending()
      requires BufferOk()
      modifies this`offs, this`rem, this`ext, this`err, this`front, buf
      ensures BufferOk()
      ensures Value(front) == Value(old(Digits())) && |front| == |old(Digits())|
      ensures old(err) != 0 ==> err != 0
    {
      if rem >= 0 || ext > 0 {
        CarryOut(0);
        ValuePush(front, 0);
      } else {
        assert Digits() == [] == front;
      }
    }

    /** Emits the l leading bits of the final code and then every pending byte. */
    method FlushCode(ghost c: Interval, l0: nat, end0: uint32)
      requires Denotes(c) && BOT < rng
      requires l0 <= 9 && end0 % Pow2(31 - l0) == 0
      requires val <= end0 && end0 + Pow2(31 - l0) <= val + rng
      modifies this`offs, this`rem, this`ext, this`err, this`front, buf
      ensures BufferOk() && Settles(front, c) && |front| == c.n + (l0 + 7) / 8
      ensures old(err) != 0 ==> err != 0
    {
      var l: int, end: nat := l0, end0;
      ghost var k, x := 0, TOP * Value(Digits()) + end0;
      Pow2AtLeast1(31 - l0);
      if l0 == 0 {
        EndAtZero(end0, val + rng);
      }
      while l > 0
        invariant BufferOk() && k <= 2 && -8 < l == l0 - 8 * k
        invariant |Digits()| == c.n + k
        invariant TOP * Value(Digits()) + end == Pow2(8 * k) * x
        invariant end < 2 * TOP && (end < TOP || 0 <= rem < 255)
        invariant if l > 0 then end % Pow2(31 - l) == 0 else end == 0
        invariant old(err) != 0 ==> err != 0
      {
        NextByte(k, x);
        end := FlushByte(end, l);
        l := l - 8;
        k := k + 1;
      }
      FlushPending();
      Pow2Mono(31 - 8 * k, 31 - l0);
      Continuations(front, c, k, x);
    }

    method FlushSymbols(ghost c: Interval)
      requires Denotes(c) && BOT < rng
      modifies this`offs, this`rem, this`ext, this`err, this`front, buf
      ensures BufferOk() && Settles(front, c) && |front| == FlushedBytes(c)
      ensures old(err) != 0 ==> err != 0
    {
      hide Value, Settles, EndBits;
      assert (c.low - val) % TOP == 0 by {
        DivModUnique(TOP * Value(Digits()), TOP, Value(Digits()), 0);
      }
      var l, end := ChooseEnd(c.low);
      FlushCode(c, l, end);
    }

    method ClearGap()
      requires BufferOk()
      modifies buf
      ensures BufferOk()
    {
      for i := offs to buf.Length - endOffs
        invariant BufferOk()
      {
        buf[i] := 0;
      }
    }

    /** Stores the partial raw byte in the gap; no room for it is an error. */
    method StorePartial(window: uint32, used: nat)
      requires BufferOk() && AllFit(raws) && err == 0 && used < 8 && window < Pow2(used)
      requires Bits(raws) == 8 * |back| + used
      requires Packed(raws) == Tail(back, |back|) + Pow2(8 * |back|) * window
      modifies this`err, buf
      ensures err == 0 ==> BufferOk() && Holds(buf[..], raws)
      ensures err == 0 <==> |front| + (Bits(raws) + 7) / 8 <= buf.Length
    {
      hide Pow2, Bits, Packed, Tail, Holds;
      Pow2Values();
      if used > 0 {
        if endOffs >= buf.Length - offs {
          err := -1;
          return;
        }
        // The byte was just cleared, so OR-ing the window in stores it.
        Pow2Mono(used, 8);
        buf[buf.Length - endOffs - 1] := window;
        assert buf[buf.Length - endOffs..] == back;
        assert buf[..offs] == front;
      }
      PackedFits(raws);
      assert buf[..][|buf[..]| - |back|..] == buf[buf.Length - endOffs..];
      StoredHolds(buf[..], raws, back, window, used);
    }

    method FlushRaw()
      requires BufferOk() && RawOk()
      modifies this`endOffs, this`err, this`back, buf
      ensures old(err) != 0 ==> err != 0
      ensures offs + endOffs <= buf.Length
      ensures err == 0 ==> buf[..offs] == front && Holds(buf[..], raws)
      ensures err == 0 <==> !failed && |front| + (Bits(raws) + 7) / 8 <= buf.Length
      ensures err == 0 && raws == [] ==> endOffs == 0
    {
      var window, used := Spill(endWindow, nendBits, Packed(raws));
      if err == 0 {
        ClearGap();
        StorePartial(window, used);
      }
    }

    /**
     * Flushes both streams. A zero error means that the buffer decodes, whatever follows the front bytes;
     * and unless a symbol was refused, the error is zero exactly when both streams fit the buffer.
     */
    method Done()
      requires Valid()
      modifies this, buf
      ensures trace == old(trace) && raws == old(raws) && failed == old(failed)
      ensures err == 0 <==> !failed && |front| + (Bits(raws) + 7) / 8 <= buf.Length
      ensures |front| == FlushedBytes(Code()) && (err == 0 ==> offs == |front|)
      ensures offs + endOffs <= buf.Length
      ensures err == 0 ==> old(err) == 0 && Settles(buf[..offs], Code())
      ensures err == 0 ==> Holds(buf[..], raws)
      ensures err == 0 && raws == [] ==> endOffs == 0
    {
      hide Denotes, RawOk, FlushedBytes, Run;
      FlushSymbols(Code());
      FlushRaw();
    }
  }

  /** The back bytes followed by the partial byte carry exactly the packed fields. */
  lemma StoredHolds(s: seq<byte>, raws: seq<Raw>, back: seq<byte>, window: nat, used: nat)
    requires used < 8 && Packed(raws) < Pow2(Bits(raws)) && Bits(raws) == 8 * |back| + used
    requires Packed(raws) == Tail(back, |back|) + Pow2(8 * |back|) * window
    requires |back| <= |s| && s[|s| - |back|..] == back
    requires used > 0 ==> |back| < |s| && s[|s| - |back| - 1] == window
    requires window < Pow2(used)
    ensures Holds(s, raws)
  {
    assert back[|back| - |back|..] == back;
    TailSuffix(s, back, |back|);
    if used == 0 {
      assert window == 0;
      TailMod(s, |back|, |s|);
    } else {
      TailMod(s, |back| + 1, |s|);
      assert Tail(s, |back| + 1) == Packed(raws);
      Pow2Add(Bits(raws), 8 - used);
      ModOfProduct(Tail(s, |s|), Pow2(Bits(raws)), Pow2(8 - used));
      DivModUnique(Packed(raws), Pow2(Bits(raws)), 0, Packed(raws));
    }
  }

  lemma Pow2AtLeast1(n: nat)
    ensures Pow2(n) >= 1 && Pow2(8 * 0) == 1
  {
  }

  lemma NextByte(k: nat, x: nat)
    ensures Pow2(8 * (k + 1)) * x == 256 * (Pow2(8 * k) * x)
  {
    Pow2Add(8 * k, 8);
    Pow2Values();
    var p := Pow2(8 * k);
    assert p * 256 * x == 256 * (p * x);
  }

  /** The least multiple of m that is at least val: (val + msk) &^ msk for m = msk + 1. */
  function RoundUp(val: nat, m: nat): (r: nat)
    requires m > 0
    ensures val <= r < val + m && r % m == 0
  {
    DivMulBounds(val + m - 1, m);
    DivModUnique((val + m - 1) / m * m, m, (val + m - 1) / m, 0);
    (val + m - 1) / m * m
  }

  lemma LeastMultiple(val: nat, m: nat, e: nat)
    requires m > 0 && val <= e && e % m == 0
    ensures RoundUp(val, m) <= e
  {
    if RoundUp(val, m) > e {
      var a, b := RoundUp(val, m) / m, e / m;
      assert (a - b) * m == RoundUp(val, m) - e;
      PositiveMultiple(a - b, m);
    }
  }

  lemma PositiveMultiple(d: int, m: nat)
    requires d * m > 0
    ensures d * m >= m
  {
  }

  /** No shorter code would do: any whose continuations all stay inside has at least as many bits. */
  lemma ShortestEnd(low: nat, rng: nat, l: nat, e: nat)
    requires BOT < rng <= TOP && l <= 31 && low <= e && e % Pow2(31 - l) == 0
    requires e + Pow2(31 - l) <= low + rng
    ensures EndBits(low, rng) <= l
  {
    hide Pow2, Ilog, RoundUp;
    RangeBits(rng);
    IlogExact(rng);
    if 31 - l >= Ilog(rng) {
      Pow2Mono(Ilog(rng), 31 - l);
    }
    if l == 32 - Ilog(rng) {
      LeastMultiple(low, Pow2(31 - l), e);
    }
  }

  /** Whole turns of the code window do not move what rounding up adds. */
  lemma RoundUpShift(val: nat, turns: nat, k: nat)
    requires k <= 31
    ensures RoundUp(val + TOP * turns, Pow2(k)) == RoundUp(val, Pow2(k)) + TOP * turns
  {
    hide RoundUp, Pow2;
    Pow2Add(k, 31 - k);
    Pow2Values();
    Regroup(Pow2(k), 0, Pow2(31 - k), turns, TOP);
    RoundUpTurns(val, Pow2(k), Pow2(31 - k) * turns);
  }

  /** The carried part of the code plays no part in where it ends. */
  lemma EndBitsOf(val: nat, low: nat, rng: nat)
    requires BOT < rng <= TOP && low >= val && (low - val) % TOP == 0
    ensures 24 <= Ilog(rng) <= 32
    ensures var m := Pow2(Ilog(rng) - 1);
            EndBits(low, rng) == 32 - Ilog(rng) + if RoundUp(val, m) + m > val + rng then 1 else 0
  {
    hide Pow2, Ilog, RoundUp;
    RangeBits(rng);
    RoundUpShift(val, (low - val) / TOP, Ilog(rng) - 1);
  }

  lemma RoundUpTurns(val: nat, m: nat, turns: nat)
    requires m > 0
    ensures RoundUp(val + m * turns, m) == RoundUp(val, m) + m * turns
  {
    var x := val + m - 1;
    Distribute(x / m, turns, m);
    DivModUnique(x + m * turns, m, x / m + turns, x % m);
  }

  lemma Distribute(a: nat, b: nat, m: nat)
    ensures (a + b) * m == a * m + m * b
  {
  }

  lemma RangeBits(rng: nat)
    requires BOT < rng <= TOP
    ensures 24 <= Ilog(rng) <= 32 && Pow2(Ilog(rng) - 1) <= rng
  {
    IlogExact(rng);
    Pow2Values();
    if Ilog(rng) < 24 {
      Pow2Mono(Ilog(rng), 23);
    } else if Ilog(rng) > 32 {
      Pow2Mono(32, Ilog(rng) - 1);
    }
  }

  lemma MaskShift(p: nat, q: nat, t: nat)
    requires p > 0 && p * q == t && q > 0
    ensures t > 0 && (t - 1) / p == q - 1
  {
    assert t - 1 == (q - 1) * p + (p - 1);
    DivModUnique(t - 1, p, q - 1, p - 1);
  }

  /** The mask covers no more than the range, because its size is the top bit of the range. */
  lemma EndMask(rng: nat)
    requires BOT < rng <= TOP
    ensures 24 <= Ilog(rng) <= 32
    ensures (TOP - 1) / Pow2(32 - Ilog(rng)) + 1 == Pow2(Ilog(rng) - 1) <= rng
  {
    RangeBits(rng);
    Pow2Add(32 - Ilog(rng), Ilog(rng) - 1);
    Pow2Values();
    MaskShift(Pow2(32 - Ilog(rng)), Pow2(Ilog(rng) - 1), TOP);
  }

  lemma HalfMask(l: nat)
    requires 1 <= l <= 9
    ensures (Pow2(32 - l) - 1) / 2 + 1 == Pow2(31 - l)
    ensures 2 * Pow2(31 - l) == Pow2(32 - l)
  {
  }

  lemma ShiftEnd(end: nat, l: int)
    requires 0 < l <= 9 && end % Pow2(31 - l) == 0 && end < 2 * TOP
    ensures end / BOT < 512 && (end < TOP ==> end / BOT < 256)
    ensures TOP * (end / BOT) + end * 256 % TOP == 256 * end
    ensures if l > 8 then end * 256 % TOP % Pow2(39 - l) == 0 else end * 256 % TOP == 0
  {
    DivModUnique(end * 256, TOP, end / BOT, 256 * (end % BOT));
    Pow2Values();
    if l > 8 {
      assert end % 0x40_0000 == 0;
      assert end * 256 % TOP % 0x4000_0000 == 0;
    } else {
      Pow2Add(31 - l, 8);
      Pow2Add(31, 8 - l);
      ShiftMultiple(end, Pow2(31 - l), TOP, Pow2(8 - l));
    }
  }

  lemma ShiftMultiple(end: nat, p: nat, t: nat, q: nat)
    requires p > 0 && t > 0 && end % p == 0 && p * 256 == t * q
    ensures end * 256 % t == 0
  {
    var e := end / p;
    assert end == e * p;
    assert end * 256 == e * q * t by {
      assert e * p * 256 == e * (p * 256);
      assert e * (t * q) == e * q * t;
    }
    DivModUnique(end * 256, t, e * q, 0);
  }

  /** A flushed code of n + k bytes fixes the window up to its last 31 - 8k bits. */
  lemma Continuations(front: seq<byte>, c: Interval, k: nat, x: nat)
    requires k <= 2 && |front| == c.n + k && TOP * Value(front) == Pow2(8 * k) * x
    requires c.low <= x && x + Pow2(31 - 8 * k) <= c.low + c.rng
    ensures Settles(front, c)
  {
    var p := Pow2(8 * (4 - k));
    Pow2Add(8 * k, 8 * (4 - k));
    Pow2Values();
    assert p == 2 * Pow2(31 - 8 * k);
    FlushScale(Value(front), Pow2(8 * k), p, x);
    hide Pow2, Head;
    forall s: seq<byte> | front <= s
      ensures Inside(c, s)
    {
      assert s[..|front|] == front == front[..|front|];
      HeadPrefix(s, front, |front|);
      HeadExtend(s, |front|, 4 - k);
      HalfInside(Value(front), p, x, Head(s, |front| + (4 - k)), c);
    }
  }

  lemma HalfInside(v: nat, p: nat, x: nat, head: nat, c: Interval)
    requires v * p <= head < (v + 1) * p && v * p == 2 * x
    requires c.low <= x && 2 * x + p <= 2 * (c.low + c.rng)
    ensures c.low <= head / 2 < c.low + c.rng
  {
    assert (v + 1) * p == v * p + p;
  }

  lemma FlushScale(v: nat, a: nat, p: nat, x: nat)
    requires TOP * v == a * x && a * p == 2 * TOP
    ensures v * p == 2 * x
  {
    assert TOP * (v * p) == a * x * p;
    assert a * x * p == a * p * x;
    assert TOP * (v * p) == TOP * (2 * x);
  }

  lemma EndAtZero(end: nat, top: nat)
    requires end % Pow2(31) == 0 && end + Pow2(31) <= top < 2 * TOP
    ensures end == 0
  {
    Pow2Values();
  }

  /** One byte moved from the window to the back of the string leaves the number unchanged. */
  lemma SpillByte(back: seq<byte>, window: nat, used: nat)
    requires used >= 8 && window < Pow2(used)
    ensures window / 256 < Pow2(used - 8)
    ensures var t := [(window % 256) as byte] + back;
            Tail(t, |t|) + Pow2(8 * |t|) * (window / 256) == Tail(back, |back|) + Pow2(8 * |back|) * window
  {
    TailPrepend((window % 256) as byte, back);
    Pow2Add(used - 8, 8);
    Pow2Add(8 * |back|, 8);
    Pow2Values();
    SplitByte(Pow2(8 * |back|), window);
  }

  lemma SplitByte(p: nat, w: nat)
    ensures p * (w % 256) + p * 256 * (w / 256) == p * w
  {
    assert p * (256 * (w / 256) + w % 256) == p * (256 * (w / 256)) + p * (w % 256);
  }

  /** The field OR-ed in above the used bits, which are clear there: the OR is a sum. */
  function Widen(window: nat, used: nat, f: Raw): (w: uint32)
    requires f.Fits() && window < Pow2(used) && used + f.n <= 32
    ensures w < Pow2(used + f.n)
  {
    Pow2AtMost32(used + f.n);
    assert 0 <= window + Pow2(used) * f.v < Pow2(used + f.n) by {
      Pow2Add(used, f.n);
      ScaledFits(window, Pow2(used), f.v, Pow2(f.n));
    }
    window + Pow2(used) * f.v
  }

  /** The window with the new field on top extends the packed number by that field. */
  lemma WindowAppend(raws: seq<Raw>, back: seq<byte>, window: nat, used: nat, f: Raw)
    requires f.Fits() && window < Pow2(used) && used + f.n <= 32
    requires Bits(raws) == 8 * |back| + used
    requires Packed(raws) == Tail(back, |back|) + Pow2(8 * |back|) * window
    ensures Bits(raws + [f]) == 8 * |back| + (used + f.n)
    ensures Packed(raws + [f]) == Tail(back, |back|) + Pow2(8 * |back|) * Widen(window, used, f)
  {
    hide Pow2, Tail, Packed, Bits;
    PackedAppend(raws, f);
    Pow2Add(8 * |back|, used);
    Regroup(Pow2(8 * |back|), window, Pow2(used), f.v, Pow2(Bits(raws)));
  }

  lemma ShiftOut(val: nat, rng: nat)
    requires val < 2 * TOP && 0 < rng <= BOT && val + rng < 2 * TOP
    ensures val / BOT < 512
    ensures val * 256 % TOP == 256 * (val - val / BOT * BOT)
    ensures TOP * (val / BOT) + val * 256 % TOP == 256 * val
    ensures val * 256 % TOP + rng * 256 < 2 * TOP
    ensures val / BOT == 511 ==> val * 256 % TOP + rng * 256 <= TOP
    ensures val + rng <= TOP ==> val / BOT < 256
    ensures val / BOT == 255 && val + rng <= TOP ==> val * 256 % TOP + rng * 256 <= TOP
  {
    DivModUnique(val * 256, TOP, val / BOT, 256 * (val % BOT));
  }

  /** The pending bytes once it is known whether a carry arrives. */
  function Carried(front: seq<byte>, rem: int, ext: nat, carry: nat): seq<byte>
    requires carry == 0 || (carry == 1 && 0 <= rem < 255)
    requires -1 <= rem < 256
  {
    front + (if rem >= 0 then [(rem + carry) as byte] else []) + Repeat((255 + carry) % 256, ext)
  }

  lemma CarriedValue(front: seq<byte>, rem: int, ext: nat, carry: nat, low: byte)
    requires carry == 0 || (carry == 1 && 0 <= rem < 255)
    requires -1 <= rem < 256
    ensures Value(Carried(front, rem, ext, carry) + [low])
         == 256 * Value(Pending(front, rem, ext)) + 256 * carry + low
    ensures |Carried(front, rem, ext, carry)| == |Pending(front, rem, ext)|
  {
    hide Pow2, Value;
    ValuePush(Carried(front, rem, ext, carry), low);
    if carry == 1 {
      ValueRuns(front + [rem as byte], ext);
      ValueRuns(front + [(rem + 1) as byte], ext);
      ValuePush(front, rem as byte);
      ValuePush(front, (rem + 1) as byte);
    } else {
      assert Carried(front, rem, ext, 0) == Pending(front, rem, ext);
    }
  }
}
