/**
 * The range coder as interval arithmetic on unbounded integers (RFC 6716, sections 4.1 and 5.1).
 *
 * An `Interval(n, low, rng)` is the set of codes [low, low + rng) written in units of
 * 2^-31 * 256^-n: after n renormalisations the encoder may still finish with any code in it.
 * Nothing here is truncated to a machine word; the classes RangeEncoder and RangeDecoder keep the
 * same state in 32-bit registers and bytes, and are proved against these functions.
 */
module RangeSpec {
  import opened Arith
  import opened RawSpec

  const TOP: nat := 0x8000_0000
  const BOT: nat := 0x80_0000

  /** A symbol occupying [fl, fh) of a total of ft. */
  datatype Sym = Sym(fl: nat, fh: nat, ft: nat) {
    predicate Codable() {
      fl < fh <= ft <= BOT
    }
  }

  predicate AllCodable(ts: seq<Sym>) {
    forall i :: 0 <= i < |ts| ==> ts[i].Codable()
  }

  datatype Interval = Interval(n: nat, low: nat, rng: nat)

  const START := Interval(0, 0, TOP)

  /** The sub-interval that `t` selects; the rounding remainder goes to the symbol at zero. */
  function Narrow(c: Interval, t: Sym): (d: Interval)
    requires t.Codable() && BOT < c.rng
    ensures 0 < d.rng && d.n == c.n
    ensures c.low <= d.low && d.low + d.rng <= c.low + c.rng
  {
    var r := c.rng / t.ft;
    NarrowFits(c.rng, t);
    if t.fl > 0 then Interval(c.n, c.low + (c.rng - r * (t.ft - t.fl)), r * (t.fh - t.fl))
    else Interval(c.n, c.low, c.rng - r * (t.ft - t.fh))
  }

  function Renorm(c: Interval): (r: Interval)
    requires 0 < c.rng <= TOP
    ensures BOT < r.rng <= TOP
    decreases TOP - c.rng
  {
    if c.rng <= BOT then Renorm(Interval(c.n + 1, 256 * c.low, 256 * c.rng)) else c
  }

  function Step(c: Interval, t: Sym): (r: Interval)
    requires t.Codable() && BOT < c.rng <= TOP
    ensures BOT < r.rng <= TOP
  {
    Renorm(Narrow(c, t))
  }

  function Run(c: Interval, ts: seq<Sym>): (r: Interval)
    requires AllCodable(ts) && BOT < c.rng <= TOP
    ensures BOT < r.rng <= TOP
    decreases |ts|
  {
    if ts == [] then c else Run(Step(c, ts[0]), ts[1..])
  }

  /**
   * The symbols of an alphabet tile the interval in order: each starts where its predecessor ends, the first takes
   * what division leaves over, and every other one its exact multiple of the unit.
   */
  lemma SymbolsTile(c: Interval, a: nat, b: nat, ft: nat)
    requires 0 < a < ft <= BOT && a < b <= ft && BOT < c.rng <= TOP
    ensures Narrow(c, Sym(0, a, ft)).low == c.low && Narrow(c, Sym(0, a, ft)).n == c.n
    ensures Narrow(c, Sym(0, a, ft)).rng == c.rng - c.rng / ft * (ft - a)
    ensures Narrow(c, Sym(a, b, ft)).low == c.low + Narrow(c, Sym(0, a, ft)).rng
    ensures Narrow(c, Sym(a, b, ft)).rng == c.rng / ft * (b - a)
    ensures Narrow(c, Sym(a, b, ft)).low + Narrow(c, Sym(a, b, ft)).rng == c.low + Narrow(c, Sym(0, b, ft)).rng
    ensures Narrow(c, Sym(a, ft, ft)).low + Narrow(c, Sym(a, ft, ft)).rng == c.low + c.rng
  {
    var r := c.rng / ft;
    assert r * (ft - a) == r * (ft - b) + r * (b - a);
    NarrowFits(c.rng, Sym(0, a, ft));
    NarrowFits(c.rng, Sym(a, b, ft));
    NarrowFits(c.rng, Sym(0, b, ft));
    NarrowFits(c.rng, Sym(a, ft, ft));
  }

  lemma NarrowFits(rng: nat, t: Sym)
    requires t.Codable() && BOT < rng
    ensures rng / t.ft >= 1
    ensures 0 <= rng / t.ft * (t.ft - t.fh) < rng
    ensures 0 <= rng / t.ft * (t.ft - t.fl) <= rng
    ensures 1 <= rng / t.ft * (t.fh - t.fl) <= rng
    ensures rng / t.ft * (t.fh - t.fl) == rng / t.ft * (t.ft - t.fl) - rng / t.ft * (t.ft - t.fh)
  {
    var r := rng / t.ft;
    QuotientAtLeast(rng, t.ft, 1);
    DivMulBounds(rng, t.ft);
    MulSub(r, t.ft, t.fl);
    MulSub(r, t.ft, t.fh);
    MulSub(r, t.fh, t.fl);
    MulOrder(r, 1, t.fh - t.fl);
    MulOrder(r, 0, t.fl);
    MulOrder(r, 0, t.ft - t.fh);
    MulOrder(r, t.fh, t.ft);
  }

  lemma {:induction false} RunAppend(c: Interval, ts: seq<Sym>, t: Sym)
    requires AllCodable(ts) && t.Codable() && BOT < c.rng <= TOP
    ensures Run(c, ts + [t]) == Step(Run(c, ts), t)
    decreases |ts|
  {
    if ts == [] {
      assert ts + [t] == [t] && [t][1..] == [];
      assert Run(Step(c, t), []) == Step(c, t);
    } else {
      assert (ts + [t])[1..] == ts[1..] + [t];
      RunAppend(Step(c, ts[0]), ts[1..], t);
    }
  }

  // ---- Codes: byte strings read as binary fractions, zero-extended on the right ----

  function ByteAt(s: seq<byte>, i: nat): byte {
    if i < |s| then s[i] else 0
  }

  /** The first k bytes of s, big endian. */
  function Head(s: seq<byte>, k: nat): nat {
    if k == 0 then 0 else 256 * Head(s, k - 1) + ByteAt(s, k - 1)
  }

  /** The 8n + 31 leading bits of s: what a decoder sees after n renormalisations. */
  function Window(s: seq<byte>, n: nat): nat {
    Head(s, n + 4) / 2
  }

  predicate Inside(c: Interval, s: seq<byte>) {
    c.low <= Window(s, c.n) < c.low + c.rng
  }

  lemma {:induction false} HeadPrefix(s: seq<byte>, t: seq<byte>, k: nat)
    requires k <= |s| && k <= |t| && s[..k] == t[..k]
    ensures Head(s, k) == Head(t, k)
  {
    if k > 0 {
      assert s[..k - 1] == s[..k][..k - 1] == t[..k - 1];
      assert s[k - 1] == s[..k][k - 1] == t[k - 1];
      HeadPrefix(s, t, k - 1);
    }
  }

  /** Whatever follows the first m bytes moves the value by less than one unit of byte m. */
  lemma {:induction false} HeadExtend(s: seq<byte>, m: nat, k: nat)
    ensures Head(s, m) * Pow2(8 * k) <= Head(s, m + k) < (Head(s, m) + 1) * Pow2(8 * k)
  {
    if k > 0 {
      HeadExtend(s, m, k - 1);
      Pow2Add(8 * (k - 1), 8);
      Pow2Values();
      ExtendByte(Head(s, m), Pow2(8 * (k - 1)), Head(s, m + k - 1), ByteAt(s, m + k - 1));
    }
  }

  lemma ExtendByte(a: nat, p: nat, h: nat, b: byte)
    requires a * p <= h < (a + 1) * p
    ensures a * (p * 256) <= 256 * h + b < (a + 1) * (p * 256)
  {
    assert a * (p * 256) == 256 * (a * p);
    assert (a + 1) * (p * 256) == 256 * ((a + 1) * p);
  }

  /** The whole of s as a number. */
  function Value(s: seq<byte>): nat {
    Head(s, |s|)
  }

  function Repeat(b: byte, k: nat): seq<byte> {
    seq(k, _ => b)
  }

  lemma ValuePush(s: seq<byte>, b: byte)
    ensures Value(s + [b]) == 256 * Value(s) + b
  {
    HeadPrefix(s + [b], s, |s|);
  }

  /** A run of pending 0xFF bytes is one short of a carry; a carry turns it into zeros. */
  lemma {:induction false} ValueRuns(s: seq<byte>, k: nat)
    ensures Value(s + Repeat(255, k)) + 1 == (Value(s) + 1) * Pow2(8 * k)
    ensures Value(s + Repeat(0, k)) == Value(s) * Pow2(8 * k)
  {
    if k == 0 {
      assert s + Repeat(255, 0) == s == s + Repeat(0, 0);
    } else {
      ValueRuns(s, k - 1);
      assert s + Repeat(255, k) == (s + Repeat(255, k - 1)) + [255];
      assert s + Repeat(0, k) == (s + Repeat(0, k - 1)) + [0];
      ValuePush(s + Repeat(255, k - 1), 255);
      ValuePush(s + Repeat(0, k - 1), 0);
      Pow2Add(8 * (k - 1), 8);
      Pow2Values();
      ScaleBy256(Value(s), Pow2(8 * (k - 1)));
    }
  }

  lemma ScaleBy256(v: nat, p: nat)
    ensures (v + 1) * (p * 256) == 256 * ((v + 1) * p)
    ensures v * (p * 256) == 256 * (v * p)
  {
  }

  lemma WindowStep(s: seq<byte>, n: nat)
    ensures Window(s, n + 1) == 256 * Window(s, n) + (Head(s, n + 4) % 2 * 128 + ByteAt(s, n + 4) / 2)
  {
    var h, b := Head(s, n + 4), ByteAt(s, n + 4) as int;
    assert Head(s, n + 5) == 256 * h + b;
    assert h == 2 * (h / 2) + h % 2;
    assert b == 2 * (b / 2) + b % 2;
  }

  // ---- Cumulative tables ----

  predicate Cumulative(cdf: seq<uint16>) {
    forall i, j :: 0 <= i <= j < |cdf| ==> cdf[i] <= cdf[j]
  }

  /** A table that codes every one of its |cdf| - 1 symbols. */
  predicate Strict(cdf: seq<uint16>) {
    && |cdf| >= 2 && Cumulative(cdf)
    && forall i, j :: 0 <= i < j < |cdf| ==> cdf[i] < cdf[j]
  }

  function CdfSym(cdf: seq<uint16>, k: nat): Sym
    requires Cumulative(cdf) && k + 1 < |cdf|
  {
    Sym(cdf[k] - cdf[0], cdf[k + 1] - cdf[0], cdf[|cdf| - 1] - cdf[0])
  }

  /** The symbol k of a strict table. */
  predicate Codes(cdf: seq<uint16>, k: int) {
    Strict(cdf) && 0 <= k < |cdf| - 1
  }

  /** True when the table has a symbol s and a non-empty total: otherwise both coders report an error. */
  predicate HasSymbol(cdf: seq<uint16>, s: int) {
    0 <= s < |cdf| - 1 && cdf[0] < cdf[|cdf| - 1]
  }

  // ---- Nesting: a code inside the last interval is inside every earlier one ----

  lemma RenormInside(c: Interval, s: seq<byte>)
    requires 0 < c.rng <= TOP
    ensures Inside(Renorm(c), s) <==> Inside(c, s)
    decreases TOP - c.rng
  {
    if c.rng <= BOT {
      WindowStep(s, c.n);
      assert 0 <= Head(s, c.n + 4) % 2 * 128 + ByteAt(s, c.n + 4) / 2 < 256;
      RenormInside(Interval(c.n + 1, 256 * c.low, 256 * c.rng), s);
    }
  }

  lemma {:induction false} RunInside(c: Interval, ts: seq<Sym>, s: seq<byte>)
    requires AllCodable(ts) && BOT < c.rng <= TOP
    requires Inside(Run(c, ts), s)
    ensures Inside(c, s)
    decreases |ts|
  {
    if ts != [] {
      RunInside(Step(c, ts[0]), ts[1..], s);
      RenormInside(Narrow(c, ts[0]), s);
    }
  }

  lemma FirstInside(c: Interval, ts: seq<Sym>, s: seq<byte>)
    requires AllCodable(ts) && BOT < c.rng <= TOP && ts != []
    requires Inside(Run(c, ts), s)
    ensures Inside(Narrow(c, ts[0]), s)
  {
    hide Narrow, Renorm, Inside;
    RunInside(Step(c, ts[0]), ts[1..], s);
    RenormInside(Narrow(c, ts[0]), s);
  }

  lemma StartInside(s: seq<byte>)
    ensures Inside(START, s)
  {
    HeadExtend(s, 0, 4);
    Pow2Values();
    assert Head(s, 0) == 0;
  }

  // ---- Decoding ----

  /** The cumulative frequency a decoder reports; `val` counts down from the top of the interval. */
  function Target(rng: nat, val: nat, ft: nat): (v: nat)
    requires 0 < ft <= rng
    ensures v < ft
  {
    DivMulBounds(rng, ft);
    ft - Min(val / (rng / ft) + 1, ft)
  }

  /** The decoder's frequency falls in a symbol's range exactly when the code lies in its sub-interval. */
  lemma TargetExact(c: Interval, t: Sym, s: seq<byte>, val: nat)
    requires t.Codable() && BOT < c.rng && Inside(c, s)
    requires val == c.low + c.rng - 1 - Window(s, c.n)
    ensures t.fl <= Target(c.rng, val, t.ft) < t.fh <==> Inside(Narrow(c, t), s)
  {
    NarrowFits(c.rng, t);
    var r := c.rng / t.ft;
    QuotientAtLeast(val, r, t.ft - t.fh);
    QuotientAtLeast(val, r, t.ft - t.fl);
  }

  lemma QuotientAtLeast(x: nat, r: nat, k: nat)
    requires r > 0
    ensures x / r >= k <==> x >= r * k
  {
    var q := x / r;
    DivMulBounds(x, r);
    if q >= k {
      assert r * q == r * k + r * (q - k);
      assert r * (q - k) >= 0;
    } else {
      assert r * k == r * q + r * (k - q);
      MulAtLeast(k - q, r);
    }
  }

  // ---- Uniqueness ----

  /** Two symbols of one alphabet that share a code overlap, so disjoint symbols decode differently. */
  lemma CodesSeparateSymbols(c: Interval, t: Sym, u: Sym, s: seq<byte>)
    requires t.Codable() && u.Codable() && t.ft == u.ft && BOT < c.rng
    requires Inside(Narrow(c, t), s) && Inside(Narrow(c, u), s)
    ensures t.fl < u.fh && u.fl < t.fh
  {
    TargetExact(c, t, s, c.low + c.rng - 1 - Window(s, c.n));
    TargetExact(c, u, s, c.low + c.rng - 1 - Window(s, c.n));
  }

  // ---- Uniform integers ----

  /** The symbol part of a uniform integer below ft0; below 2^8 it is all of it. */
  function UintSym(v: nat, ft0: nat): Sym
    requires v < ft0 && 1 < ft0
  {
    var ftb := Ilog(ft0 - 1);
    if ftb > 8 then Sym(Shr(v, ftb - 8), Shr(v, ftb - 8) + 1, Shr(ft0 - 1, ftb - 8) + 1)
    else Sym(v, v + 1, ft0)
  }

  function UintRaws(v: nat, ft0: nat): seq<Raw>
    requires v < ft0 && 1 < ft0
  {
    var ftb := Ilog(ft0 - 1);
    if ftb > 8 then [Raw(v % Pow2(ftb - 8), ftb - 8)] else []
  }

  /** The leading part of a number of ftb > 8 bits fits eight of them. */
  lemma LeadingPart(v: nat, ft: nat)
    requires v <= ft && Ilog(ft) > 8
    ensures v / Pow2(Ilog(ft) - 8) <= ft / Pow2(Ilog(ft) - 8) < 256
  {
    IlogExact(ft);
    Pow2Add(8, Ilog(ft) - 8);
    Pow2Values();
    QuotientOrder(v, ft, Pow2(Ilog(ft) - 8), 256);
  }

  lemma QuotientOrder(v: nat, ft: nat, p: nat, k: nat)
    requires p > 0 && v <= ft < k * p
    ensures v / p <= ft / p < k
  {
    DivMulBounds(v, p);
    assert k * p == p * k && v / p * p == p * (v / p);
    QuotientAtLeast(ft, p, k);
    QuotientAtLeast(ft, p, v / p);
  }

  lemma UintParts(v: nat, ft0: nat)
    requires v < ft0 && 1 < ft0 <= 0x1_0000_0000
    ensures UintSym(v, ft0).Codable() && AllFit(UintRaws(v, ft0)) && Ilog(ft0 - 1) <= 32
    ensures UintSym(v, ft0).ft <= 256
  {
    var ftb := Ilog(ft0 - 1);
    IlogExact(ft0 - 1);
    Pow2Values();
    if ftb > 32 {
      Pow2Mono(32, ftb - 1);
    } else if ftb > 8 {
      LeadingPart(v, ft0 - 1);
    } else {
      Pow2Mono(ftb, 8);
    }
  }
}
