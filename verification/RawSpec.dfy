/** The raw-bit stream that grows from the back of the buffer, as one little-endian integer. */
module RawSpec {
  import opened Arith

  /** An n-bit field; 25 bits is what fits a 32-bit window that may still hold 7. */
  datatype Raw = Raw(v: nat, n: nat) {
    predicate Fits() {
      n <= 25 && v < Pow2(n)
    }
  }

  predicate AllFit(fs: seq<Raw>) {
    forall i :: 0 <= i < |fs| ==> fs[i].Fits()
  }

  function Bits(fs: seq<Raw>): nat {
    if fs == [] then 0 else fs[0].n + Bits(fs[1..])
  }

  /** The fields packed least significant first. */
  function Packed(fs: seq<Raw>): nat {
    if fs == [] then 0 else fs[0].v + Pow2(fs[0].n) * Packed(fs[1..])
  }

  lemma {:induction false} PackedFits(fs: seq<Raw>)
    requires AllFit(fs)
    ensures Packed(fs) < Pow2(Bits(fs))
  {
    if fs != [] {
      PackedFits(fs[1..]);
      Pow2Add(fs[0].n, Bits(fs[1..]));
      ScaledFits(fs[0].v, Pow2(fs[0].n), Packed(fs[1..]), Pow2(Bits(fs[1..])));
    }
  }

  lemma ScaledFits(v: nat, p: nat, w: nat, q: nat)
    requires v < p && w < q
    ensures 0 <= v + p * w < p * q
  {
    assert p * (w + 1) <= p * q;
  }

  lemma PackedCons(f: Raw, fs: seq<Raw>)
    ensures Bits([f] + fs) == f.n + Bits(fs)
    ensures Packed([f] + fs) == f.v + Pow2(f.n) * Packed(fs)
  {
    assert ([f] + fs)[1..] == fs;
  }

  lemma Regroup(p: nat, a: nat, q: nat, v: nat, pq: nat)
    requires pq == p * q
    ensures p * (a + q * v) == p * a + pq * v
  {
    assert p * (q * v) == p * q * v;
  }

  lemma {:induction false} PackedAppend(fs: seq<Raw>, f: Raw)
    ensures Bits(fs + [f]) == Bits(fs) + f.n
    ensures Packed(fs + [f]) == Packed(fs) + Pow2(Bits(fs)) * f.v
  {
    if fs == [] {
      PackedCons(f, []);
      assert [f] + [] == [f] == fs + [f];
    } else {
      var g, r := fs[0], fs[1..];
      assert fs + [f] == [g] + (r + [f]);
      PackedCons(g, r + [f]);
      PackedAppend(r, f);
      Pow2Add(g.n, Bits(r));
      Regroup(Pow2(g.n), Packed(r), Pow2(Bits(r)), f.v, Pow2(Bits(fs)));
    }
  }

  // ---- Byte strings read from their end ----

  function BackByte(s: seq<byte>, i: nat): byte {
    if i < |s| then s[|s| - 1 - i] else 0
  }

  /** The last k bytes of s as a little-endian number; bytes before the string read as zero. */
  function Tail(s: seq<byte>, k: nat): nat {
    if k == 0 then 0 else Tail(s, k - 1) + Pow2(8 * (k - 1)) * BackByte(s, k - 1)
  }

  lemma {:induction false} TailBound(s: seq<byte>, k: nat)
    ensures Tail(s, k) < Pow2(8 * k)
  {
    if k > 0 {
      TailBound(s, k - 1);
      Pow2Add(8 * (k - 1), 8);
      Pow2Values();
      ScaledFits(Tail(s, k - 1), Pow2(8 * (k - 1)), BackByte(s, k - 1), 256);
    }
  }

  lemma {:induction false} TailSuffix(s: seq<byte>, t: seq<byte>, k: nat)
    requires k <= |s| && k <= |t| && s[|s| - k..] == t[|t| - k..]
    ensures Tail(s, k) == Tail(t, k)
  {
    if k > 0 {
      var u, w := s[|s| - k..], t[|t| - k..];
      assert s[|s| - (k - 1)..] == u[1..] && t[|t| - (k - 1)..] == w[1..];
      assert s[|s| - k] == u[0] == w[0] == t[|t| - k];
      TailSuffix(s, t, k - 1);
    }
  }

  lemma TailPrepend(b: byte, s: seq<byte>)
    ensures Tail([b] + s, |s| + 1) == Tail(s, |s|) + Pow2(8 * |s|) * b
  {
    var t := [b] + s;
    assert t[|t| - |s|..] == s == s[|s| - |s|..];
    TailSuffix(t, s, |s|);
  }

  lemma AddMultiple(x: nat, p: nat, q: nat, b: nat)
    requires p > 0
    ensures (x + p * q * b) % p == x % p
  {
    assert x + p * q * b == (x / p + q * b) * p + x % p by {
      assert p * q * b == q * b * p;
    }
    DivModUnique(x + p * q * b, p, x / p + q * b, x % p);
  }

  /** Reading more bytes does not disturb the low ones. */
  lemma {:induction false} TailMod(s: seq<byte>, k: nat, m: nat)
    requires k <= m
    ensures Tail(s, m) % Pow2(8 * k) == Tail(s, k)
  {
    TailBound(s, k);
    if k == m {
      DivModUnique(Tail(s, k), Pow2(8 * k), 0, Tail(s, k));
    } else {
      TailMod(s, k, m - 1);
      Pow2Add(8 * k, 8 * (m - 1 - k));
      AddMultiple(Tail(s, m - 1), Pow2(8 * k), Pow2(8 * (m - 1 - k)), BackByte(s, m - 1));
    }
  }

  /** The byte found k places from the end, zero before the start. */
  lemma TailDigit(s: seq<byte>, k: nat)
    ensures Tail(s, |s|) / Pow2(8 * k) % 256 == BackByte(s, k)
  {
    if k < |s| {
      TailDigitInside(s, k);
    } else {
      TailBound(s, |s|);
      Pow2Mono(8 * |s|, 8 * k);
      DivModUnique(Tail(s, |s|), Pow2(8 * k), 0, Tail(s, |s|));
    }
  }

  lemma TailDigitInside(s: seq<byte>, k: nat)
    requires k < |s|
    ensures Tail(s, |s|) / Pow2(8 * k) % 256 == BackByte(s, k)
  {
    var p, b := Pow2(8 * k), BackByte(s, k) as nat;
    Pow2Add(8 * k, 8);
    Pow2Values();
    assert Pow2(8 * (k + 1)) == p * 256;
    TailMod(s, k + 1, |s|);
    ModOfProduct(Tail(s, |s|), p, 256);
    TailBound(s, k);
    assert Tail(s, k + 1) == b * p + Tail(s, k);
    DivModUnique(Tail(s, k + 1), p, b, Tail(s, k));
  }

  /** The fields are the low bits of the string read from its back. */
  predicate Holds(s: seq<byte>, fs: seq<Raw>) {
    Tail(s, |s|) % Pow2(Bits(fs)) == Packed(fs)
  }

  // ---- What a decoder that shifts fields out of a window sees ----

  /**
   * A window of `a` bits over the number `rest` yields its low n bits, and what is left of the
   * window is the window over what is left of the number.
   */
  lemma WindowTake(rest: nat, a: nat, n: nat)
    requires n <= a
    ensures rest % Pow2(a) % Pow2(n) == rest % Pow2(n)
    ensures rest % Pow2(a) / Pow2(n) == rest / Pow2(n) % Pow2(a - n)
  {
    Pow2Add(n, a - n);
    ModOfProduct(rest, Pow2(n), Pow2(a - n));
  }

  lemma WindowGrow(rest: nat, a: nat, b: byte)
    requires rest / Pow2(a) % 256 == b
    ensures rest % Pow2(a + 8) == rest % Pow2(a) + Pow2(a) * b
  {
    Pow2Add(a, 8);
    Pow2Values();
    DivDiv(rest, Pow2(a), 256);
  }

  lemma TakeField(rest: nat, f: Raw, fs: seq<Raw>)
    requires f.Fits() && rest % Pow2(Bits([f] + fs)) == Packed([f] + fs)
    ensures rest % Pow2(f.n) == f.v
    ensures rest / Pow2(f.n) % Pow2(Bits(fs)) == Packed(fs)
  {
    PackedCons(f, fs);
    var p, q, w := Pow2(f.n), Pow2(Bits(fs)), Packed(fs);
    Pow2Add(f.n, Bits(fs));
    TakeLow(rest, p, q, f.v, w);
  }

  lemma TakeLow(rest: nat, p: nat, q: nat, v: nat, w: nat)
    requires v < p && q > 0
    requires p * q > 0 && rest % (p * q) == v + p * w
    ensures rest % p == v && rest / p % q == w
  {
    ModOfProduct(rest, p, q);
    DivModUnique(v + p * w, p, w, v);
  }
}
