/** Where the fields of each packet stand, as big-endian numbers over its bytes. */
module PacketLaws {
  import opened Arith
  import opened Rtp
  import R = RangeSpec
  import Srtp
  import Stun
  import Red

  /** The bytes as one big-endian number. */
  function Number(s: seq<byte>): nat {
    R.Value(s)
  }

  lemma {:induction false} NumberJoin(a: seq<byte>, b: seq<byte>)
    ensures Number(a + b) == Number(a) * Pow2(8 * |b|) + Number(b)
  {
    if b == [] {
      assert a + b == a;
    } else {
      var init, last := b[..|b| - 1], b[|b| - 1];
      assert a + b == a + init + [last] && b == init + [last];
      NumberJoin(a, init);
      R.ValuePush(a + init, last);
      R.ValuePush(init, last);
      Pow2Add(8 * |init|, 8);
      Pow2Values();
      Shifted(Number(a), Pow2(8 * |init|));
    }
  }

  lemma Shifted(a: nat, p: nat)
    ensures 256 * (a * p) == a * (p * 256)
  {
  }

  lemma BeNumbers(x: uint16, y: uint32)
    ensures Number(Be16(x)) == x && Number(Be32(y)) == y
  {
    R.ValuePush([], x / 256);
    R.ValuePush([x / 256], x % 256);
    var s := Be32(y);
    R.ValuePush([], s[0]);
    R.ValuePush([s[0]], s[1]);
    R.ValuePush([s[0], s[1]], s[2]);
    R.ValuePush([s[0], s[1], s[2]], s[3]);
    assert [] + [x / 256] == [x / 256] && [x / 256] + [x % 256] == Be16(x);
    assert [] + [s[0]] == [s[0]] && [s[0]] + [s[1]] == [s[0], s[1]] && [s[0], s[1]] + [s[2]] == [s[0], s[1], s[2]];
    assert [s[0], s[1], s[2]] + [s[3]] == s;
    assert y / 0x1_0000 == y / 256 / 256 && y / 0x100_0000 == y / 0x1_0000 / 256;
  }

  // ---- RTP ----

  lemma {:induction false} CsrcsAt(cs: seq<uint32>, i: nat)
    requires i < |cs|
    ensures Csrcs(cs)[4 * i..4 * i + 4] == Be32(cs[i])
  {
    hide Be32;
    if i > 0 {
      CsrcsAt(cs[1..], i - 1);
      assert Csrcs(cs)[4 * i..4 * i + 4] == Csrcs(cs[1..])[4 * (i - 1)..4 * (i - 1) + 4];
    }
  }

  lemma RtpFields(h: RtpHeader)
    ensures var b := Bytes(h);
            && |b| >= 12 && Number(b[2..4]) == h.sequenceNumber
            && Number(b[4..8]) == h.timestamp && Number(b[8..12]) == h.ssrc
  {
    hide Be16, Be32, Csrcs, Extension, Number;
    BeNumbers(h.sequenceNumber, h.timestamp);
    BeNumbers(0, h.ssrc);
    var b := Bytes(h);
    assert b[2..4] == Be16(h.sequenceNumber) && b[4..8] == Be32(h.timestamp) && b[8..12] == Be32(h.ssrc);
  }

  /** The fixed part of a header, bit by bit and field by field. */
  lemma RtpLayout(h: RtpHeader)
    ensures var b := Bytes(h);
            && |b| >= 12
            && b[0] / 64 == h.version % 4 && (b[0] / 32 % 2 == 1 <==> h.padding)
            && (b[0] / 16 % 2 == 1 <==> h.extension) && b[0] % 16 == h.csrcCount % 16
            && (b[1] / 128 == 1 <==> h.marker) && b[1] % 128 == h.payloadType % 128
            && Number(b[2..4]) == h.sequenceNumber && Number(b[4..8]) == h.timestamp && Number(b[8..12]) == h.ssrc
  {
    hide Be16, Be32, Csrcs, Extension, Number;
    RtpFields(h);
  }

  /** The list of sources, then profile, length in words and data of the extension. */
  lemma RtpTail(h: RtpHeader, i: nat)
    ensures var b, e := Bytes(h), 12 + 4 * |h.csrc|;
            && (i < |h.csrc| ==> 16 + 4 * i <= |b| && Number(b[12 + 4 * i..16 + 4 * i]) == h.csrc[i])
            && (h.extension ==>
                  && |b| == e + 4 + |h.extensionData| && Number(b[e..e + 2]) == h.extensionProfile
                  && Number(b[e + 2..e + 4]) == |h.extensionData| / 4 % 0x1_0000 && b[e + 4..] == h.extensionData)
            && (!h.extension ==> |b| == e)
  {
    hide Be16, Be32, Fixed, Csrcs;
    var b, e := Bytes(h), 12 + 4 * |h.csrc|;
    if i < |h.csrc| {
      CsrcsAt(h.csrc, i);
      BeNumbers(0, h.csrc[i]);
      assert b[12 + 4 * i..16 + 4 * i] == Csrcs(h.csrc)[4 * i..4 * i + 4];
    }
    if h.extension {
      BeNumbers(h.extensionProfile, 0);
      BeNumbers(Words(h.extensionData), 0);
      assert b[e..e + 2] == Be16(h.extensionProfile) && b[e + 2..e + 4] == Be16(Words(h.extensionData));
    }
  }

  // ---- SRTP vectors ----

  /** x with its lowest bit at place n. */
  function At(x: nat, n: nat): nat {
    x * Pow2(n)
  }

  /** Source and index stand at bits 64 and 16 of the vector's number. */
  lemma MixedNumber(ssrc: uint32, index: nat)
    requires index < Srtp.INDICES
    ensures Number(Srtp.Mixed(ssrc, index)) == At(ssrc, 64) + At(index, 16)
  {
    hide Be16, Be32;
    var hi, lo := index / Srtp.ROLLOVERS, index % Srtp.ROLLOVERS;
    var a, b, c, d, z := [0, 0, 0, 0], Be32(ssrc), Be16(hi), Be32(lo), [0, 0];
    BeNumbers(hi, ssrc);
    BeNumbers(0, lo);
    ZeroNumbers();
    NumberJoin(a, b);
    NumberJoin(a + b, c);
    NumberJoin(a + b + c, d);
    NumberJoin(a + b + c + d, z);
    Pow2Values();
    Pow2Add(32, 16);
    Pow2Add(48, 16);
    Pow2Add(32, 16);
  }

  lemma ZeroNumbers()
    ensures Number([0, 0, 0, 0]) == 0 && Number([0, 0]) == 0
  {
    R.ValuePush([], 0);
    R.ValuePush([0], 0);
    NumberJoin([0, 0], [0, 0]);
    assert [] + [0] == [0] && [0] + [0] == [0, 0] && [0, 0] + [0, 0] == [0, 0, 0, 0];
  }

  /** Exclusive or byte by byte is exclusive or of the numbers. */
  lemma {:induction false} XorNumber(a: seq<byte>, b: seq<byte>)
    requires |a| == |b|
    ensures Number(a) < Pow2(8 * |a|)
    ensures Number(Srtp.XorAll(a, b)) == XorBits(Number(a), Number(b), 8 * |a|)
  {
    hide XorBits, R.Value;
    EmptyNumber();
    if a != [] {
      var n := |a| - 1;
      XorNumber(a[..n], b[..n]);
      assert a == a[..n] + [a[n]] && b == b[..n] + [b[n]];
      assert Srtp.XorAll(a, b) == Srtp.XorAll(a[..n], b[..n]) + [Srtp.Xor(a[n], b[n])];
      R.ValuePush(a[..n], a[n]);
      R.ValuePush(b[..n], b[n]);
      R.ValuePush(Srtp.XorAll(a[..n], b[..n]), Srtp.Xor(a[n], b[n]));
      Pow2Values();
      Pow2Add(8 * n, 8);
      XorShift(Number(a[..n]), a[n], Number(b[..n]), b[n], 8 * n, 8);
    }
  }

  lemma EmptyNumber()
    ensures Number([]) == 0 && XorBits(0, 0, 0) == 0 && Pow2(0) == 1
  {
  }

  lemma {:induction false} XorShift(a: nat, x: nat, b: nat, y: nat, n: nat, k: nat)
    requires x < Pow2(k) && y < Pow2(k)
    ensures XorBits(a * Pow2(k) + x, b * Pow2(k) + y, n + k) == XorBits(a, b, n) * Pow2(k) + XorBits(x, y, k)
  {
    if k == 0 {
      NoShift(a, x, b, y, n);
    } else {
      XorShift(a, x / 2, b, y / 2, n, k - 1);
      ShiftOnce(a, x, b, y, n, k, Pow2(k - 1));
    }
  }

  lemma NoShift(a: nat, x: nat, b: nat, y: nat, n: nat)
    requires x < Pow2(0) && y < Pow2(0)
    ensures XorBits(a * Pow2(0) + x, b * Pow2(0) + y, n) == XorBits(a, b, n) * Pow2(0) + XorBits(x, y, 0)
  {
    assert a * Pow2(0) + x == a && b * Pow2(0) + y == b;
  }

  lemma ShiftOnce(a: nat, x: nat, b: nat, y: nat, n: nat, k: nat, p: nat)
    requires k > 0
    requires XorBits(a * p + x / 2, b * p + y / 2, n + k - 1) == XorBits(a, b, n) * p + XorBits(x / 2, y / 2, k - 1)
    ensures XorBits(a * (2 * p) + x, b * (2 * p) + y, n + k) == XorBits(a, b, n) * (2 * p) + XorBits(x, y, k)
  {
    hide XorBits;
    Halves(a, x, p);
    Halves(b, y, p);
    XorStep(a * (2 * p) + x, b * (2 * p) + y, n + k);
    XorStep(x, y, k);
    assert XorBits(a, b, n) * (2 * p) == 2 * (XorBits(a, b, n) * p);
  }

  lemma XorStep(a: nat, b: nat, n: nat)
    requires n > 0
    ensures XorBits(a, b, n) == 2 * XorBits(a / 2, b / 2, n - 1) + if a % 2 == b % 2 then 0 else 1
  {
  }

  lemma Halves(a: nat, x: nat, p: nat)
    ensures (a * (2 * p) + x) / 2 == a * p + x / 2 && (a * (2 * p) + x) % 2 == x % 2
  {
    assert a * (2 * p) == 2 * (a * p);
  }

  /** The vector as a number: salt times 2^16, xor source times 2^64, xor index times 2^16. */
  lemma VectorNumber(salt: seq<byte>, ssrc: uint32, index: nat)
    requires |salt| == 14 && index < Srtp.INDICES
    ensures Number(Srtp.IV(salt, ssrc, index))
         == XorBits(At(ssrc, 64) + At(index, 16), At(Number(salt), 16), 128)
  {
    hide Srtp.XorAll, Srtp.Mixed, XorBits, Pow2, Number;
    XorNumber(Srtp.Mixed(ssrc, index), salt + [0, 0]);
    MixedNumber(ssrc, index);
    NumberJoin(salt, [0, 0]);
    ZeroNumbers();
  }

  // ---- STUN ----

  /** Type, length of what follows the header, cookie and identifier. */
  lemma StunLayout(msgType: uint16, attrs: seq<byte>, id: seq<byte>, d: Stun.Digests, keyed: bool, fp: bool)
    ensures var m := Stun.BuildStunMessage(msgType, attrs, id, d, keyed, fp);
            && |m| >= 20 && Number(m[..2]) == msgType && Number(m[2..4]) == (|m| - 20) % 0x1_0000
            && Number(m[4..8]) == 0x2112_a442 && m[8..20] == Stun.Id(id) && attrs <= m[20..]
  {
    hide Be16, Be32, Stun.Id, Stun.EncodeAttribute, Stun.Integrity, Stun.Fingerprint;
    var m := Stun.BuildStunMessage(msgType, attrs, id, d, keyed, fp);
    BeNumbers(msgType, 0x2112_a442);
    BeNumbers((|m| - 20) % 0x1_0000, 0);
    assert m[..2] == Be16(msgType) && m[4..8] == Be32(Stun.COOKIE) && m[2..4] == Be16((|m| - 20) % 0x1_0000);
  }

  /** Kind, length of the value, value, and zeros to the next multiple of four. */
  lemma AttributeLayout(kind: uint16, data: seq<byte>)
    ensures var a := Stun.EncodeAttribute(kind, data);
            && |a| % 4 == 0 && 4 + |data| <= |a| < 8 + |data|
            && Number(a[..2]) == kind && Number(a[2..4]) == |data| % 0x1_0000 && a[4..4 + |data|] == data
            && forall i :: 4 + |data| <= i < |a| ==> a[i] == 0
  {
    hide Be16;
    var a := Stun.EncodeAttribute(kind, data);
    BeNumbers(kind, 0);
    BeNumbers(|data| % 0x1_0000, 0);
    assert a[..2] == Be16(kind) && a[2..4] == Be16(|data| % 0x1_0000);
  }

  // ---- RED ----

  /** Total size of the first k frames. */
  function Before(fs: seq<Red.Frame>, k: nat): nat
    requires k <= |fs|
  {
    if k == 0 then 0 else Before(fs, k - 1) + |fs[k - 1].data|
  }

  lemma {:induction false} HeadersAt(fs: seq<Red.Frame>, i: nat)
    requires Red.Past(fs) && i < |fs|
    ensures Red.Headers(fs)[2 * i] == fs[i].timeCode + 128 && Red.Headers(fs)[2 * i + 1] == |fs[i].data|
  {
    var init := fs[..|fs| - 1];
    if i < |init| {
      HeadersAt(init, i);
    }
  }

  lemma {:induction false} BodiesAt(fs: seq<Red.Frame>, i: nat)
    requires i < |fs|
    ensures |Red.Bodies(fs)| == Before(fs, |fs|) && 0 <= Before(fs, i) <= Before(fs, i + 1) <= |Red.Bodies(fs)|
    ensures Red.Bodies(fs)[Before(fs, i)..Before(fs, i + 1)] == fs[i].data
  {
    var n := |fs| - 1;
    var init := fs[..n];
    BeforePrefix(fs, n, n);
    if i < n {
      BodiesAt(init, i);
      BeforePrefix(fs, n, i);
      BeforePrefix(fs, n, i + 1);
      assert Red.Bodies(fs) == Red.Bodies(init) + fs[n].data;
    } else if n > 0 {
      BodiesAt(init, 0);
    } else {
      assert fs[..0] == [];
    }
  }

  lemma {:induction false} BeforePrefix(fs: seq<Red.Frame>, n: nat, k: nat)
    requires k <= n <= |fs|
    ensures Before(fs[..n], k) == Before(fs, k)
  {
    if k > 0 {
      BeforePrefix(fs, n, k - 1);
    }
  }

  /** Two bytes for every older frame, one for the main one, then all data in the same order. */
  lemma RedLayout(fs: seq<Red.Frame>, i: nat)
    requires Red.Packable(fs) && i < |fs|
    ensures var p, n := Red.Pack(fs), |fs| - 1;
            var data := 2 * n + 1;
            && |p| == data + Before(fs, |fs|) && p[2 * n] == fs[n].timeCode
            && (i < n ==> p[2 * i] == 128 + fs[i].timeCode && p[2 * i + 1] == |fs[i].data|)
            && 0 <= Before(fs, i) <= Before(fs, i + 1) <= Before(fs, |fs|)
            && p[data + Before(fs, i)..data + Before(fs, i + 1)] == fs[i].data
  {
    PackHeaders(fs, i);
    PackBodies(fs, i);
  }

  lemma PackHeaders(fs: seq<Red.Frame>, i: nat)
    requires Red.Packable(fs) && i < |fs|
    ensures var p, n := Red.Pack(fs), |fs| - 1;
            && |p| > 2 * n && p[2 * n] == fs[n].timeCode
            && (i < n ==> p[2 * i] == 128 + fs[i].timeCode && p[2 * i + 1] == |fs[i].data|)
  {
    var p, n := Red.Pack(fs), |fs| - 1;
    PackParts(fs);
    if i < n {
      HeadersAt(fs[..n], i);
      hide Red.Pack, Red.Headers, Red.Packable;
      assert p[..2 * n][2 * i] == p[2 * i] && p[..2 * n][2 * i + 1] == p[2 * i + 1];
    }
  }

  lemma PackBodies(fs: seq<Red.Frame>, i: nat)
    requires Red.Packable(fs) && i < |fs|
    ensures var p, at := Red.Pack(fs), 2 * |fs| - 1;
            && |p| == at + Before(fs, |fs|) && 0 <= Before(fs, i) <= Before(fs, i + 1) <= Before(fs, |fs|)
            && p[at + Before(fs, i)..at + Before(fs, i + 1)] == fs[i].data
  {
    BodiesAt(fs, i);
    PackParts(fs);
    hide Before, Red.Bodies, Red.Headers, Red.Pack, Red.Packable;
    var p, at := Red.Pack(fs), 2 * |fs| - 1;
    assert p[at..][Before(fs, i)..Before(fs, i + 1)] == p[at + Before(fs, i)..at + Before(fs, i + 1)];
  }

  lemma PackParts(fs: seq<Red.Frame>)
    requires Red.Packable(fs)
    ensures var p, n := Red.Pack(fs), |fs| - 1;
            && |Red.Headers(fs[..n])| == 2 * n && |p| == 2 * n + 1 + |Red.Bodies(fs)|
            && p[..2 * n] == Red.Headers(fs[..n]) && p[2 * n] == fs[n].timeCode && p[2 * n + 1..] == Red.Bodies(fs)
  {
  }
}
