/** STUN messages printed and parsed (RFC 5389, sections 6, 15.4 and 15.5); digests are uninterpreted functions. */
module Stun {
  import opened Arith
  import opened Rtp

  const COOKIE: uint32 := 0x2112_a442
  const FINGERPRINT_XOR: uint32 := 0x5354_554e
  const MESSAGE_INTEGRITY: uint16 := 0x0008
  const FINGERPRINT: uint16 := 0x8028
  const HEADER := 20

  datatype Attr = Attr(kind: uint16, data: seq<byte>)

  function Padding(n: nat): (p: nat)
    ensures p < 4 && (n + p) % 4 == 0
  {
    (4 - n % 4) % 4
  }

  function Zeros(n: nat): (z: seq<byte>)
    ensures |z| == n
  {
    seq(n, _ => 0)
  }

  /** Type, length, value, and zeros up to a multiple of four; the length field keeps sixteen bits. */
  function EncodeAttribute(kind: uint16, data: seq<byte>): (s: seq<byte>)
    ensures |s| == 4 + |data| + Padding(|data|)
  {
    Be16(kind) + Be16(|data| % 0x1_0000) + data + Zeros(Padding(|data|))
  }

  function EncodeAll(attrs: seq<Attr>): seq<byte> {
    if attrs == [] then [] else EncodeAttribute(attrs[0].kind, attrs[0].data) + EncodeAll(attrs[1..])
  }

  lemma {:induction false} EncodeJoin(a: seq<Attr>, b: seq<Attr>)
    ensures EncodeAll(a + b) == EncodeAll(a) + EncodeAll(b)
  {
    hide EncodeAttribute;
    if a == [] {
      assert a + b == b;
    } else {
      EncodeJoin(a[1..], b);
      assert (a + b)[1..] == a[1..] + b;
    }
  }

  lemma EncodeOne(a: Attr)
    ensures EncodeAll([a]) == EncodeAttribute(a.kind, a.data)
  {
    assert [a][1..] == [];
    assert EncodeAll([]) == [];
  }

  /** Twelve bytes of the identifier, cut off or filled up with zeros. */
  function Id(transactionID: seq<byte>): (s: seq<byte>)
    ensures |s| == 12 && (|transactionID| == 12 ==> s == transactionID)
  {
    if |transactionID| >= 12 then transactionID[..12] else transactionID + Zeros(12 - |transactionID|)
  }

  function Header(msgType: uint16, length: nat, transactionID: seq<byte>): (s: seq<byte>)
    ensures |s| == HEADER
  {
    Be16(msgType) + Be16(length % 0x1_0000) + Be32(COOKIE) + Id(transactionID)
  }

  /** The keyed digest of a message, and the checksum of one. */
  datatype Digests = Digests(mac: seq<byte> -> seq<byte>, crc: seq<byte> -> uint32) {
    ghost predicate Ok() {
      forall m: seq<byte> :: |mac(m)| == 20
    }
  }

  function Xor32(a: uint32, b: uint32): (r: uint32) {
    Pow2Values();
    XorBits(a, b, 32)
  }

  /** The digest covers the attributes so far, under a header that already counts its own attribute. */
  function Integrity(msgType: uint16, attrs: seq<byte>, id: seq<byte>, d: Digests): Attr {
    Attr(MESSAGE_INTEGRITY, d.mac(Header(msgType, |attrs| + 24, id) + attrs))
  }

  function Fingerprint(msgType: uint16, attrs: seq<byte>, id: seq<byte>, d: Digests): Attr {
    Attr(FINGERPRINT, Be32(Xor32(d.crc(Header(msgType, |attrs| + 8, id) + attrs), FINGERPRINT_XOR)))
  }

  function BuildStunMessage(msgType: uint16, attrs: seq<byte>, id: seq<byte>, d: Digests, keyed: bool,
                            includeFingerprint: bool): seq<byte> {
    var mi := Integrity(msgType, attrs, id, d);
    var attrs1 := if keyed then attrs + EncodeAttribute(mi.kind, mi.data) else attrs;
    var fp := Fingerprint(msgType, attrs1, id, d);
    var attrs2 := if includeFingerprint then attrs1 + EncodeAttribute(fp.kind, fp.data) else attrs1;
    Header(msgType, |attrs2|, id) + attrs2
  }

  // ---- Parsing ----

  datatype Parsed =
    | NotStun
    | Ping(rawType: uint16, id: seq<byte>)
    | Message(rawType: uint16, id: seq<byte>, attributes: seq<Attr>)

  /** The attributes from offset on; a truncated one ends the list. */
  function ReadAttrs(data: seq<byte>, offset: nat, end: nat): seq<Attr>
    decreases |data| - offset
  {
    if offset + 4 <= end && offset + 4 <= |data| then
      var n := Uint16(data[offset + 2..]);
      var attrEnd := offset + 4 + n;
      if attrEnd > |data| then []
      else [Attr(Uint16(data[offset..]), data[offset + 4..attrEnd])] + ReadAttrs(data, attrEnd + Padding(n), end)
    else []
  }

  function Parse(data: seq<byte>): Parsed {
    if |data| < HEADER then NotStun
    else if Uint32(data[4..]) != COOKIE then
      (if Uint16(data) == 0x0801 || Uint16(data) == 0x0802 then Ping(Uint16(data), data[8..20]) else NotStun)
    else
      Message(Uint16(data), data[8..20], ReadAttrs(data, HEADER, HEADER + Uint16(data[2..])))
  }

  lemma PaddingIs(n: nat)
    ensures Padding(n) == (4 - n % 4) % 4
  {
  }

  lemma ReadStep(data: seq<byte>, offset: nat, end: nat)
    ensures if offset + 4 <= end && offset + 4 <= |data| then
              var n := Uint16(data[offset + 2..]);
              var attrEnd := offset + 4 + n;
              ReadAttrs(data, offset, end) == if attrEnd > |data| then [] else
                [Attr(Uint16(data[offset..]), data[offset + 4..attrEnd])] + ReadAttrs(data, attrEnd + Padding(n), end)
            else ReadAttrs(data, offset, end) == []
  {
    hide Uint16;
  }

  method ParseStunResponse(data: seq<byte>) returns (info: Parsed)
    ensures info == Parse(data)
  {
    hide Uint16, Uint32, ReadAttrs, Padding;
    if |data| < HEADER {
      return NotStun;
    }
    var cookie := Uint32(data[4..]);
    var rawType := Uint16(data);
    if cookie != COOKIE {
      if rawType == 0x0801 || rawType == 0x0802 {
        return Ping(rawType, data[8..20]);
      }
      return NotStun;
    }
    var msgLength := Uint16(data[2..]);
    var attributes := [];
    var offset := HEADER;
    ghost var all := ReadAttrs(data, HEADER, HEADER + msgLength);
    while offset + 4 <= HEADER + msgLength && offset + 4 <= |data|
      invariant all == attributes + ReadAttrs(data, offset, HEADER + msgLength)
      decreases |data| - offset
    {
      ReadStep(data, offset, HEADER + msgLength);
      var attrType := Uint16(data[offset..]);
      var attrLength := Uint16(data[offset + 2..]);
      var attrEnd := offset + 4 + attrLength;
      if attrEnd > |data| {
        break;
      }
      var a := Attr(attrType, data[offset + 4..attrEnd]);
      ghost var rest := ReadAttrs(data, attrEnd + Padding(attrLength), HEADER + msgLength);
      assert attributes + ([a] + rest) == attributes + [a] + rest;
      attributes := attributes + [a];
      PaddingIs(attrLength);
      offset := attrEnd + (4 - attrLength % 4) % 4;
    }
    ReadStep(data, offset, HEADER + msgLength);
    info := Message(rawType, data[8..20], attributes);
  }

  // ---- Parsing inverts printing ----

  predicate Fit(attrs: seq<Attr>) {
    forall i :: 0 <= i < |attrs| ==> |attrs[i].data| < 0x1_0000
  }

  lemma ReadOne(front: seq<byte>, a: Attr, rest: seq<byte>)
    requires |a.data| < 0x1_0000
    ensures var m, n := front + (EncodeAttribute(a.kind, a.data) + rest), |front|;
      && n + 4 + |a.data| <= |m| && Uint16(m[n..]) == a.kind && Uint16(m[n + 2..]) == |a.data|
      && m[n + 4..n + 4 + |a.data|] == a.data
  {
    hide Be16, Uint16;
    var m, n := front + (EncodeAttribute(a.kind, a.data) + rest), |front|;
    var z := Zeros(Padding(|a.data|));
    assert m[n..] == Be16(a.kind) + (Be16(|a.data|) + a.data + z + rest);
    assert m[n + 2..] == Be16(|a.data|) + (a.data + z + rest);
    BeRoundTrip(a.kind, 0, Be16(|a.data|) + a.data + z + rest);
    BeRoundTrip(|a.data|, 0, a.data + z + rest);
  }

  lemma {:induction false} ReadEncoded(front: seq<byte>, attrs: seq<Attr>)
    requires Fit(attrs)
    ensures var m := front + EncodeAll(attrs); ReadAttrs(m, |front|, |m|) == attrs
    decreases |attrs|
  {
    hide Uint16, EncodeAttribute;
    var m := front + EncodeAll(attrs);
    if attrs != [] {
      var a := attrs[0];
      var first := EncodeAttribute(a.kind, a.data);
      assert m == front + (first + EncodeAll(attrs[1..]));
      ReadOne(front, a, EncodeAll(attrs[1..]));
      ReadEncoded(front + first, attrs[1..]);
      assert m == front + first + EncodeAll(attrs[1..]);
      assert attrs == [a] + attrs[1..];
    }
  }

  /** The attributes that end up in a message. */
  function Carried(msgType: uint16, attrs: seq<Attr>, id: seq<byte>, d: Digests, keyed: bool, includeFingerprint: bool)
    : seq<Attr>
  {
    var all := if keyed then attrs + [Integrity(msgType, EncodeAll(attrs), id, d)] else attrs;
    if includeFingerprint then all + [Fingerprint(msgType, EncodeAll(all), id, d)] else all
  }

  lemma BuildCarries(msgType: uint16, attrs: seq<Attr>, id: seq<byte>, d: Digests, keyed: bool,
                     includeFingerprint: bool)
    ensures var all := EncodeAll(Carried(msgType, attrs, id, d, keyed, includeFingerprint));
      BuildStunMessage(msgType, EncodeAll(attrs), id, d, keyed, includeFingerprint) == Header(msgType, |all|, id) + all
  {
    hide Integrity, Fingerprint, EncodeAttribute;
    var mi := Integrity(msgType, EncodeAll(attrs), id, d);
    var attrs1 := if keyed then attrs + [mi] else attrs;
    EncodeJoin(attrs, [mi]);
    EncodeOne(mi);
    var fp := Fingerprint(msgType, EncodeAll(attrs1), id, d);
    EncodeJoin(attrs1, [fp]);
    EncodeOne(fp);
  }

  lemma HeaderReads(msgType: uint16, length: nat, id: seq<byte>, rest: seq<byte>)
    requires length < 0x1_0000 && |id| == 12
    ensures var m := Header(msgType, length, id) + rest;
      && Uint16(m) == msgType && Uint16(m[2..]) == length && Uint32(m[4..]) == COOKIE && m[8..20] == id
  {
    hide Be16, Be32, Uint16, Uint32;
    var m := Header(msgType, length, id) + rest;
    assert m == Be16(msgType) + (Be16(length) + Be32(COOKIE) + id + rest);
    assert m[2..] == Be16(length) + (Be32(COOKIE) + id + rest);
    assert m[4..] == Be32(COOKIE) + (id + rest);
    BeRoundTrip(msgType, 0, Be16(length) + Be32(COOKIE) + id + rest);
    BeRoundTrip(length, 0, Be32(COOKIE) + id + rest);
    BeRoundTrip(0, COOKIE, id + rest);
  }

  /** Every attribute list that fits comes back in order, followed by integrity and fingerprint. */
  lemma MessageRoundTrip(msgType: uint16, attrs: seq<Attr>, id: seq<byte>, d: Digests, keyed: bool,
                         includeFingerprint: bool)
    requires |id| == 12 && Fit(attrs) && d.Ok()
    requires |EncodeAll(Carried(msgType, attrs, id, d, keyed, includeFingerprint))| < 0x1_0000
    ensures Parse(BuildStunMessage(msgType, EncodeAll(attrs), id, d, keyed, includeFingerprint))
         == Message(msgType, id, Carried(msgType, attrs, id, d, keyed, includeFingerprint))
  {
    hide Header, EncodeAll, EncodeAttribute, ReadAttrs, Uint16, Uint32, BuildStunMessage;
    var carried := Carried(msgType, attrs, id, d, keyed, includeFingerprint);
    var all := EncodeAll(carried);
    BuildCarries(msgType, attrs, id, d, keyed, includeFingerprint);
    HeaderReads(msgType, |all|, id, all);
    ReadEncoded(Header(msgType, |all|, id), carried);
  }

  /** The checksum covers the finished message up to its last eight bytes, length field included. */
  lemma FingerprintCovers(msgType: uint16, attrs: seq<Attr>, id: seq<byte>, d: Digests, keyed: bool)
    ensures var m := BuildStunMessage(msgType, EncodeAll(attrs), id, d, keyed, true);
      && |m| >= 8
      && var fp := Uint32(m[|m| - 4..]);
         fp == Xor32(d.crc(m[..|m| - 8]), FINGERPRINT_XOR) && Xor32(fp, FINGERPRINT_XOR) == d.crc(m[..|m| - 8])
  {
    hide Header, EncodeAll, Uint32, Be32, Be16;
    var mi := Integrity(msgType, EncodeAll(attrs), id, d);
    var attrs1 := if keyed then EncodeAll(attrs) + EncodeAttribute(mi.kind, mi.data) else EncodeAll(attrs);
    var input := Header(msgType, |attrs1| + 8, id) + attrs1;
    var fp := Xor32(d.crc(input), FINGERPRINT_XOR);
    var m := BuildStunMessage(msgType, EncodeAll(attrs), id, d, keyed, true);
    assert Zeros(Padding(4)) == [];
    assert m == input + (Be16(FINGERPRINT) + Be16(4) + Be32(fp));
    assert m[..|m| - 8] == input && m[|m| - 4..] == Be32(fp) + [];
    BeRoundTrip(0, fp, []);
    Pow2Values();
    XorCancels(d.crc(input), FINGERPRINT_XOR, 32);
  }

  /** The keyed digest covers the same header with the length as it stood before the fingerprint, and the attributes. */
  lemma IntegrityCovers(msgType: uint16, attrs: seq<Attr>, id: seq<byte>, d: Digests, includeFingerprint: bool)
    requires d.Ok()
    ensures var n := |EncodeAll(attrs)|;
            var m := BuildStunMessage(msgType, EncodeAll(attrs), id, d, true, includeFingerprint);
      && |m| >= HEADER + n + 24
      && m[HEADER + n + 4..HEADER + n + 24] == d.mac(Header(msgType, n + 24, id) + m[HEADER..HEADER + n])
      && (!includeFingerprint ==> Header(msgType, n + 24, id) + m[HEADER..HEADER + n] == m[..HEADER + n])
  {
    hide Header, EncodeAll, Be16;
    var e := EncodeAll(attrs);
    var mac := d.mac(Header(msgType, |e| + 24, id) + e);
    assert |mac| == 20 && Zeros(Padding(20)) == [];
    var m := BuildStunMessage(msgType, e, id, d, true, includeFingerprint);
    var tail := m[HEADER + |e| + 24..];
    assert m == m[..HEADER] + (e + (Be16(MESSAGE_INTEGRITY) + Be16(20) + mac)) + tail;
    assert m[HEADER..HEADER + |e|] == e;
  }
}
