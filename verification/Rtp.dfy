/** RTP headers as bytes, and the session that numbers packets (RFC 3550, section 5.1). */
module Rtp {
  import opened Arith

  const VERSION := 2
  const MIN_HEADER := 12

  datatype Result<T> = Ok(value: T) | Err(message: string)

  datatype RtpHeader = RtpHeader(
    version: byte, padding: bool, extension: bool, csrcCount: byte, marker: bool, payloadType: byte,
    sequenceNumber: uint16, timestamp: uint32, ssrc: uint32, csrc: seq<uint32>,
    extensionProfile: uint16, extensionData: seq<byte>)
  {
    /** A header that its own encoding can carry. */
    predicate Ok() {
      && version == VERSION && payloadType < 128
      && csrcCount < 16 && |csrc| == csrcCount
      && |extensionData| % 4 == 0 && |extensionData| / 4 < 0x1_0000
      && (!extension ==> extensionProfile == 0 && extensionData == [])
    }

    function Size(): nat {
      MIN_HEADER + csrcCount * 4 + if extension then 4 + |extensionData| else 0
    }
  }

  datatype RtpPacket = RtpPacket(header: RtpHeader, payload: seq<byte>)

  function BoolBit(b: bool): byte {
    if b then 1 else 0
  }

  // ---- Big-endian numbers ----

  function Be16(x: uint16): (s: seq<byte>)
    ensures |s| == 2
  {
    [x / 256, x % 256]
  }

  function Be32(x: uint32): (s: seq<byte>)
    ensures |s| == 4
  {
    [x / 0x100_0000, x / 0x1_0000 % 256, x / 256 % 256, x % 256]
  }

  function Uint16(s: seq<byte>): uint16
    requires |s| >= 2
  {
    var hi: int, lo: int := s[0], s[1];
    hi * 256 + lo
  }

  function Uint32(s: seq<byte>): uint32
    requires |s| >= 4
  {
    var a: int, b: int, c: int, d: int := s[0], s[1], s[2], s[3];
    a * 0x100_0000 + b * 0x1_0000 + c * 256 + d
  }

  lemma BeRoundTrip(x: uint16, y: uint32, rest: seq<byte>)
    ensures Uint16(Be16(x) + rest) == x && Uint32(Be32(y) + rest) == y
  {
    var s := Be32(y) + rest;
    assert y / 0x1_0000 == y / 256 / 256 && y / 0x100_0000 == y / 0x1_0000 / 256;
  }

  function Csrcs(cs: seq<uint32>): (s: seq<byte>)
    ensures |s| == 4 * |cs|
  {
    if cs == [] then [] else Be32(cs[0]) + Csrcs(cs[1..])
  }

  lemma {:induction false} CsrcsPush(cs: seq<uint32>, c: uint32)
    ensures Csrcs(cs + [c]) == Csrcs(cs) + Be32(c)
  {
    if cs == [] {
      assert [] + [c] == [c];
    } else {
      CsrcsPush(cs[1..], c);
      assert (cs + [c])[1..] == cs[1..] + [c];
    }
  }

  // ---- Headers ----

  function Flags(h: RtpHeader): byte {
    h.version % 4 * 64 + BoolBit(h.padding) * 32 + BoolBit(h.extension) * 16 + h.csrcCount % 16
  }

  function Kind(h: RtpHeader): byte {
    BoolBit(h.marker) * 128 + h.payloadType % 128
  }

  /** The extension's length in whole words, cut to its sixteen-bit field. */
  function Words(data: seq<byte>): uint16 {
    |data| / 4 % 0x1_0000
  }

  function Extension(h: RtpHeader): (s: seq<byte>)
    ensures |s| == if h.extension then 4 + |h.extensionData| else 0
  {
    if h.extension then Be16(h.extensionProfile) + Be16(Words(h.extensionData)) + h.extensionData else []
  }

  function Fixed(h: RtpHeader): (s: seq<byte>)
    ensures |s| == MIN_HEADER
  {
    [Flags(h), Kind(h)] + Be16(h.sequenceNumber) + Be32(h.timestamp) + Be32(h.ssrc)
  }

  /** The bytes written for a header: as many as its size says if the count is that of the list. */
  function Bytes(h: RtpHeader): (s: seq<byte>)
    ensures |s| == h.Size() - 4 * h.csrcCount + 4 * |h.csrc|
  {
    Fixed(h) + Csrcs(h.csrc) + Extension(h)
  }

  /** A string with s written over it at an offset. */
  function Splice(a: seq<byte>, offset: nat, s: seq<byte>): (b: seq<byte>)
    requires offset + |s| <= |a|
    ensures |b| == |a|
  {
    a[..offset] + s + a[offset + |s|..]
  }

  lemma SpliceTwice(a: seq<byte>, offset: nat, s: seq<byte>, t: seq<byte>)
    requires offset + |s| + |t| <= |a|
    ensures Splice(Splice(a, offset, s), offset + |s|, t) == Splice(a, offset, s + t)
  {
    assert Splice(a, offset, s)[..offset + |s|] == a[..offset] + s;
    assert Splice(a, offset, s)[offset + |s| + |t|..] == a[offset + |s| + |t|..];
  }

  method Put(buf: array<byte>, offset: nat, s: seq<byte>)
    requires offset + |s| <= buf.Length
    modifies buf
    ensures buf[..] == Splice(old(buf[..]), offset, s)
  {
    for i := 0 to |s|
      invariant forall j :: 0 <= j < buf.Length ==>
        buf[j] == if offset <= j < offset + i then s[j - offset] else old(buf[j])
    {
      buf[offset + i] := s[i];
    }
  }

  method PutFixed(h: RtpHeader, buf: array<byte>)
    requires buf.Length >= MIN_HEADER
    modifies buf
    ensures buf[..] == Splice(old(buf[..]), 0, Fixed(h))
  {
    hide Be16, Be32, Flags, Kind, Splice;
    ghost var was := buf[..];
    Put(buf, 0, [Flags(h), Kind(h)]);
    Put(buf, 2, Be16(h.sequenceNumber));
    SpliceTwice(was, 0, [Flags(h), Kind(h)], Be16(h.sequenceNumber));
    Put(buf, 4, Be32(h.timestamp));
    SpliceTwice(was, 0, [Flags(h), Kind(h)] + Be16(h.sequenceNumber), Be32(h.timestamp));
    Put(buf, 8, Be32(h.ssrc));
    SpliceTwice(was, 0, [Flags(h), Kind(h)] + Be16(h.sequenceNumber) + Be32(h.timestamp), Be32(h.ssrc));
  }

  method PutCsrcs(cs: seq<uint32>, buf: array<byte>) returns (offset: nat)
    requires MIN_HEADER + 4 * |cs| <= buf.Length
    modifies buf
    ensures offset == MIN_HEADER + 4 * |cs| && buf[..] == Splice(old(buf[..]), MIN_HEADER, Csrcs(cs))
  {
    hide Be32, Csrcs, Splice;
    ghost var was := buf[..];
    NoCsrcs(was);
    offset := MIN_HEADER;
    for i := 0 to |cs|
      invariant offset == MIN_HEADER + 4 * i && buf[..] == Splice(was, MIN_HEADER, Csrcs(cs[..i]))
    {
      Put(buf, offset, Be32(cs[i]));
      SpliceTwice(was, MIN_HEADER, Csrcs(cs[..i]), Be32(cs[i]));
      CsrcsPush(cs[..i], cs[i]);
      assert cs[..i + 1] == cs[..i] + [cs[i]];
      offset := offset + 4;
    }
    assert cs[..|cs|] == cs;
  }

  lemma NoCsrcs(a: seq<byte>)
    requires |a| >= MIN_HEADER
    ensures Csrcs([]) == [] && Splice(a, MIN_HEADER, []) == a
  {
  }

  method PutExtension(h: RtpHeader, buf: array<byte>, offset: nat)
    requires h.extension && offset + 4 + |h.extensionData| <= buf.Length
    modifies buf
    ensures buf[..] == Splice(old(buf[..]), offset, Extension(h))
  {
    hide Be16, Splice;
    ghost var was := buf[..];
    Put(buf, offset, Be16(h.extensionProfile));
    Put(buf, offset + 2, Be16(Words(h.extensionData)));
    SpliceTwice(was, offset, Be16(h.extensionProfile), Be16(Words(h.extensionData)));
    Put(buf, offset + 4, h.extensionData);
    SpliceTwice(was, offset, Be16(h.extensionProfile) + Be16(Words(h.extensionData)), h.extensionData);
  }

  /** Writes the header at the front of the buffer and nothing else. */
  method Encode(h: RtpHeader, buf: array<byte>) returns (r: Result<nat>)
    requires |h.csrc| <= h.csrcCount
    modifies buf
    ensures r.Ok? <==> h.Size() <= buf.Length
    ensures r.Ok? ==> r.value == h.Size() && buf[..] == Splice(old(buf[..]), 0, Bytes(h))
    ensures r.Err? ==> buf[..] == old(buf[..])
  {
    hide Fixed, Csrcs, Extension, Splice;
    if buf.Length < h.Size() {
      return Err("buffer too small for RTP header");
    }
    ghost var was := buf[..];
    PutFixed(h, buf);
    var offset := PutCsrcs(h.csrc, buf);
    SpliceTwice(was, 0, Fixed(h), Csrcs(h.csrc));
    if h.extension {
      PutExtension(h, buf, offset);
      SpliceTwice(was, 0, Fixed(h) + Csrcs(h.csrc), Extension(h));
    } else {
      NoExtension(h);
      assert Fixed(h) + Csrcs(h.csrc) == Bytes(h);
    }
    r := Ok(h.Size());
  }

  lemma NoExtension(h: RtpHeader)
    requires !h.extension
    ensures Extension(h) == []
  {
  }

  function ReadCsrcs(s: seq<byte>, n: nat): (cs: seq<uint32>)
    requires 4 * n <= |s|
    ensures |cs| == n
  {
    if n == 0 then [] else [Uint32(s)] + ReadCsrcs(s[4..], n - 1)
  }

  function VersionOf(flags: byte): byte { flags / 64 % 4 }

  predicate PaddingOf(flags: byte) { flags / 32 % 2 != 0 }

  predicate ExtensionOf(flags: byte) { flags / 16 % 2 != 0 }

  function CountOf(flags: byte): byte { flags % 16 }

  predicate MarkerOf(kind: byte) { kind / 128 % 2 != 0 }

  function KindOf(kind: byte): byte { kind % 128 }

  /** The header at the front of a byte string; a cut-off extension reads as an empty one. */
  function Decode(buf: seq<byte>): (r: Result<RtpHeader>)
  {
    if |buf| < MIN_HEADER then Err("buffer too small for RTP header")
    else if VersionOf(buf[0]) != VERSION then Err("invalid RTP version")
    else
      var count := CountOf(buf[0]);
      var offset := MIN_HEADER + count * 4;
      if |buf| < offset then Err("buffer too small for CSRC list")
      else
        var ext := ExtensionOf(buf[0]);
        var present := ext && |buf| >= offset + 4;
        var profile := if present then Uint16(buf[offset..]) else 0;
        var extBytes := if present then Uint16(buf[offset + 2..]) * 4 else 0;
        var data := if present && |buf| >= offset + 4 + extBytes then buf[offset + 4..offset + 4 + extBytes] else [];
        Ok(RtpHeader(VersionOf(buf[0]), PaddingOf(buf[0]), ext, count, MarkerOf(buf[1]), KindOf(buf[1]),
                     Uint16(buf[2..]), Uint32(buf[4..]), Uint32(buf[8..]), ReadCsrcs(buf[12..], count), profile, data))
  }

  lemma {:induction false} CsrcRoundTrip(cs: seq<uint32>, rest: seq<byte>)
    ensures ReadCsrcs(Csrcs(cs) + rest, |cs|) == cs
  {
    if cs != [] {
      var tail := Csrcs(cs[1..]) + rest;
      assert Csrcs(cs) + rest == Be32(cs[0]) + tail;
      BeRoundTrip(0, cs[0], tail);
      assert (Be32(cs[0]) + tail)[4..] == tail;
      CsrcRoundTrip(cs[1..], rest);
    }
  }

  lemma FlagBits(h: RtpHeader)
    requires h.Ok()
    ensures VersionOf(Flags(h)) == VERSION && PaddingOf(Flags(h)) == h.padding
    ensures ExtensionOf(Flags(h)) == h.extension && CountOf(Flags(h)) == h.csrcCount
    ensures MarkerOf(Kind(h)) == h.marker && KindOf(Kind(h)) == h.payloadType
  {
  }

  lemma FixedRoundTrip(h: RtpHeader, rest: seq<byte>)
    requires h.Ok()
    ensures var b := Fixed(h) + rest;
      && b[0] == Flags(h) && b[1] == Kind(h)
      && Uint16(b[2..]) == h.sequenceNumber && Uint32(b[4..]) == h.timestamp && Uint32(b[8..]) == h.ssrc
  {
    hide Flags, Kind, Be16, Be32, Uint16, Uint32;
    var b := Fixed(h) + rest;
    assert b[2..] == Be16(h.sequenceNumber) + (Be32(h.timestamp) + Be32(h.ssrc) + rest);
    assert b[4..] == Be32(h.timestamp) + (Be32(h.ssrc) + rest);
    assert b[8..] == Be32(h.ssrc) + rest;
    BeRoundTrip(h.sequenceNumber, h.timestamp, Be32(h.timestamp) + Be32(h.ssrc) + rest);
    BeRoundTrip(0, h.timestamp, Be32(h.ssrc) + rest);
    BeRoundTrip(0, h.ssrc, rest);
  }

  lemma ExtensionRoundTrip(h: RtpHeader, front: seq<byte>, rest: seq<byte>)
    requires h.Ok() && h.extension
    ensures var b, n := front + (Extension(h) + rest), |front|;
      && Uint16(b[n..]) == h.extensionProfile && Uint16(b[n + 2..]) * 4 == |h.extensionData|
      && b[n + 4..n + 4 + |h.extensionData|] == h.extensionData
  {
    hide Be16, Uint16;
    var words := Words(h.extensionData);
    var b, n := front + (Extension(h) + rest), |front|;
    assert b[n..] == Be16(h.extensionProfile) + (Be16(words) + h.extensionData + rest);
    assert b[n + 2..] == Be16(words) + (h.extensionData + rest);
    BeRoundTrip(h.extensionProfile, 0, Be16(words) + h.extensionData + rest);
    BeRoundTrip(words, 0, h.extensionData + rest);
  }

  /** Exactly the well-formed headers survive their encoding, whatever follows it. */
  lemma HeaderRoundTrip(h: RtpHeader, rest: seq<byte>)
    ensures Decode(Bytes(h) + rest) == Ok(h) <==> h.Ok()
  {
    if h.Ok() {
      HeaderBack(h, rest);
    }
    DecodedOk(Bytes(h) + rest);
  }

  lemma DecodedOk(buf: seq<byte>)
    ensures Decode(buf).Ok? ==> Decode(buf).value.Ok()
  {
    hide Uint16, Uint32, ReadCsrcs;
  }

  lemma HeaderParts(h: RtpHeader, rest: seq<byte>)
    requires h.Ok()
    ensures var b := Bytes(h) + rest;
      && b[0] == Flags(h) && b[1] == Kind(h)
      && Uint16(b[2..]) == h.sequenceNumber && Uint32(b[4..]) == h.timestamp && Uint32(b[8..]) == h.ssrc
      && ReadCsrcs(b[12..], h.csrcCount) == h.csrc
  {
    hide Fixed, Flags, Kind, Uint16, Uint32, Extension, Csrcs, ReadCsrcs;
    var back := Csrcs(h.csrc) + (Extension(h) + rest);
    assert Bytes(h) + rest == Fixed(h) + back;
    FixedRoundTrip(h, back);
    assert (Fixed(h) + back)[12..] == back;
    CsrcRoundTrip(h.csrc, Extension(h) + rest);
  }

  lemma HeaderBack(h: RtpHeader, rest: seq<byte>)
    requires h.Ok()
    ensures Decode(Bytes(h) + rest) == Ok(h)
  {
    hide Fixed, Bytes, Flags, Kind, Uint16, Uint32, Be16, Be32, Extension, VersionOf, PaddingOf, ExtensionOf, CountOf,
         MarkerOf, KindOf, Csrcs, ReadCsrcs;
    HeaderParts(h, rest);
    FlagBits(h);
    if h.extension {
      ExtensionBehind(h, rest);
    }
  }

  lemma ExtensionBehind(h: RtpHeader, rest: seq<byte>)
    requires h.Ok() && h.extension
    ensures var b, n := Bytes(h) + rest, MIN_HEADER + h.csrcCount * 4;
      && Uint16(b[n..]) == h.extensionProfile && Uint16(b[n + 2..]) * 4 == |h.extensionData|
      && b[n + 4..n + 4 + |h.extensionData|] == h.extensionData
  {
    hide Fixed, Uint16, Extension, Csrcs;
    assert Bytes(h) + rest == Fixed(h) + Csrcs(h.csrc) + (Extension(h) + rest);
    ExtensionRoundTrip(h, Fixed(h) + Csrcs(h.csrc), rest);
  }

  /** A sender's numbering: both counters wrap at their width. */
  class RtpSession {
    const ssrc: uint32
    const payloadType: byte
    var sequenceNumber: uint16
    var timestamp: uint32

    constructor (ssrc: uint32, payloadType: byte, sequenceNumber: uint16, timestamp: uint32)
      ensures this.ssrc == ssrc && this.payloadType == payloadType
      ensures this.sequenceNumber == sequenceNumber && this.timestamp == timestamp
    {
      this.ssrc, this.payloadType := ssrc, payloadType;
      this.sequenceNumber, this.timestamp := sequenceNumber, timestamp;
    }

    method CreatePacketWithDuration(payload: seq<byte>, durationSamples: nat, marker: bool) returns (p: RtpPacket)
      modifies this
      ensures p.payload == payload && p.header.sequenceNumber == old(sequenceNumber)
      ensures p.header.timestamp == old(timestamp) && p.header.ssrc == ssrc && p.header.marker == marker
      ensures payloadType < 128 ==> p.header.Ok()
      ensures sequenceNumber == (old(sequenceNumber) + 1) % 0x1_0000
      ensures timestamp == (old(timestamp) + durationSamples) % 0x1_0000_0000
    {
      var header := RtpHeader(VERSION, false, false, 0, marker, payloadType, sequenceNumber, timestamp, ssrc,
                              [], 0, []);
      sequenceNumber := (sequenceNumber + 1) % 0x1_0000;
      timestamp := (timestamp + durationSamples) % 0x1_0000_0000;
      p := RtpPacket(header, payload);
    }
  }
}
