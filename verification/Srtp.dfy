/**
 * The SRTP packet index on both sides (RFC 3711, sections 3.3.1 and 4.1.1). The cipher is a keystream that
 * depends on the initialisation vector alone, and the authentication code is any function of its inputs.
 */
module Srtp {
  import opened Arith
  import opened Rtp

  const EPOCH := 0x1_0000
  const ROLLOVERS := 0x1_0000_0000
  const INDICES := EPOCH * ROLLOVERS

  type Keystream = (seq<byte>, nat) -> seq<byte>
  type Mac = (seq<byte>, uint32, nat) -> seq<byte>

  ghost predicate StreamOk(ks: Keystream) {
    forall iv: seq<byte>, n: nat :: |ks(iv, n)| == n
  }

  ghost predicate MacOk(mac: Mac) {
    forall data: seq<byte>, roc: uint32, n: nat :: |mac(data, roc, n)| == n
  }

  // ---- Exclusive or ----

  function Xor(a: byte, b: byte): (r: byte) {
    assert Pow2(8) == 256 by {
      Pow2Values();
    }
    XorBits(a, b, 8)
  }

  lemma XorTwice(a: byte, b: byte)
    ensures Xor(Xor(a, b), b) == a
  {
    Pow2Values();
    XorCancels(a, b, 8);
  }

  function XorAll(data: seq<byte>, key: seq<byte>): (r: seq<byte>)
    requires |data| == |key|
    ensures |r| == |data|
  {
    seq(|data|, i requires 0 <= i < |data| => Xor(data[i], key[i]))
  }

  lemma XorAllTwice(data: seq<byte>, key: seq<byte>)
    requires |data| == |key|
    ensures XorAll(XorAll(data, key), key) == data
  {
    forall i | 0 <= i < |data|
      ensures XorAll(XorAll(data, key), key)[i] == data[i]
    {
      XorTwice(data[i], key[i]);
    }
  }

  // ---- Initialisation vectors ----

  /** The big-endian bytes that are mixed into the salt: source at 4..8, index at 8..14. */
  function Mixed(ssrc: uint32, index: nat): (s: seq<byte>)
    requires index < INDICES
    ensures |s| == 16
  {
    [0, 0, 0, 0] + Be32(ssrc) + Be16(index / ROLLOVERS) + Be32(index % ROLLOVERS) + [0, 0]
  }

  function IV(salt: seq<byte>, ssrc: uint32, index: nat): (iv: seq<byte>)
    requires |salt| == 14 && index < INDICES
    ensures |iv| == 16
  {
    XorAll(Mixed(ssrc, index), salt + [0, 0])
  }

  /** Under one salt, the source and the index can be read back from the vector. */
  lemma IVInjective(salt: seq<byte>, ssrc: uint32, index: nat, ssrc': uint32, index': nat)
    requires |salt| == 14 && index < INDICES && index' < INDICES
    requires IV(salt, ssrc, index) == IV(salt, ssrc', index')
    ensures ssrc == ssrc' && index == index'
  {
    XorAllTwice(Mixed(ssrc, index), salt + [0, 0]);
    XorAllTwice(Mixed(ssrc', index'), salt + [0, 0]);
    MixedInjective(ssrc, index, ssrc', index');
  }

  lemma MixedInjective(ssrc: uint32, index: nat, ssrc': uint32, index': nat)
    requires index < INDICES && index' < INDICES && Mixed(ssrc, index) == Mixed(ssrc', index')
    ensures ssrc == ssrc' && index == index'
  {
    hide Be16, Be32;
    var m, m' := Mixed(ssrc, index), Mixed(ssrc', index');
    assert m[4..8] == Be32(ssrc) && m[8..10] == Be16(index / ROLLOVERS) && m[10..14] == Be32(index % ROLLOVERS);
    assert m'[4..8] == Be32(ssrc') && m'[8..10] == Be16(index' / ROLLOVERS) && m'[10..14] == Be32(index' % ROLLOVERS);
    Be32Injective(ssrc, ssrc');
    Be32Injective(index % ROLLOVERS, index' % ROLLOVERS);
    Be16Injective(index / ROLLOVERS, index' / ROLLOVERS);
  }

  lemma Be32Injective(x: uint32, y: uint32)
    requires Be32(x) == Be32(y)
    ensures x == y
  {
    BeRoundTrip(0, x, []);
    BeRoundTrip(0, y, []);
    assert Be32(x) + [] == Be32(x) && Be32(y) + [] == Be32(y);
  }

  lemma Be16Injective(x: uint16, y: uint16)
    requires Be16(x) == Be16(y)
    ensures x == y
  {
    BeRoundTrip(x, 0, []);
    BeRoundTrip(y, 0, []);
    assert Be16(x) + [] == Be16(x) && Be16(y) + [] == Be16(y);
  }

  // ---- Index derivation ----

  /** What a context remembers: nothing yet, or its rollover count and the last sequence number. */
  datatype Roc = Fresh(roc: uint32) | Tracking(roc: uint32, lastSeq: uint16) {
    /** The next state; its count and the sequence number are the index given to the packet. */
    function Next(s: uint16): Roc {
      match this
      case Fresh(r) => Tracking(r, s)
      case Tracking(r, last) => Tracking(if s - last < -32768 then (r + 1) % ROLLOVERS else r, s)
    }

    function Index(): nat
      requires Tracking?
    {
      roc * EPOCH + lastSeq
    }
  }

  function At(index: nat): Roc
    requires index < INDICES
  {
    Tracking(index / EPOCH, index % EPOCH)
  }

  /** A receiver at index i derives the true index j of the next packet exactly when this holds. */
  predicate Follows(i: nat, j: nat) {
    (j / EPOCH == i / EPOCH && j - i >= -32768) || (j / EPOCH == i / EPOCH + 1 && j - i < 32768)
  }

  lemma StepExactly(i: nat, j: nat)
    requires i < INDICES - EPOCH && j < INDICES
    ensures At(i).Next(j % EPOCH) == At(j) <==> Follows(i, j)
  {
    assert i == i / EPOCH * EPOCH + i % EPOCH && j == j / EPOCH * EPOCH + j % EPOCH;
  }

  lemma FirstExactly(j: nat)
    requires j < INDICES
    ensures Fresh(0).Next(j % EPOCH) == At(j) <==> j < EPOCH
  {
  }

  /** The receiver's state after the packets with these true indices. */
  function After(r: Roc, delivered: seq<nat>): Roc
    decreases |delivered|
  {
    if delivered == [] then r else After(r.Next(delivered[0] % EPOCH), delivered[1..])
  }

  /** Every packet delivered so far was given its true index. */
  predicate AllTrue(r: Roc, delivered: seq<nat>)
    requires forall k :: 0 <= k < |delivered| ==> delivered[k] < INDICES
    decreases |delivered|
  {
    delivered == []
    || (r.Next(delivered[0] % EPOCH) == At(delivered[0]) && AllTrue(r.Next(delivered[0] % EPOCH), delivered[1..]))
  }

  /** Over any run of deliveries, in any order: all indices are derived right exactly when every step follows. */
  lemma {:induction false} RunExactly(delivered: seq<nat>)
    requires delivered != [] && forall k :: 0 <= k < |delivered| ==> delivered[k] < INDICES - EPOCH
    ensures AllTrue(Fresh(0), delivered) <==>
      delivered[0] < EPOCH && (forall k :: 0 < k < |delivered| ==> Follows(delivered[k - 1], delivered[k]))
  {
    FirstExactly(delivered[0]);
    if delivered[0] < EPOCH {
      StepsExactly(delivered[0], delivered[1..]);
      forall k | 0 < k < |delivered|
        ensures Follows(delivered[k - 1], delivered[k])
             == Follows(([delivered[0]] + delivered[1..])[k - 1], delivered[1..][k - 1])
      {
      }
    }
  }

  lemma {:induction false} StepsExactly(i: nat, delivered: seq<nat>)
    requires i < INDICES - EPOCH && forall k :: 0 <= k < |delivered| ==> delivered[k] < INDICES - EPOCH
    ensures AllTrue(At(i), delivered) <==>
      forall k :: 0 <= k < |delivered| ==> Follows(([i] + delivered)[k], delivered[k])
    decreases |delivered|
  {
    if delivered != [] {
      var j, rest := delivered[0], delivered[1..];
      StepExactly(i, j);
      StepsExactly(j, rest);
      assert ([i] + delivered)[0] == i;
      forall k | 0 <= k < |rest|
        ensures Follows(([j] + rest)[k], rest[k]) == Follows(([i] + delivered)[k + 1], delivered[k + 1])
      {
      }
      if forall k :: 0 <= k < |delivered| ==> Follows(([i] + delivered)[k], delivered[k]) {
        forall k | 0 <= k < |rest|
          ensures Follows(([j] + rest)[k], rest[k])
        {
          assert Follows(([i] + delivered)[k + 1], delivered[k + 1]);
        }
      } else if Follows(i, j) {
        var k :| 0 <= k < |delivered| && !Follows(([i] + delivered)[k], delivered[k]);
        assert !Follows(([j] + rest)[k - 1], rest[k - 1]);
      }
    }
  }

  /** In-order delivery with gaps under 32768 is always derived right. */
  lemma InOrder(delivered: seq<nat>)
    requires delivered != [] && delivered[0] < EPOCH
    requires forall k :: 0 <= k < |delivered| ==> delivered[k] < INDICES - EPOCH
    requires forall k :: 0 < k < |delivered| ==> delivered[k - 1] <= delivered[k] < delivered[k - 1] + 32768
    ensures AllTrue(Fresh(0), delivered)
  {
    RunExactly(delivered);
  }

  lemma AfterOne(r: Roc, j: nat, rest: seq<nat>)
    ensures After(r, [j] + rest) == After(r.Next(j % EPOCH), rest)
  {
    assert ([j] + rest)[1..] == rest;
  }

  /** One packet overtaken at a wrap is not: the receiver counts the wrap twice. */
  lemma ReorderedAtWrap()
    ensures !AllTrue(Fresh(0), [65534, 65536, 65535, 65537])
    ensures After(Fresh(0), [65534, 65536, 65535, 65537]) == At(65537 + EPOCH)
  {
    var d := [65534, 65536, 65535, 65537];
    RunExactly(d);
    assert !Follows(d[1], d[2]);
    assert d == [65534] + ([65536] + ([65535] + ([65537] + [])));
    AfterOne(Fresh(0), 65534, [65536] + ([65535] + ([65537] + [])));
    AfterOne(At(65534), 65536, [65535] + ([65537] + []));
    AfterOne(At(65536), 65535, [65537] + []);
    AfterOne(At(131071), 65537, []);
  }

  /** And it never recovers: one epoch ahead, it stays one epoch ahead over every run that follows. */
  lemma {:induction false} NeverRecovers(i: nat, delivered: seq<nat>)
    requires i < INDICES - 2 * EPOCH && forall k :: 0 <= k < |delivered| ==> delivered[k] < INDICES - 2 * EPOCH
    requires forall k :: 0 <= k < |delivered| ==> Follows(([i] + delivered)[k], delivered[k])
    ensures After(At(i + EPOCH), delivered) == At(([i] + delivered)[|delivered|] + EPOCH)
    decreases |delivered|
  {
    hide Follows, At, Roc.Next;
    if delivered != [] {
      var j, rest := delivered[0], delivered[1..];
      assert Follows(([i] + delivered)[0], j);
      ShiftedStep(i, j);
      forall k | 0 <= k < |rest|
        ensures Follows(([j] + rest)[k], rest[k])
      {
        assert Follows(([i] + delivered)[k + 1], delivered[k + 1]);
      }
      NeverRecovers(j, rest);
      assert ([i] + delivered)[|delivered|] == ([j] + rest)[|rest|];
    }
  }

  lemma ShiftedStep(i: nat, j: nat)
    requires i < INDICES - 2 * EPOCH && j < INDICES - 2 * EPOCH && Follows(i, j)
    ensures At(i + EPOCH).Next(j % EPOCH) == At(j + EPOCH)
  {
    StepExactly(i + EPOCH, j + EPOCH);
  }

  // ---- Contexts ----

  class SrtpContext {
    const sessionSalt: seq<byte>
    const authTagLen: nat
    var roc: uint32
    var lastSeq: uint16
    var initialized: bool

    constructor (salt: seq<byte>, authTagLen: nat)
      ensures sessionSalt == salt && this.authTagLen == authTagLen && State() == Fresh(0)
    {
      sessionSalt, this.authTagLen := salt, authTagLen;
      roc, lastSeq, initialized := 0, 0, false;
    }

    ghost function State(): Roc
      reads this
    {
      if initialized then Tracking(roc, lastSeq) else Fresh(roc)
    }

    method UpdateRoc(seqNum: uint16)
      modifies this
      ensures State() == old(State()).Next(seqNum)
    {
      if !initialized {
        lastSeq := seqNum;
        initialized := true;
        return;
      }
      var diff: int := seqNum - lastSeq;
      if diff < -32768 {
        roc := (roc + 1) % ROLLOVERS;
      }
      lastSeq := seqNum;
    }

    function PacketIndex(seqNum: uint16): (i: nat)
      reads this
      ensures i < INDICES
    {
      roc * EPOCH + seqNum
    }

    method GenerateIV(ssrc: uint32, index: nat) returns (iv: seq<byte>)
      requires |sessionSalt| == 14 && index < INDICES
      ensures iv == IV(sessionSalt, ssrc, index)
    {
      var buf := new byte[16](_ => 0);
      var salt := sessionSalt;
      for i := 0 to 14
        invariant forall j :: 0 <= j < i ==> buf[j] == salt[j]
        invariant forall j :: i <= j < 16 ==> buf[j] == 0
      {
        buf[i] := salt[i];
      }
      assert buf[..] == salt + [0, 0];
      var ssrcBuf := Be32(ssrc);
      for i := 0 to 4
        invariant forall j :: 0 <= j < 16 ==>
          buf[j] == if 4 <= j < 4 + i then Xor((salt + [0, 0])[j], ssrcBuf[j - 4]) else (salt + [0, 0])[j]
      {
        buf[4 + i] := Xor(buf[4 + i], ssrcBuf[i]);
      }
      var idxBuf := Be16(index / ROLLOVERS) + Be32(index % ROLLOVERS);
      for i := 0 to 6
        invariant forall j :: 4 <= j < 8 ==> buf[j] == Xor((salt + [0, 0])[j], ssrcBuf[j - 4])
        invariant forall j :: 8 <= j < 8 + i ==> buf[j] == Xor((salt + [0, 0])[j], idxBuf[j - 8])
        invariant forall j :: 0 <= j < 4 || 8 + i <= j < 16 ==> buf[j] == (salt + [0, 0])[j]
      {
        buf[8 + i] := Xor(buf[8 + i], idxBuf[i]);
      }
      iv := buf[..];
      MixedAt(ssrc, index);
      forall j | 0 <= j < 16
        ensures iv[j] == Xor(Mixed(ssrc, index)[j], (salt + [0, 0])[j])
      {
        XorSwaps(Mixed(ssrc, index)[j], (salt + [0, 0])[j]);
      }
    }

    /** Header in clear, payload under the keystream of its index, authentication tag behind. */
    method Protect(packet: RtpPacket, ks: Keystream, mac: Mac) returns (output: seq<byte>)
      requires packet.header.Ok() && |sessionSalt| == 14 && StreamOk(ks) && MacOk(mac)
      modifies this
      ensures State() == old(State()).Next(packet.header.sequenceNumber)
      ensures output == Sealed(packet, sessionSalt, State().Index(), ks)
                        + mac(Sealed(packet, sessionSalt, State().Index(), ks), State().roc, authTagLen)
    {
      hide XorAll, IV, Bytes, Splice;
      UpdateRoc(packet.header.sequenceNumber);
      var index := PacketIndex(packet.header.sequenceNumber);
      var headerSize := packet.header.Size();
      var buf := new byte[headerSize + |packet.payload| + authTagLen](_ => 0);
      ghost var was := buf[..];
      var n := Encode(packet.header, buf);
      var iv := GenerateIV(packet.header.ssrc, index);
      var cipher := XorAll(packet.payload, ks(iv, |packet.payload|));
      Put(buf, headerSize, cipher);
      ghost var sealed := Sealed(packet, sessionSalt, index, ks);
      SpliceWhole(was, Bytes(packet.header), cipher);
      assert buf[..headerSize + |packet.payload|] == sealed;
      if authTagLen > 0 {
        var tag := mac(buf[..headerSize + |packet.payload|], roc, authTagLen);
        Put(buf, headerSize + |packet.payload|, tag);
        SpliceWhole(was, sealed, tag);
      } else {
        assert mac(sealed, roc, authTagLen) == [];
      }
      output := buf[..];
    }

    /** Opens a packet under the index derived for it; the tag is cut off without being compared. */
    method Unprotect(data: seq<byte>, ks: Keystream) returns (r: Result<RtpPacket>)
      requires |sessionSalt| == 14 && StreamOk(ks)
      modifies this
      ensures r.Err? <==> Decode(data).Err? || |data| <= Decode(data).value.Size() + authTagLen
      ensures r.Err? ==> State() == old(State())
      ensures r.Ok? ==>
        var h := Decode(data).value;
        && State() == old(State()).Next(h.sequenceNumber) && r.value.header == h
        && var body := data[h.Size()..|data| - authTagLen];
           r.value.payload == XorAll(body, ks(IV(sessionSalt, h.ssrc, State().Index()), |body|))
    {
      if |data| < 12 {
        return Err("packet too short");
      }
      var decoded := Decode(data);
      if decoded.Err? {
        return Err(decoded.message);
      }
      var header := decoded.value;
      var headerSize := header.Size();
      var payloadLen := |data| - headerSize - authTagLen;
      if payloadLen <= 0 {
        return Err("no payload");
      }
      UpdateRoc(header.sequenceNumber);
      var index := PacketIndex(header.sequenceNumber);
      var iv := GenerateIV(header.ssrc, index);
      assert data[headerSize..headerSize + payloadLen] == data[headerSize..|data| - authTagLen];
      var decrypted := XorAll(data[headerSize..headerSize + payloadLen], ks(iv, payloadLen));
      r := Ok(RtpPacket(header, decrypted));
    }
  }

  ghost function Sealed(p: RtpPacket, salt: seq<byte>, index: nat, ks: Keystream): (s: seq<byte>)
    requires p.header.Ok() && |salt| == 14 && index < INDICES && StreamOk(ks)
    ensures |s| == p.header.Size() + |p.payload|
  {
    Bytes(p.header) + XorAll(p.payload, ks(IV(salt, p.header.ssrc, index), |p.payload|))
  }

  lemma SealedOpens(p: RtpPacket, salt: seq<byte>, index: nat, ks: Keystream, tag: seq<byte>)
    requires p.header.Ok() && |salt| == 14 && index < INDICES && StreamOk(ks)
    ensures var data, n := Sealed(p, salt, index, ks) + tag, p.header.Size();
      && Decode(data) == Ok(p.header)
      && var body := data[n..|data| - |tag|];
         |body| == |p.payload| && XorAll(body, ks(IV(salt, p.header.ssrc, index), |body|)) == p.payload
  {
    hide IV, Bytes;
    var key := ks(IV(salt, p.header.ssrc, index), |p.payload|);
    var data := Sealed(p, salt, index, ks) + tag;
    assert data == Bytes(p.header) + (XorAll(p.payload, key) + tag);
    HeaderRoundTrip(p.header, XorAll(p.payload, key) + tag);
    assert data[p.header.Size()..|data| - |tag|] == XorAll(p.payload, key);
    XorAllTwice(p.payload, key);
  }

  /** One packet across: if both sides end at the same index, header and payload come back whole. */
  method Exchange(s: SrtpContext, r: SrtpContext, p: RtpPacket, ks: Keystream, mac: Mac)
    returns (got: Result<RtpPacket>)
    requires s != r && s.sessionSalt == r.sessionSalt && s.authTagLen == r.authTagLen
    requires p.header.Ok() && |s.sessionSalt| == 14 && StreamOk(ks) && MacOk(mac) && p.payload != []
    modifies s, r
    ensures s.State() == old(s.State()).Next(p.header.sequenceNumber)
    ensures r.State() == old(r.State()).Next(p.header.sequenceNumber)
    ensures r.State() == s.State() ==> got == Ok(p)
  {
    hide IV, Decode;
    var data := s.Protect(p, ks, mac);
    ghost var index := s.State().Index();
    ghost var tag := mac(Sealed(p, s.sessionSalt, index, ks), s.State().roc, s.authTagLen);
    assert MacOk(mac);
    SealedOpens(p, s.sessionSalt, index, ks, tag);
    got := r.Unprotect(data, ks);
  }

  // ---- A whole stream ----

  /** The last packet before k that was not lost, or -1. */
  function LastGot(lost: seq<bool>, k: nat): (g: int)
    requires k <= |lost|
    ensures -1 <= g < k && (g >= 0 ==> !lost[g])
  {
    if k == 0 then -1 else if !lost[k - 1] then k - 1 else LastGot(lost, k - 1)
  }

  /** The first packet that arrives precedes the first wrap, and no gap reaches 32768. */
  predicate Bounded(first: nat, lost: seq<bool>) {
    forall k :: 0 <= k < |lost| && !lost[k] ==>
      if LastGot(lost, k) < 0 then first + k < EPOCH else k - LastGot(lost, k) < 32768
  }

  function SenderAt(first: nat, k: nat): Roc
    requires first + k < INDICES
  {
    if k == 0 then Fresh(0) else At(first + k - 1)
  }

  function ReceiverAt(first: nat, lost: seq<bool>, k: nat): Roc
    requires k <= |lost| && first + k < INDICES
  {
    if LastGot(lost, k) < 0 then Fresh(0) else At(first + LastGot(lost, k))
  }

  lemma FollowsClose(i: nat, j: nat)
    requires i <= j < i + 32768
    ensures Follows(i, j)
  {
  }

  lemma SenderStep(first: nat, k: nat)
    requires first < EPOCH && first + k < INDICES - EPOCH
    ensures SenderAt(first, k).Next((first + k) % EPOCH) == SenderAt(first, k + 1) == At(first + k)
  {
    hide At, Roc.Next, Follows;
    if k == 0 {
      FirstExactly(first);
    } else {
      FollowsClose(first + k - 1, first + k);
      StepExactly(first + k - 1, first + k);
    }
  }

  lemma BoundedAt(first: nat, lost: seq<bool>, k: nat)
    requires k < |lost| && Bounded(first, lost) && !lost[k]
    ensures if LastGot(lost, k) < 0 then first + k < EPOCH else k - LastGot(lost, k) < 32768
  {
  }

  lemma ReceiverStep(first: nat, lost: seq<bool>, k: nat)
    requires k < |lost| && first + k < INDICES - EPOCH && Bounded(first, lost)
    ensures if lost[k] then ReceiverAt(first, lost, k + 1) == ReceiverAt(first, lost, k)
            else ReceiverAt(first, lost, k).Next((first + k) % EPOCH) == ReceiverAt(first, lost, k + 1) == At(first + k)
  {
    hide At, Roc.Next, Follows, Bounded;
    if !lost[k] {
      BoundedAt(first, lost, k);
      var g := LastGot(lost, k);
      if g < 0 {
        FirstExactly(first + k);
      } else {
        FollowsClose(first + g, first + k);
        StepExactly(first + g, first + k);
      }
    }
  }

  lemma NextNumber(x: nat)
    ensures (x % EPOCH + 1) % EPOCH == (x + 1) % EPOCH
  {
  }

  lemma StreamStarts(first: nat, lost: seq<bool>)
    requires first < INDICES
    ensures SenderAt(first, 0) == Fresh(0) && ReceiverAt(first, lost, 0) == Fresh(0)
  {
  }

  /** Packets numbered in order from any start, any of them lost: every one that arrives is opened whole. */
  method Stream(session: RtpSession, s: SrtpContext, r: SrtpContext, payloads: seq<seq<byte>>, lost: seq<bool>,
                duration: nat, ks: Keystream, mac: Mac)
    returns (sent: seq<RtpPacket>, got: seq<Result<RtpPacket>>)
    requires s != r && s.sessionSalt == r.sessionSalt && s.authTagLen == r.authTagLen && |s.sessionSalt| == 14
    requires StreamOk(ks) && MacOk(mac) && session.payloadType < 128
    requires s.State() == Fresh(0) && r.State() == Fresh(0)
    requires |payloads| == |lost| && (forall k :: 0 <= k < |payloads| ==> payloads[k] != [])
    requires session.sequenceNumber as int + |lost| < INDICES - EPOCH && Bounded(session.sequenceNumber, lost)
    modifies session, s, r
    ensures |sent| == |got| == |payloads|
    ensures forall k :: 0 <= k < |sent| ==> sent[k].payload == payloads[k] && sent[k].header.ssrc == session.ssrc
    ensures forall k :: 0 <= k < |sent| && !lost[k] ==> got[k] == Ok(sent[k])
  {
    hide Bounded, Roc.Next, At, SenderAt, ReceiverAt, LastGot;
    ghost var first: nat := session.sequenceNumber;
    StreamStarts(first, lost);
    sent, got := [], [];
    for k := 0 to |payloads|
      invariant session.sequenceNumber == (first + k) % EPOCH
      invariant s.State() == SenderAt(first, k) && r.State() == ReceiverAt(first, lost, k)
      invariant |sent| == |got| == k
      invariant forall i :: 0 <= i < k ==> sent[i].payload == payloads[i] && sent[i].header.ssrc == session.ssrc
      invariant forall i :: 0 <= i < k && !lost[i] ==> got[i] == Ok(sent[i])
    {
      var p := session.CreatePacketWithDuration(payloads[k], duration, false);
      SenderStep(first, k);
      ReceiverStep(first, lost, k);
      NextNumber(first + k);
      var g := Err("lost");
      if lost[k] {
        var data := s.Protect(p, ks, mac);
      } else {
        g := Exchange(s, r, p, ks, mac);
      }
      sent, got := sent + [p], got + [g];
    }
  }

  /** No two packets of one sender share an initialisation vector before the rollover counter wraps. */
  lemma VectorsDiffer(salt: seq<byte>, ssrc: uint32, first: nat, k: nat, l: nat)
    requires |salt| == 14 && k < l && first + l < INDICES
    ensures IV(salt, ssrc, first + k) != IV(salt, ssrc, first + l)
  {
    if IV(salt, ssrc, first + k) == IV(salt, ssrc, first + l) {
      IVInjective(salt, ssrc, first + k, ssrc, first + l);
    }
  }

  /** Two strings written one behind the other stand at the front of the buffer. */
  lemma SpliceWhole(a: seq<byte>, s: seq<byte>, t: seq<byte>)
    requires |s| + |t| <= |a|
    ensures Splice(Splice(a, 0, s), |s|, t)[..|s| + |t|] == s + t
    ensures Splice(Splice(a, 0, s), |s|, t) == Splice(a, 0, s + t)
  {
    SpliceTwice(a, 0, s, t);
  }

  lemma MixedAt(ssrc: uint32, index: nat)
    requires index < INDICES
    ensures var m, b := Mixed(ssrc, index), Be16(index / ROLLOVERS) + Be32(index % ROLLOVERS);
      forall j :: 0 <= j < 16 ==> m[j] == if 4 <= j < 8 then Be32(ssrc)[j - 4] else if 8 <= j < 14 then b[j - 8] else 0
  {
  }

  lemma XorSwaps(a: byte, b: byte)
    ensures Xor(a, b) == Xor(b, a) && Xor(0, b) == b
  {
    Pow2Values();
    XorBitsSwap(a, b, 8);
    XorBitsSwap(0, b, 8);
    XorBitsZero(b, 8);
  }
}
