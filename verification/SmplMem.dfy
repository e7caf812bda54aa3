/** The address window through which the pitch decoder reads its tables, and what each read finds there. */
module SmplMemory {
  import opened Arith
  import opened RangeDecoding

  const PCFG := 0xba50ac
  const RECORDS := PCFG + 0x1d38
  const CONTOUR_MAP := 0xe7c10
  const LAG_CDF := 0xbaa7b0
  const FRAC_BASE := 0xbaa9be
  const DELTA_CDF := 0xbab13e
  const BOUNDS := 0xe7ef0
  const CONTOURS := 217
  const BLOCKS := 9
  const MODES := 3
  const DELTA_STEPS := 320

  /** A contour: runs of subframes whose lags fall in one 64-step block. */
  datatype BlockSeg = BlockSeg(blocks: seq<nat>, seglens: seq<nat>) {
    /** What a decoded contour is whatever the bits: up to six runs of up to four subframes. */
    predicate Shaped() {
      && 1 <= |blocks| <= 6 && |seglens| == |blocks|
      && forall i :: 0 <= i < |blocks| ==> blocks[i] < BLOCKS && 1 <= seglens[i] <= 4
    }
  }

  datatype PitchTables = PitchTables(
    blocksegs: seq<BlockSeg>,
    blocksegs2idx: seq<byte>,
    blocksegIdxCmf: seq<uint16>,
    deltaLagCmfs: seq<seq<uint16>>,
    firstblockRange: seq<(byte, byte)>,
    blockTransitionCmf: seq<seq<uint16>>)
  {
    /** The table sizes the layout is built for. */
    ghost predicate Shaped() {
      && |blocksegs| == CONTOURS && (forall i :: 0 <= i < CONTOURS ==> blocksegs[i].Shaped())
      && |blocksegs2idx| == CONTOURS && |blocksegIdxCmf| == CONTOURS + 1
      && |deltaLagCmfs| == MODES && (forall i :: 0 <= i < MODES ==> |deltaLagCmfs[i]| == DELTA_STEPS)
      && |firstblockRange| == BLOCKS
      && |blockTransitionCmf| == BLOCKS
      && forall i :: 0 <= i < BLOCKS ==> |blockTransitionCmf[i]| == BLOCKS + 1
    }
  }

  /** One contour of the seed's bitstream: a length, then block and run length pairs. */
  method DecodeBlockseg(dec: RangeDecoder) returns (bs: BlockSeg)
    requires dec.Valid()
    modifies dec
    ensures dec.Valid() && dec.Err == old(dec.Err) && bs.Shaped()
  {
    hide RangeDecoder.Valid;
    var length := dec.DecodeUniform(6, 0, []);
    var blocks: seq<nat>, seglens: seq<nat> := [], [];
    for j := 0 to length + 1
      invariant dec.Valid() && dec.Err == old(dec.Err) && |blocks| == |seglens| == j
      invariant forall i :: 0 <= i < j ==> blocks[i] < BLOCKS && 1 <= seglens[i] <= 4
    {
      var b := dec.DecodeUniform(9, 0, []);
      var s := dec.DecodeUniform(4, 0, []);
      blocks, seglens := blocks + [b], seglens + [s + 1];
    }
    bs := BlockSeg(blocks, seglens);
  }

  // ---- Little-endian layout ----

  function Low(x: uint32, k: nat): byte {
    if k == 0 then x % 256 else if k == 1 then x / 256 % 256 else if k == 2 then x / 0x1_0000 % 256 else x / 0x100_0000
  }

  function Bytes4(ws: seq<uint32>): (s: seq<byte>)
    ensures |s| == 4 * |ws|
  {
    seq(4 * |ws|, i requires 0 <= i < 4 * |ws| => Low(ws[i / 4], i % 4))
  }

  function Bytes2(ws: seq<uint16>): (s: seq<byte>)
    ensures |s| == 2 * |ws|
  {
    seq(2 * |ws|, i requires 0 <= i < 2 * |ws| => Low(ws[i / 2], i % 2))
  }

  function Pairs(ps: seq<(byte, byte)>): (s: seq<byte>)
    ensures |s| == 2 * |ps|
  {
    seq(2 * |ps|, i requires 0 <= i < 2 * |ps| => if i % 2 == 0 then ps[i / 2].0 else ps[i / 2].1)
  }

  function Concat<T>(rows: seq<seq<T>>): seq<T> {
    if rows == [] then [] else Concat(rows[..|rows| - 1]) + rows[|rows| - 1]
  }

  lemma {:induction false} ConcatAt<T>(rows: seq<seq<T>>, width: nat, r: nat, k: nat)
    requires forall i :: 0 <= i < |rows| ==> |rows[i]| == width
    requires r < |rows| && k < width
    ensures |Concat(rows)| == |rows| * width
    ensures r * width + k < |rows| * width && Concat(rows)[r * width + k] == rows[r][k]
  {
    var init := rows[..|rows| - 1];
    ConcatSize(rows, width);
    ConcatSize(init, width);
    RowFits(|init|, width, r, k);
    if r < |init| {
      ConcatAt(init, width, r, k);
    }
  }

  lemma {:induction false} ConcatSize<T>(rows: seq<seq<T>>, width: nat)
    requires forall i :: 0 <= i < |rows| ==> |rows[i]| == width
    ensures |Concat(rows)| == |rows| * width
  {
    if rows != [] {
      ConcatSize(rows[..|rows| - 1], width);
      assert |rows| * width == (|rows| - 1) * width + width;
    }
  }

  lemma RowFits(n: nat, width: nat, r: nat, k: nat)
    requires r <= n && k < width
    ensures r * width + k < (n + 1) * width
    ensures r < n ==> r * width + k < n * width
    ensures r == n ==> r * width == n * width
  {
    MulOrder(width, r + 1, n + 1);
    if r < n {
      MulOrder(width, r + 1, n);
    }
  }

  // ---- Regions ----

  datatype Region = Region(base: uint32, data: seq<byte>) {
    predicate Covers(addr: uint32, n: nat) {
      base <= addr && addr - base + n <= |data|
    }
  }

  datatype Found = Nowhere | Found(data: seq<byte>, off: nat)

  function Glue(low: int, high: int): int {
    low + 0x100 * high
  }

  /** Reads outside every region yield zero. */
  datatype SmplMem = SmplMem(regions: seq<Region>) {
    function U8(addr: uint32): byte {
      match RegionFor(regions, addr, 1)
      case Nowhere => 0
      case Found(data, off) => data[off]
    }

    function U16(addr: uint32): uint16 {
      match RegionFor(regions, addr, 2)
      case Nowhere => 0
      case Found(data, off) => Glue(data[off], data[off + 1])
    }

    function U32(addr: uint32): uint32 {
      match RegionFor(regions, addr, 4)
      case Nowhere => 0
      case Found(data, off) =>
        Glue(data[off], data[off + 1]) + 0x1_0000 * Glue(data[off + 2], data[off + 3])
    }

    function I32(addr: uint32): int {
      if U32(addr) < 0x8000_0000 then U32(addr) else U32(addr) - 0x1_0000_0000
    }

    function CDFAt(addr: uint32, n: nat): (cdf: seq<uint16>)
      ensures |cdf| == n
    {
      seq(n, i => U16(Addr(addr + 2 * i)))
    }
  }

  /** 32-bit address arithmetic. */
  function Addr(a: int): uint32 {
    a % 0x1_0000_0000
  }

  /** The first region that covers the whole range. */
  function RegionFor(regions: seq<Region>, addr: uint32, n: nat): (f: Found)
    ensures f.Found? ==> f.off + n <= |f.data|
  {
    if regions == [] then Nowhere
    else if regions[0].Covers(addr, n) then Found(regions[0].data, addr - regions[0].base)
    else RegionFor(regions[1..], addr, n)
  }

  lemma {:induction false} NoneCovering(regions: seq<Region>, addr: uint32, n: nat)
    requires forall j :: 0 <= j < |regions| ==> !regions[j].Covers(addr, n)
    ensures RegionFor(regions, addr, n) == Nowhere
  {
    if regions != [] {
      NoneCovering(regions[1..], addr, n);
    }
  }

  /** A read that no region covers whole is zero, for every width; a signed read is the unsigned one modulo 2^32. */
  lemma ReadsElsewhere(m: SmplMem, addr: uint32)
    ensures (forall j :: 0 <= j < |m.regions| ==> !m.regions[j].Covers(addr, 1)) ==> m.U8(addr) == 0
    ensures (forall j :: 0 <= j < |m.regions| ==> !m.regions[j].Covers(addr, 2)) ==> m.U16(addr) == 0
    ensures (forall j :: 0 <= j < |m.regions| ==> !m.regions[j].Covers(addr, 4)) ==> m.U32(addr) == 0 == m.I32(addr)
    ensures -0x8000_0000 <= m.I32(addr) < 0x8000_0000 && (m.U32(addr) - m.I32(addr)) % 0x1_0000_0000 == 0
  {
    if forall j :: 0 <= j < |m.regions| ==> !m.regions[j].Covers(addr, 1) {
      NoneCovering(m.regions, addr, 1);
    }
    if forall j :: 0 <= j < |m.regions| ==> !m.regions[j].Covers(addr, 2) {
      NoneCovering(m.regions, addr, 2);
    }
    if forall j :: 0 <= j < |m.regions| ==> !m.regions[j].Covers(addr, 4) {
      NoneCovering(m.regions, addr, 4);
    }
  }

  lemma {:induction false} FirstCovering(regions: seq<Region>, k: nat, addr: uint32, n: nat)
    requires k < |regions| && regions[k].Covers(addr, n)
    requires forall j :: 0 <= j < k ==> !regions[j].Covers(addr, n)
    ensures RegionFor(regions, addr, n) == Found(regions[k].data, addr - regions[k].base)
  {
    if k > 0 {
      FirstCovering(regions[1..], k - 1, addr, n);
    }
  }

  // ---- The window ----

  /** Eight blocks, eight run lengths and a count; unused places are zero. */
  function RecordWords(bs: BlockSeg): (ws: seq<uint32>)
    requires bs.Shaped()
    ensures |ws| == 17
  {
    seq(17, i requires 0 <= i < 17 =>
      if i < 8 then (if i < |bs.blocks| then bs.blocks[i] else 0)
      else if i < 16 then (if i - 8 < |bs.seglens| then bs.seglens[i - 8] else 0)
      else |bs.blocks|)
  }

  ghost function Records(blocksegs: seq<BlockSeg>): (rows: seq<seq<uint32>>)
    requires forall i :: 0 <= i < |blocksegs| ==> blocksegs[i].Shaped()
    ensures |rows| == |blocksegs| && forall i :: 0 <= i < |rows| ==> rows[i] == RecordWords(blocksegs[i])
  {
    seq(|blocksegs|, i requires 0 <= i < |blocksegs| => RecordWords(blocksegs[i]))
  }

  const HEADERS: seq<uint32> := [187, CONTOURS, CONTOUR_MAP, LAG_CDF, FRAC_BASE, 0xe7d20, 0xe7ef0, 0xe8096, DELTA_CDF]

  ghost function Layout(t: PitchTables): SmplMem
    requires t.Shaped()
  {
    SmplMem([
      Region(RECORDS, Bytes4(Concat(Records(t.blocksegs)) + HEADERS)),
      Region(LAG_CDF, Bytes2(t.blocksegIdxCmf)),
      Region(FRAC_BASE, Bytes2(Concat(t.deltaLagCmfs))),
      Region(DELTA_CDF, Bytes2(Concat(t.blockTransitionCmf))),
      Region(CONTOUR_MAP, t.blocksegs2idx),
      Region(BOUNDS, Pairs(t.firstblockRange) + [0, 0])])
  }

  lemma Sizes(t: PitchTables)
    requires t.Shaped()
    ensures |Concat(Records(t.blocksegs))| == 3689
    ensures |Concat(t.deltaLagCmfs)| == 960 && |Concat(t.blockTransitionCmf)| == 90
  {
    ConcatSize(Records(t.blocksegs), 17);
    ConcatSize(t.deltaLagCmfs, DELTA_STEPS);
    ConcatSize(t.blockTransitionCmf, BLOCKS + 1);
  }

  // ---- The builder ----

  method Put32(r0: seq<byte>, x: uint32, ghost ws: seq<uint32>) returns (r: seq<byte>)
    requires r0 == Bytes4(ws)
    ensures r == Bytes4(ws + [x])
  {
    r := r0 + [x % 256, x / 256 % 256, x / 0x1_0000 % 256, x / 0x100_0000];
    forall i | 0 <= i < |r|
      ensures r[i] == Bytes4(ws + [x])[i]
    {
      if i >= 4 * |ws| {
        assert i / 4 == |ws|;
      }
    }
  }

  method PutRecord(r0: seq<byte>, bs: BlockSeg, ghost ws: seq<uint32>) returns (r: seq<byte>)
    requires r0 == Bytes4(ws) && bs.Shaped()
    ensures r == Bytes4(ws + RecordWords(bs))
  {
    hide Bytes4;
    ghost var rec := RecordWords(bs);
    assert ws + rec[..0] == ws;
    r := r0;
    for i := 0 to 8
      invariant r == Bytes4(ws + rec[..i])
    {
      var v := 0;
      if i < |bs.blocks| {
        v := bs.blocks[i];
      }
      assert ws + rec[..i] + [v] == ws + rec[..i + 1];
      r := Put32(r, v, ws + rec[..i]);
    }
    for i := 0 to 8
      invariant r == Bytes4(ws + rec[..8 + i])
    {
      var v := 0;
      if i < |bs.seglens| {
        v := bs.seglens[i];
      }
      assert ws + rec[..8 + i] + [v] == ws + rec[..9 + i];
      r := Put32(r, v, ws + rec[..8 + i]);
    }
    r := Put32(r, |bs.blocks|, ws + rec[..16]);
    assert ws + rec[..16] + [|bs.blocks|] == ws + rec;
  }

  method U16Bytes(v: seq<uint16>) returns (b: seq<byte>)
    ensures b == Bytes2(v)
  {
    b := [];
    for i := 0 to |v|
      invariant |b| == 2 * i && forall j :: 0 <= j < 2 * i ==> b[j] == Low(v[j / 2], j % 2)
    {
      b := b + [v[i] % 256, v[i] / 256];
    }
  }

  method Append(rows: seq<seq<uint16>>) returns (v: seq<uint16>)
    ensures v == Concat(rows)
  {
    v := [];
    for i := 0 to |rows|
      invariant v == Concat(rows[..i])
    {
      assert rows[..i + 1][..i] == rows[..i];
      v := v + rows[i];
    }
    assert rows[..|rows|] == rows;
  }

  method PutRecords(blocksegs: seq<BlockSeg>) returns (r0: seq<byte>)
    requires forall i :: 0 <= i < |blocksegs| ==> blocksegs[i].Shaped()
    ensures r0 == Bytes4(Concat(Records(blocksegs)))
  {
    hide Bytes4, BlockSeg.Shaped, RecordWords;
    ghost var rows := Records(blocksegs);
    r0 := [];
    EmptyBytes();
    for i := 0 to |blocksegs|
      invariant r0 == Bytes4(Concat(rows[..i]))
    {
      assert rows[..i + 1][..i] == rows[..i];
      r0 := PutRecord(r0, blocksegs[i], Concat(rows[..i]));
    }
    assert rows[..|rows|] == rows;
  }

  lemma EmptyBytes()
    ensures Bytes4([]) == []
  {
  }

  method PutHeaders(r: seq<byte>, ghost ws: seq<uint32>) returns (r0: seq<byte>)
    requires r == Bytes4(ws)
    ensures r0 == Bytes4(ws + HEADERS)
  {
    hide Bytes4;
    var headers: seq<uint32> := [CONTOURS, CONTOUR_MAP, LAG_CDF, FRAC_BASE, 0xe7d20, 0xe7ef0, 0xe8096, DELTA_CDF];
    r0 := Put32(r, 187, ws);
    assert [187] + headers[..0] == [187];
    for i := 0 to |headers|
      invariant r0 == Bytes4(ws + ([187] + headers[..i]))
    {
      assert ws + ([187] + headers[..i]) + [headers[i]] == ws + ([187] + headers[..i + 1]);
      r0 := Put32(r0, headers[i], ws + ([187] + headers[..i]));
    }
    assert [187] + headers[..|headers|] == HEADERS;
  }

  method BuildSmplMem(w: PitchTables) returns (m: SmplMem)
    requires w.Shaped()
    ensures m == Layout(w)
  {
    hide Bytes4, Bytes2, Concat;
    var r0 := PutRecords(w.blocksegs);
    r0 := PutHeaders(r0, Concat(Records(w.blocksegs)));
    var regions := [Region(RECORDS, r0)];
    var lag := U16Bytes(w.blocksegIdxCmf);
    regions := regions + [Region(LAG_CDF, lag)];
    var frac := Append(w.deltaLagCmfs);
    frac := U16Bytes(frac);
    regions := regions + [Region(FRAC_BASE, frac)];
    var delta := Append(w.blockTransitionCmf);
    delta := U16Bytes(delta);
    regions := regions + [Region(DELTA_CDF, delta)];
    regions := regions + [Region(CONTOUR_MAP, w.blocksegs2idx)];
    var bounds: seq<byte> := [];
    for i := 0 to |w.firstblockRange|
      invariant bounds == Pairs(w.firstblockRange[..i])
    {
      bounds := bounds + [w.firstblockRange[i].0, w.firstblockRange[i].1];
    }
    assert w.firstblockRange[..|w.firstblockRange|] == w.firstblockRange;
    m := SmplMem(regions + [Region(BOUNDS, bounds + [0, 0])]);
  }

  // ---- What the reads find ----

  lemma Word16(ws: seq<uint16>, regions: seq<Region>, k: nat, i: nat, addr: uint32)
    requires i < |ws| && k < |regions| && regions[k].data == Bytes2(ws) && addr == regions[k].base + 2 * i
    requires forall j :: 0 <= j < k ==> !regions[j].Covers(addr, 2)
    ensures SmplMem(regions).U16(addr) == ws[i]
  {
    FirstCovering(regions, k, addr, 2);
    assert (2 * i) / 2 == i && (2 * i + 1) / 2 == i;
  }

  lemma Word32(ws: seq<uint32>, regions: seq<Region>, i: nat, addr: uint32)
    requires i < |ws| && regions != [] && regions[0].data == Bytes4(ws) && addr == regions[0].base + 4 * i
    ensures SmplMem(regions).U32(addr) == ws[i]
  {
    hide Low;
    FirstCovering(regions, 0, addr, 4);
    WordBytes(ws, i);
    Digits(ws[i]);
  }

  lemma WordBytes(ws: seq<uint32>, i: nat)
    requires i < |ws|
    ensures forall k :: 0 <= k < 4 ==> Bytes4(ws)[4 * i + k] == Low(ws[i], k)
  {
    forall k | 0 <= k < 4
      ensures Bytes4(ws)[4 * i + k] == Low(ws[i], k)
    {
      assert (4 * i + k) / 4 == i && (4 * i + k) % 4 == k;
    }
  }

  lemma Digits(x: uint32)
    ensures Low(x, 0) + 0x100 * Low(x, 1) + 0x1_0000 * Low(x, 2) + 0x100_0000 * Low(x, 3) == x
  {
    assert x / 0x1_0000 == x / 256 / 256 && x / 0x100_0000 == x / 0x1_0000 / 256;
  }

  /** The header words hold the table addresses. */
  lemma HeaderReads(t: PitchTables)
    requires t.Shaped()
    ensures var m := Layout(t);
      && m.U32(PCFG + 22240) == CONTOURS && m.U32(PCFG + 22244) == CONTOUR_MAP && m.U32(PCFG + 22248) == LAG_CDF
      && m.U32(PCFG + 22252) == FRAC_BASE && m.U32(PCFG + 22268) == DELTA_CDF
  {
    Sizes(t);
    var ws := Concat(Records(t.blocksegs)) + HEADERS;
    var regions := Layout(t).regions;
    hide Bytes4, Bytes2, Concat, Layout;
    Word32(ws, regions, 3690, PCFG + 22240);
    Word32(ws, regions, 3691, PCFG + 22244);
    Word32(ws, regions, 3692, PCFG + 22248);
    Word32(ws, regions, 3693, PCFG + 22252);
    Word32(ws, regions, 3697, PCFG + 22268);
  }

  lemma RecordWord(t: PitchTables, c: nat, j: nat)
    requires t.Shaped() && c < CONTOURS && j < 17
    ensures t.blocksegs[c].Shaped()
    ensures Layout(t).U32(PCFG + 0x44 * c + 0x1d38 + 4 * j) == RecordWords(t.blocksegs[c])[j]
  {
    Sizes(t);
    var rows := Records(t.blocksegs);
    var ws := Concat(rows) + HEADERS;
    var regions := Layout(t).regions;
    hide Bytes4, Bytes2, Concat, Layout, PitchTables.Shaped, RecordWords;
    ConcatAt(rows, 17, c, j);
    Word32(ws, regions, 17 * c + j, PCFG + 0x44 * c + 0x1d38 + 4 * j);
  }

  /** Words of contour c: its blocks, its run lengths, its count. */
  lemma RecordReads(t: PitchTables, c: nat, i: nat)
    requires t.Shaped() && c < CONTOURS && i < |t.blocksegs[c].blocks|
    ensures var m, base := Layout(t), PCFG + 0x44 * c;
      && m.I32(base + 0x1d38 + 4 * i) == t.blocksegs[c].blocks[i]
      && m.I32(base + 0x1d58 + 4 * i) == t.blocksegs[c].seglens[i]
      && m.I32(base + 0x1d78) == |t.blocksegs[c].blocks|
  {
    hide Layout, SmplMem.U32;
    RecordWord(t, c, i);
    RecordWord(t, c, 8 + i);
    RecordWord(t, c, 16);
    hide PitchTables.Shaped;
  }

  lemma LagReads(t: PitchTables, lo: nat, n: nat)
    requires t.Shaped() && lo + n <= |t.blocksegIdxCmf|
    ensures Layout(t).CDFAt(LAG_CDF + 2 * lo, n) == t.blocksegIdxCmf[lo..lo + n]
  {
    Sizes(t);
    forall i | 0 <= i < n
      ensures Layout(t).U16(LAG_CDF + 2 * lo + 2 * i) == t.blocksegIdxCmf[lo + i]
    {
      Word16(t.blocksegIdxCmf, Layout(t).regions, 1, lo + i, LAG_CDF + 2 * lo + 2 * i);
    }
  }

  lemma DeltaReads(t: PitchTables, mode: nat, lo: nat, n: nat)
    requires t.Shaped() && mode < MODES && lo + n <= DELTA_STEPS
    ensures Layout(t).CDFAt(FRAC_BASE + 0x280 * mode + 2 * lo, n) == t.deltaLagCmfs[mode][lo..lo + n]
  {
    Sizes(t);
    forall i | 0 <= i < n
      ensures Layout(t).U16(FRAC_BASE + 0x280 * mode + 2 * lo + 2 * i) == t.deltaLagCmfs[mode][lo + i]
    {
      ConcatAt(t.deltaLagCmfs, DELTA_STEPS, mode, lo + i);
      Word16(Concat(t.deltaLagCmfs), Layout(t).regions, 2, 320 * mode + lo + i,
             FRAC_BASE + 0x280 * mode + 2 * lo + 2 * i);
    }
  }

  lemma TransitionReads(t: PitchTables, b: nat)
    requires t.Shaped() && b < BLOCKS
    ensures Layout(t).CDFAt(DELTA_CDF + 20 * b, 10) == t.blockTransitionCmf[b]
  {
    Sizes(t);
    forall i | 0 <= i < 10
      ensures Layout(t).U16(DELTA_CDF + 20 * b + 2 * i) == t.blockTransitionCmf[b][i]
    {
      ConcatAt(t.blockTransitionCmf, 10, b, i);
      Word16(Concat(t.blockTransitionCmf), Layout(t).regions, 3, 10 * b + i, DELTA_CDF + 20 * b + 2 * i);
    }
  }

  lemma ContourReads(t: PitchTables, i: nat)
    requires t.Shaped() && i < CONTOURS
    ensures Layout(t).U8(CONTOUR_MAP + i) == t.blocksegs2idx[i]
  {
    Sizes(t);
    FirstCovering(Layout(t).regions, 4, CONTOUR_MAP + i, 1);
  }

  lemma BoundReads(t: PitchTables, b: nat)
    requires t.Shaped() && b < BLOCKS
    ensures Layout(t).U8(BOUNDS + 2 * b) == t.firstblockRange[b].0
    ensures Layout(t).U8(BOUNDS + 2 * b + 1) == t.firstblockRange[b].1
  {
    Sizes(t);
    FirstCovering(Layout(t).regions, 5, BOUNDS + 2 * b, 1);
    FirstCovering(Layout(t).regions, 5, BOUNDS + 2 * b + 1, 1);
    assert (2 * b + 1) / 2 == b;
  }
}
