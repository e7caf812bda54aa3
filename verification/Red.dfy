/**
 * The redundancy depacketiser: two-byte headers for older frames, a one-byte header for the main one, then
 * the frames.
 */
module Red {
  import opened Arith

  datatype Frame = Frame(data: seq<byte>, timeCode: byte, isMain: bool)

  datatype RedError = PktSizeZero | HeaderTooShort | RedundantTooShort | MainTooShort

  datatype Result = Ok(frames: seq<Frame>) | Err(error: RedError)

  datatype RedBlock = RedBlock(code: byte, size: byte)

  // ---- The packer ----

  /** Redundant frames that a header can describe, then one non-empty main frame. */
  predicate Packable(fs: seq<Frame>) {
    && fs != [] && Past(fs[..|fs| - 1])
    && var main := fs[|fs| - 1];
       main.isMain && main.timeCode < 128 && main.data != []
  }

  predicate Past(fs: seq<Frame>) {
    forall i :: 0 <= i < |fs| ==> !fs[i].isMain && fs[i].timeCode < 128 && |fs[i].data| < 256
  }

  function Headers(fs: seq<Frame>): (s: seq<byte>)
    requires Past(fs)
    ensures |s| == 2 * |fs|
  {
    if fs == [] then []
    else Headers(fs[..|fs| - 1]) + [fs[|fs| - 1].timeCode + 128, |fs[|fs| - 1].data|]
  }

  function Bodies(fs: seq<Frame>): seq<byte> {
    if fs == [] then [] else Bodies(fs[..|fs| - 1]) + fs[|fs| - 1].data
  }

  function Pack(fs: seq<Frame>): (p: seq<byte>)
    requires Packable(fs)
  {
    Headers(fs[..|fs| - 1]) + [fs[|fs| - 1].timeCode] + Bodies(fs)
  }

  // ---- The depacketiser as a function ----

  function Sizes(red: seq<RedBlock>): nat {
    if red == [] then 0 else Sizes(red[..|red| - 1]) + red[|red| - 1].size
  }

  /** How the header run of p ends: at the main header, or at an error. */
  datatype Run = Run(red: seq<RedBlock>, error: RedError) | Main(red: seq<RedBlock>)

  /** Reads headers from cur on, with rem bytes left for them and their frames. */
  function Scan(p: seq<byte>, red: seq<RedBlock>): (r: Run)
    requires 2 * |red| + Sizes(red) <= |p|
    ensures r.Main? ==> 2 * |r.red| + Sizes(r.red) + 2 <= |p| && p[2 * |r.red|] < 128
    decreases |p| - 2 * |red|
  {
    var cur, rem := 2 * |red|, |p| - 2 * |red| - Sizes(red);
    if rem == 0 then Run(red, HeaderTooShort)
    else if p[cur] < 128 then (if rem <= 1 then Run(red, MainTooShort) else Main(red))
    else if rem <= 2 || p[cur + 1] + 2 >= rem then Run(red, RedundantTooShort)
    else
      var b := RedBlock(p[cur] - 128, p[cur + 1]);
      assert (red + [b])[..|red|] == red;
      Scan(p, red + [b])
  }

  /** The redundant frame of block i, whose data lies behind all headers and the data before it. */
  function FrameAt(p: seq<byte>, red: seq<RedBlock>, i: nat): Frame
    requires 2 * |red| + Sizes(red) + 2 <= |p| && i < |red|
  {
    SizesGrow(red, i + 1);
    assert red[..i + 1][..i] == red[..i];
    var start := 2 * |red| + 1 + Sizes(red[..i]);
    Frame(p[start..start + red[i].size], red[i].code, false)
  }

  lemma {:induction false} SizesGrow(red: seq<RedBlock>, k: nat)
    requires k <= |red|
    ensures Sizes(red[..k]) <= Sizes(red)
  {
    if k < |red| {
      SizesGrow(red[..|red| - 1], k);
      assert red[..|red| - 1][..k] == red[..k];
    } else {
      assert red[..k] == red;
    }
  }

  function Cut(p: seq<byte>, red: seq<RedBlock>, k: nat): (fs: seq<Frame>)
    requires 2 * |red| + Sizes(red) + 2 <= |p| && k <= |red|
    ensures |fs| == k
  {
    if k == 0 then [] else Cut(p, red, k - 1) + [FrameAt(p, red, k - 1)]
  }

  function MainFrame(p: seq<byte>, red: seq<RedBlock>): Frame
    requires 2 * |red| + Sizes(red) + 2 <= |p| && p[2 * |red|] < 128
  {
    Frame(p[2 * |red| + 1 + Sizes(red)..], p[2 * |red|], true)
  }

  function Depack(p: seq<byte>): Result {
    if p == [] then Err(PktSizeZero)
    else
      match Scan(p, [])
      case Run(_, e) => Err(e)
      case Main(red) => Ok(Cut(p, red, |red|) + [MainFrame(p, red)])
  }

  lemma SizesTake(red: seq<RedBlock>, k: nat)
    requires k < |red|
    ensures Sizes(red[..k + 1]) == Sizes(red[..k]) + red[k].size <= Sizes(red)
  {
    SizesGrow(red, k + 1);
    assert red[..k + 1][..k] == red[..k];
  }

  lemma SizesPush(red: seq<RedBlock>, b: RedBlock)
    ensures Sizes(red + [b]) == Sizes(red) + b.size
  {
    assert (red + [b])[..|red|] == red;
  }

  /** One turn of the header loop. */
  lemma ScanStep(p: seq<byte>, red: seq<RedBlock>)
    requires 2 * |red| + Sizes(red) <= |p|
    ensures var cur, rem := 2 * |red|, |p| - 2 * |red| - Sizes(red);
      && (rem == 0 ==> Scan(p, red) == Run(red, HeaderTooShort))
      && (rem == 1 && p[cur] < 128 ==> Scan(p, red) == Run(red, MainTooShort))
      && (rem > 1 && p[cur] < 128 ==> Scan(p, red) == Main(red))
      && (0 < rem && p[cur] >= 128 && (rem <= 2 || p[cur + 1] + 2 >= rem) ==>
        Scan(p, red) == Run(red, RedundantTooShort))
      && (rem > 2 && p[cur] >= 128 && p[cur + 1] + 2 < rem ==>
            var next := red + [RedBlock(p[cur] - 128, p[cur + 1])];
            2 * |next| + Sizes(next) <= |p| && Scan(p, red) == Scan(p, next))
  {
    var cur, rem := 2 * |red|, |p| - 2 * |red| - Sizes(red);
    if rem > 2 && p[cur] >= 128 {
      SizesPush(red, RedBlock(p[cur] - 128, p[cur + 1]));
    }
  }

  lemma FrameIs(p: seq<byte>, red: seq<RedBlock>, i: nat)
    requires 2 * |red| + Sizes(red) + 2 <= |p| && i < |red|
    ensures var start := 2 * |red| + 1 + Sizes(red[..i]);
      start + red[i].size <= |p| && FrameAt(p, red, i) == Frame(p[start..start + red[i].size], red[i].code, false)
  {
    SizesTake(red, i);
  }

  // ---- The depacketiser as it runs ----

  method ScanHeaders(p: seq<byte>) returns (run: Run, cur: nat, rem: nat)
    requires p != []
    ensures run == Scan(p, [])
    ensures run.Main? ==> cur == 2 * |run.red| && rem == |p| - 2 * |run.red| - Sizes(run.red)
  {
    hide Scan;
    var red: seq<RedBlock> := [];
    cur, rem := 0, |p|;
    while true
      invariant cur == 2 * |red| && rem == |p| - 2 * |red| - Sizes(red)
      invariant Scan(p, []) == Scan(p, red)
      decreases rem
    {
      hide Sizes;
      ScanStep(p, red);
      if rem == 0 {
        return Run(red, HeaderTooShort), cur, rem;
      }
      var b0 := p[cur];
      if b0 < 128 {
        if rem <= 1 {
          return Run(red, MainTooShort), cur, rem;
        }
        return Main(red), cur, rem;
      }
      if rem <= 2 {
        return Run(red, RedundantTooShort), cur, rem;
      }
      var size := p[cur + 1];
      if size + 2 >= rem {
        return Run(red, RedundantTooShort), cur, rem;
      }
      assert b0 % 128 == b0 - 128;
      SizesPush(red, RedBlock(b0 % 128, size));
      red := red + [RedBlock(b0 % 128, size)];
      cur := cur + 2;
      rem := rem - (size + 2);
    }
  }

  method DepackSplitRed(p: seq<byte>) returns (r: Result)
    ensures r == Depack(p)
  {
    hide Scan, FrameAt;
    if |p| == 0 {
      return Err(PktSizeZero);
    }
    var run, cur, rem := ScanHeaders(p);
    if run.Run? {
      return Err(run.error);
    }
    var red := run.red;
    var mainCode := p[cur] % 128;
    cur := cur + 1;
    var frames := [];
    assert red[..0] == [];
    for i := 0 to |red|
      invariant cur == 2 * |red| + 1 + Sizes(red[..i]) && frames == Cut(p, red, i)
    {
      hide Sizes;
      SizesTake(red, i);
      FrameIs(p, red, i);
      frames := frames + [Frame(p[cur..cur + red[i].size], red[i].code, false)];
      cur := cur + red[i].size;
    }
    assert red[..|red|] == red;
    var mainSize := rem - 1;
    assert p[cur..cur + mainSize] == p[cur..];
    frames := frames + [Frame(p[cur..cur + mainSize], mainCode, true)];
    r := Ok(frames);
  }

  // ---- Depacketising inverts packing ----

  function Blocks(fs: seq<Frame>): (red: seq<RedBlock>)
    requires Past(fs)
    ensures |red| == |fs|
    ensures forall i :: 0 <= i < |fs| ==> red[i] == RedBlock(fs[i].timeCode, |fs[i].data|)
  {
    seq(|fs|, i requires 0 <= i < |fs| => RedBlock(fs[i].timeCode, |fs[i].data|))
  }

  lemma {:induction false} HeaderAt(fs: seq<Frame>, i: nat)
    requires Past(fs) && i < |fs|
    ensures Headers(fs)[2 * i] == fs[i].timeCode + 128 && Headers(fs)[2 * i + 1] == |fs[i].data|
  {
    if i < |fs| - 1 {
      HeaderAt(fs[..|fs| - 1], i);
    }
  }

  lemma {:induction false} BodiesSize(fs: seq<Frame>)
    requires Past(fs)
    ensures |Bodies(fs)| == Sizes(Blocks(fs))
  {
    if fs != [] {
      BodiesSize(fs[..|fs| - 1]);
      assert Blocks(fs)[..|fs| - 1] == Blocks(fs[..|fs| - 1]);
    }
  }

  /** The layout of a packed packet: headers, main code, bodies, main data. */
  lemma Layout(fs: seq<Frame>)
    requires Packable(fs)
    ensures var past, main := fs[..|fs| - 1], fs[|fs| - 1];
      && Pack(fs) == Headers(past) + [main.timeCode] + Bodies(past) + main.data
      && |Bodies(past)| == Sizes(Blocks(past))
      && |Pack(fs)| == 2 * |past| + 1 + Sizes(Blocks(past)) + |main.data|
  {
    BodiesSize(fs[..|fs| - 1]);
  }

  lemma {:induction false} ScanPacked(fs: seq<Frame>, k: nat)
    requires Packable(fs) && k < |fs|
    ensures var red := Blocks(fs[..|fs| - 1]);
      && 2 * k + Sizes(red[..k]) <= |Pack(fs)| && Scan(Pack(fs), red[..k]) == Main(red)
    decreases |fs| - k
  {
    hide Scan, Sizes, Headers, Bodies, Pack;
    var past := fs[..|fs| - 1];
    var red, p := Blocks(past), Pack(fs);
    Layout(fs);
    SizesGrow(red, k);
    ScanStep(p, red[..k]);
    if k == |past| {
      assert red[..k] == red;
      assert p[2 * k] == fs[|fs| - 1].timeCode;
    } else {
      HeaderAt(past, k);
      assert p[2 * k] == Headers(past)[2 * k] && p[2 * k + 1] == Headers(past)[2 * k + 1];
      SizesTake(red, k);
      assert red[..k + 1] == red[..k] + [red[k]];
      ScanPacked(fs, k + 1);
    }
  }

  lemma {:induction false} BodyAt(fs: seq<Frame>, i: nat)
    requires Past(fs) && i < |fs|
    ensures var s := Sizes(Blocks(fs)[..i]);
      s + |fs[i].data| <= |Bodies(fs)| && Bodies(fs)[s..s + |fs[i].data|] == fs[i].data
  {
    var init, last := fs[..|fs| - 1], fs[|fs| - 1].data;
    BodiesSize(init);
    assert Blocks(fs)[..|fs| - 1] == Blocks(init);
    var body := Bodies(init);
    assert Bodies(fs) == body + last;
    if i < |fs| - 1 {
      BodyAt(init, i);
      assert Blocks(fs)[..i] == Blocks(init)[..i];
      var s := Sizes(Blocks(fs)[..i]);
      assert (body + last)[s..s + |fs[i].data|] == body[s..s + |fs[i].data|];
    } else {
      assert (body + last)[|body|..|body| + |last|] == last;
    }
  }

  lemma FramePacked(fs: seq<Frame>, i: nat)
    requires Packable(fs) && i < |fs| - 1
    ensures var red := Blocks(fs[..|fs| - 1]);
      2 * |red| + Sizes(red) + 2 <= |Pack(fs)| && FrameAt(Pack(fs), red, i) == fs[i]
  {
    hide Sizes, Headers, Bodies, Pack, FrameAt;
    Layout(fs);
    var past := fs[..|fs| - 1];
    var red, p := Blocks(past), Pack(fs);
    BodyAt(past, i);
    FrameIs(p, red, i);
    var s, start, n := Sizes(red[..i]), 2 * |red| + 1, |past[i].data|;
    assert p[start..start + |Bodies(past)|] == Bodies(past);
    assert p[start + s..start + s + n] == p[start..start + |Bodies(past)|][s..s + n];
  }

  lemma {:induction false} CutPacked(fs: seq<Frame>, k: nat)
    requires Packable(fs) && k < |fs|
    ensures var red := Blocks(fs[..|fs| - 1]);
      && 2 * |red| + Sizes(red) + 2 <= |Pack(fs)| && Cut(Pack(fs), red, k) == fs[..k]
  {
    hide Sizes, Pack, FrameAt;
    Layout(fs);
    if k > 0 {
      CutPacked(fs, k - 1);
      FramePacked(fs, k - 1);
    }
  }

  lemma DepackPacked(fs: seq<Frame>)
    requires Packable(fs)
    ensures Depack(Pack(fs)) == Ok(fs)
  {
    hide Scan, Sizes, Headers, Bodies, Pack, Cut;
    var past := fs[..|fs| - 1];
    var red, p := Blocks(past), Pack(fs);
    Layout(fs);
    ScanPacked(fs, 0);
    assert red[..0] == [];
    CutPacked(fs, |past|);
    assert p[2 * |red|] == fs[|fs| - 1].timeCode;
    assert p[2 * |red| + 1 + Sizes(red)..] == fs[|fs| - 1].data;
    assert fs == past + [fs[|fs| - 1]];
  }

  // ---- Whatever is depacketised was packed ----

  /** The headers that were read spell out the blocks. */
  ghost predicate Spelled(p: seq<byte>, red: seq<RedBlock>) {
    && 2 * |red| <= |p|
    && forall i :: 0 <= i < |red| ==>
         red[i].code < 128 && p[2 * i] == red[i].code + 128 && p[2 * i + 1] == red[i].size
  }

  lemma {:induction false} ScanSpells(p: seq<byte>, red: seq<RedBlock>)
    requires 2 * |red| + Sizes(red) <= |p| && Spelled(p, red)
    ensures Spelled(p, Scan(p, red).red)
    decreases |p| - 2 * |red|
  {
    hide Scan, Sizes;
    var cur, rem := 2 * |red|, |p| - 2 * |red| - Sizes(red);
    ScanStep(p, red);
    if rem > 2 && p[cur] >= 128 && p[cur + 1] + 2 < rem {
      ScanSpells(p, red + [RedBlock(p[cur] - 128, p[cur + 1])]);
    }
  }

  lemma PackPush(fs: seq<Frame>, f: Frame)
    requires Past(fs) && !f.isMain && f.timeCode < 128 && |f.data| < 256
    ensures Past(fs + [f]) && Headers(fs + [f]) == Headers(fs) + [f.timeCode + 128, |f.data|]
    ensures Bodies(fs + [f]) == Bodies(fs) + f.data
  {
    assert (fs + [f])[..|fs|] == fs;
  }

  lemma {:induction false} CutSpells(p: seq<byte>, red: seq<RedBlock>, k: nat)
    requires 2 * |red| + Sizes(red) + 2 <= |p| && Spelled(p, red) && k <= |red|
    ensures Past(Cut(p, red, k)) && Headers(Cut(p, red, k)) == p[..2 * k]
    ensures 2 * |red| + 1 + Sizes(red[..k]) <= |p|
    ensures Bodies(Cut(p, red, k)) == p[2 * |red| + 1..2 * |red| + 1 + Sizes(red[..k])]
  {
    hide Sizes, Headers, Bodies, FrameAt, Spelled, Past, Cut;
    SizesGrow(red, k);
    if k == 0 {
      NoneCut(p, red);
    } else {
      CutSpells(p, red, k - 1);
      CutNext(p, red, k - 1);
      SizesTake(red, k - 1);
      FrameIs(p, red, k - 1);
      SpelledAt(p, red, k - 1);
      var fs, f := Cut(p, red, k - 1), FrameAt(p, red, k - 1);
      PackPush(fs, f);
      TakeTwo(p, 2 * (k - 1));
      var start, size := 2 * |red| + 1, Sizes(red[..k - 1]);
      TakeJoin(p, start, start + size, start + size + red[k - 1].size);
    }
  }

  lemma NoneCut(p: seq<byte>, red: seq<RedBlock>)
    requires 2 * |red| + Sizes(red) + 2 <= |p|
    ensures Cut(p, red, 0) == [] && Past([]) && Headers([]) == [] && Bodies([]) == [] && Sizes([]) == 0
    ensures p[..0] == [] && red[..0] == [] && p[2 * |red| + 1..2 * |red| + 1] == []
  {
  }

  lemma CutNext(p: seq<byte>, red: seq<RedBlock>, k: nat)
    requires 2 * |red| + Sizes(red) + 2 <= |p| && k < |red|
    ensures Cut(p, red, k + 1) == Cut(p, red, k) + [FrameAt(p, red, k)]
  {
    hide FrameAt;
  }

  lemma SpelledAt(p: seq<byte>, red: seq<RedBlock>, i: nat)
    requires Spelled(p, red) && i < |red|
    ensures 2 * |red| <= |p| && red[i].code < 128 && p[2 * i] == red[i].code + 128 && p[2 * i + 1] == red[i].size
  {
  }

  lemma TakeTwo(p: seq<byte>, m: nat)
    requires m + 2 <= |p|
    ensures p[..m] + [p[m], p[m + 1]] == p[..m + 2]
  {
  }

  lemma TakeJoin(p: seq<byte>, a: nat, b: nat, c: nat)
    requires a <= b <= c <= |p|
    ensures p[a..b] + p[b..c] == p[a..c]
  {
  }

  lemma PackSplit(past: seq<Frame>, main: Frame)
    requires Past(past) && main.isMain && main.timeCode < 128 && main.data != []
    ensures Packable(past + [main])
    ensures Pack(past + [main]) == Headers(past) + [main.timeCode] + (Bodies(past) + main.data)
  {
    assert (past + [main])[..|past|] == past;
  }

  lemma Whole(p: seq<byte>, a: nat, b: nat)
    requires a < b <= |p|
    ensures p[..a] + [p[a]] + (p[a + 1..b] + p[b..]) == p
  {
  }

  lemma PackDepacked(p: seq<byte>)
    requires Depack(p).Ok?
    ensures Packable(Depack(p).frames) && Pack(Depack(p).frames) == p
  {
    hide Scan, Sizes, Headers, Bodies, Cut, Past, Pack, Packable;
    EmptyRun(p);
    var red := Scan(p, []).red;
    ScanSpells(p, []);
    CutSpells(p, red, |red|);
    assert red[..|red|] == red;
    PackSplit(Cut(p, red, |red|), MainFrame(p, red));
    Whole(p, 2 * |red|, 2 * |red| + 1 + Sizes(red));
  }

  lemma EmptyRun(p: seq<byte>)
    ensures Sizes([]) == 0 && Spelled(p, []) && Past([])
  {
  }

  /** A packet yields frames exactly when they pack to it: no byte is lost, shared or left over. */
  lemma DepackExactly(p: seq<byte>, fs: seq<Frame>)
    ensures Depack(p) == Ok(fs) <==> Packable(fs) && p == Pack(fs)
  {
    hide Depack, Pack, Packable;
    if Depack(p) == Ok(fs) {
      PackDepacked(p);
    }
    if Packable(fs) {
      DepackPacked(fs);
    }
  }
}
