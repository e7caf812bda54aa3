/** Contours expanded to one block per subframe, with their mean and their total movement. */
module BlockTracks {
  import opened SmplMemory
  import opened PitchCodec

  function Copies(b: nat, n: nat): (s: seq<nat>)
    ensures |s| == n && forall i :: 0 <= i < n ==> s[i] == b
  {
    seq(n, _ => b)
  }

  /** The first k runs, one entry per subframe. */
  function Track(seg: BlockSeg, k: nat): (t: seq<nat>)
    requires k <= |seg.blocks| == |seg.seglens|
    ensures |t| == Start(seg.seglens, k)
  {
    if k == 0 then [] else Track(seg, k - 1) + Copies(seg.blocks[k - 1], seg.seglens[k - 1])
  }

  function Total(s: seq<nat>): nat {
    if s == [] then 0 else Total(s[..|s| - 1]) + s[|s| - 1]
  }

  function Step(a: nat, b: nat): nat {
    if a < b then b - a else a - b
  }

  /** Sum of the steps between neighbours. */
  function Movement(s: seq<nat>): nat {
    if |s| < 2 then 0 else Movement(s[..|s| - 1]) + Step(s[|s| - 2], s[|s| - 1])
  }

  function Weight(b: nat, n: nat): nat {
    b * n
  }

  lemma {:induction false} TotalRun(s: seq<nat>, b: nat, n: nat)
    ensures Total(s + Copies(b, n)) == Total(s) + Weight(b, n)
  {
    if n == 0 {
      assert s + Copies(b, 0) == s;
    } else {
      TotalRun(s, b, n - 1);
      assert (s + Copies(b, n))[..|s| + n - 1] == s + Copies(b, n - 1);
      assert b * n == b * (n - 1) + b;
    }
  }

  lemma {:induction false} MovementRun(s: seq<nat>, b: nat, n: nat)
    requires n > 0
    ensures Movement(s + Copies(b, n)) == Movement(s) + if s == [] then 0 else Step(s[|s| - 1], b)
  {
    if n == 1 {
      assert (s + Copies(b, 1))[..|s|] == s;
    } else {
      MovementRun(s, b, n - 1);
      assert (s + Copies(b, n))[..|s| + n - 1] == s + Copies(b, n - 1);
    }
  }

  /** A track that only rises, or only falls, moves by the distance between its ends. */
  lemma {:induction false} MovementBetweenEnds(s: seq<nat>)
    requires s != []
    ensures (forall i :: 1 <= i < |s| ==> s[i - 1] <= s[i]) ==> Movement(s) + s[0] == s[|s| - 1]
    ensures (forall i :: 1 <= i < |s| ==> s[i - 1] >= s[i]) ==> Movement(s) + s[|s| - 1] == s[0]
  {
    if |s| >= 2 {
      MovementBetweenEnds(s[..|s| - 1]);
    }
  }

  datatype BlockTrack = BlockTrack(track: seq<nat>, meanblock: real, trackdeltas: real)

  /**
   * One contour's track: its mean is the mean of the eight entries, and adding one step per run change
   * gives the movement of the whole track, because nothing moves inside a run.
   */
  method GenBlocktrack(seg: BlockSeg) returns (bt: BlockTrack)
    requires ContourOk(seg)
    ensures bt.track == Track(seg, |seg.blocks|) && |bt.track| == SUBFRAMES
    ensures bt.meanblock * 8.0 == Total(bt.track) as real
    ensures bt.trackdeltas == Movement(bt.track) as real
  {
    hide Total, Movement, ContourOk, Start, Copies, Weight;
    EmptyTrack();
    var track: seq<nat> := seq(SUBFRAMES, _ => 0);
    var segIdx := 0;
    var meanblock, trackdeltas := 0.0, 0.0;
    ContourShape(seg);
    ContourEnd(seg);
    for b := 0 to |seg.blocks|
      invariant |track| == SUBFRAMES && segIdx == Start(seg.seglens, b) <= SUBFRAMES
      invariant track[..segIdx] == Track(seg, b)
      invariant meanblock == Total(Track(seg, b)) as real && trackdeltas == Movement(Track(seg, b)) as real
    {
      StartNext(seg.seglens, b);
      StartFits(seg.seglens, b + 1, |seg.blocks|);
      ghost var done := Track(seg, b);
      track, segIdx := FillRun(track, segIdx, seg.blocks[b], seg.seglens[b]);
      TotalRun(done, seg.blocks[b], seg.seglens[b]);
      meanblock := meanblock + Weight(seg.blocks[b], seg.seglens[b]) as real;
      MovementRun(done, seg.blocks[b], seg.seglens[b]);
      if b != 0 {
        TrackEnds(seg, b);
        var d := Distance(seg.blocks[b - 1], seg.blocks[b]);
        trackdeltas := trackdeltas + d as real;
      }
    }
    assert track[..SUBFRAMES] == track;
    bt := BlockTrack(track, meanblock / 8.0, trackdeltas);
  }

  method FillRun(t: seq<nat>, at: nat, block: nat, n: nat) returns (track: seq<nat>, segIdx: nat)
    requires at + n <= |t|
    ensures |track| == |t| && segIdx == at + n && track[..segIdx] == t[..at] + Copies(block, n)
  {
    track, segIdx := t, at;
    for k := 0 to n
      invariant |track| == |t| && segIdx == at + k && track[..segIdx] == t[..at] + Copies(block, k)
    {
      track := track[segIdx := block];
      segIdx := segIdx + 1;
    }
  }

  method Distance(a: int, b: int) returns (d: int)
    requires a >= 0 && b >= 0
    ensures d == Step(a, b)
  {
    d := a - b;
    if d < 0 {
      d := -d;
    }
  }

  lemma EmptyTrack()
    ensures Total([]) == 0 && Movement([]) == 0
  {
  }

  lemma TrackEnds(seg: BlockSeg, k: nat)
    requires seg.Shaped() && 0 < k <= |seg.blocks|
    ensures Track(seg, k) != [] && Track(seg, k)[|Track(seg, k)| - 1] == seg.blocks[k - 1]
  {
  }

  /** A track for every listed contour, in the order of the list. */
  method GenBlocktracks(blocksegs: seq<BlockSeg>, blocksegsIx: seq<(nat, nat)>) returns (out: seq<BlockTrack>)
    requires forall i :: 0 <= i < |blocksegs| ==> ContourOk(blocksegs[i])
    requires forall i :: 0 <= i < |blocksegsIx| ==> blocksegsIx[i].0 < |blocksegs|
    ensures |out| == |blocksegsIx|
    ensures forall i :: 0 <= i < |out| ==>
      var seg := blocksegs[blocksegsIx[i].0];
      && |seg.blocks| == |seg.seglens| && out[i].track == Track(seg, |seg.blocks|)
      && out[i].meanblock * 8.0 == Total(out[i].track) as real && out[i].trackdeltas == Movement(out[i].track) as real
  {
    hide Total, Movement, Track;
    out := [];
    for t := 0 to |blocksegsIx|
      invariant |out| == t
      invariant forall i :: 0 <= i < t ==>
        var seg := blocksegs[blocksegsIx[i].0];
        && |seg.blocks| == |seg.seglens| && out[i].track == Track(seg, |seg.blocks|)
        && out[i].meanblock * 8.0 == Total(out[i].track) as real && out[i].trackdeltas == Movement(out[i].track) as real
    {
      ContourShape(blocksegs[blocksegsIx[t].0]);
      var bt := GenBlocktrack(blocksegs[blocksegsIx[t].0]);
      out := out + [bt];
    }
  }
}
