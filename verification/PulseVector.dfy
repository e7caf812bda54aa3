/**
 * Signed pulse vectors as run-length and sign symbols. A frame is four subframes of eighty samples; a
 * subframe with magnitudes g1, g2, ... at offsets o1 < o2 < ... becomes the runs o1, 0 (g1 - 1 times),
 * o2 - o1, 0 (g2 - 1 times), ..., and the signs of all its pulses travel in batches of up to fifteen.
 */
module PulseVector {
  import opened Arith

  const FRAME := 320
  const SUBFR := 80
  const NUM := 4
  const MAX_PULSES := 40
  const BATCH := 15

  datatype RawSym = RawSym(sym: nat, nbits: nat)

  datatype PulseParams = PulseParams(total: nat, subfr: seq<nat>, magRuns: seq<nat>, signSyms: seq<RawSym>) {
    /** Counts that add up, runs that stay inside their subframe, and one sign for every position. */
    predicate Ok() {
      && CountsOk(subfr) && total == Off(subfr, NUM) && |magRuns| == total
      && AllFitRuns(subfr, magRuns, NUM)
      && BatchesFit(signSyms, |AllPlaced(subfr, magRuns, NUM).pos|)
    }
  }

  predicate CountsOk(subfr: seq<nat>) {
    |subfr| == NUM && forall sf :: 0 <= sf < NUM ==> subfr[sf] <= MAX_PULSES
  }

  /** The number of pulses before subframe sf. */
  function Off(subfr: seq<nat>, sf: nat): nat
    requires |subfr| == NUM && sf <= NUM
  {
    if sf == 0 then 0 else Off(subfr, sf - 1) + subfr[sf - 1]
  }

  lemma {:induction false} OffMono(subfr: seq<nat>, i: nat, j: nat)
    requires |subfr| == NUM && i <= j <= NUM
    ensures Off(subfr, i) <= Off(subfr, j)
  {
    if i < j {
      OffMono(subfr, i, j - 1);
    }
  }

  /** The runs of one subframe. */
  function SfRuns(subfr: seq<nat>, runs: seq<nat>, sf: nat): (ms: seq<nat>)
    requires |subfr| == NUM && sf < NUM && Off(subfr, sf + 1) <= |runs|
    ensures |ms| == subfr[sf]
  {
    runs[Off(subfr, sf)..Off(subfr, sf + 1)]
  }

  function Sum(ms: seq<nat>): nat {
    if ms == [] then 0 else Sum(ms[..|ms| - 1]) + ms[|ms| - 1]
  }

  /** The runs together stop short of `pos` positions. */
  predicate RunsFit(ms: seq<nat>, pos: nat) {
    Sum(ms) < pos
  }

  /** The runs of the first sf subframes each stay inside their subframe. */
  predicate AllFitRuns(subfr: seq<nat>, runs: seq<nat>, sf: nat)
    requires |subfr| == NUM && sf <= NUM && Off(subfr, sf) <= |runs|
  {
    sf == 0 || (RunsFit(SfRuns(subfr, runs, sf - 1), SUBFR) && AllFitRuns(subfr, runs, sf - 1))
  }

  // ---- Runs to positions ----

  datatype Placed = Placed(pos: seq<nat>, mag: seq<nat>) {
    predicate Ok() {
      |pos| == |mag|
    }

    function Add(at: nat, g: nat): Placed {
      Placed(pos + [at], mag + [g])
    }

    /** k more on the last magnitude. */
    function Raise(k: nat): Placed
      requires mag != []
    {
      Placed(pos, mag[..|mag| - 1] + [mag[|mag| - 1] + k])
    }

    function Join(other: Placed): Placed {
      Placed(pos + other.pos, mag + other.mag)
    }
  }

  /** A first or positive run starts a pulse; a zero run adds to the last one. */
  function Place(ms: seq<nat>, base: nat): (p: Placed)
    ensures p.Ok() && (ms != [] ==> p.pos != [])
  {
    if ms == [] then Placed([], [])
    else
      var p, m := Place(ms[..|ms| - 1], base), ms[|ms| - 1];
      if m > 0 || |ms| == 1 then p.Add(base + Sum(ms), 1) else p.Raise(1)
  }

  function AllPlaced(subfr: seq<nat>, runs: seq<nat>, sf: nat): (p: Placed)
    requires |subfr| == NUM && sf <= NUM && Off(subfr, sf) <= |runs|
    ensures p.Ok()
  {
    if sf == 0 then Placed([], [])
    else AllPlaced(subfr, runs, sf - 1).Join(Place(SfRuns(subfr, runs, sf - 1), SUBFR * (sf - 1)))
  }

  /** Runs of later subframes leave the earlier ones alone. */
  lemma {:induction false} PlacedPrefix(subfr: seq<nat>, runs: seq<nat>, more: seq<nat>, sf: nat)
    requires |subfr| == NUM && sf <= NUM && Off(subfr, sf) <= |runs|
    ensures AllPlaced(subfr, runs + more, sf) == AllPlaced(subfr, runs, sf)
    ensures AllFitRuns(subfr, runs + more, sf) == AllFitRuns(subfr, runs, sf)
  {
    if sf > 0 {
      PlacedPrefix(subfr, runs, more, sf - 1);
      assert SfRuns(subfr, runs + more, sf - 1) == SfRuns(subfr, runs, sf - 1);
    }
  }

  // ---- Signs ----

  predicate IsSign(s: int) {
    s == 1 || s == -1
  }

  /** Most significant bit first, 1 for a positive pulse. */
  function Pack(signs: seq<int>): (v: nat)
    ensures v < Pow2(|signs|)
  {
    if signs == [] then 0 else (if signs[0] > 0 then Pow2(|signs| - 1) else 0) + Pack(signs[1..])
  }

  function Unpack(sym: nat, nbits: nat): (signs: seq<int>)
    ensures |signs| == nbits && forall i :: 0 <= i < nbits ==> IsSign(signs[i])
  {
    if nbits == 0 then []
    else [if sym / Pow2(nbits - 1) % 2 == 1 then 1 else -1] + Unpack(sym, nbits - 1)
  }

  predicate BatchesFit(batches: seq<RawSym>, count: nat) {
    if count == 0 then batches == []
    else
      && batches != [] && batches[0].nbits == Min(BATCH, count) && batches[0].sym < Pow2(batches[0].nbits)
      && BatchesFit(batches[1..], count - batches[0].nbits)
  }

  function Batches(signs: seq<int>): (bs: seq<RawSym>)
    ensures BatchesFit(bs, |signs|)
  {
    if signs == [] then []
    else
      var n := Min(BATCH, |signs|);
      [RawSym(Pack(signs[..n]), n)] + Batches(signs[n..])
  }

  function Unbatch(batches: seq<RawSym>): seq<int> {
    if batches == [] then [] else Unpack(batches[0].sym, batches[0].nbits) + Unbatch(batches[1..])
  }

  lemma {:induction false} UnbatchSize(batches: seq<RawSym>, count: nat)
    requires BatchesFit(batches, count)
    ensures |Unbatch(batches)| == count
    decreases count
  {
    if count > 0 {
      UnbatchSize(batches[1..], count - batches[0].nbits);
    }
  }

  lemma {:induction false} UnpackLow(sym: nat, extra: nat, m: nat, n: nat)
    requires m >= n
    ensures Unpack(extra * Pow2(m) + sym, n) == Unpack(sym, n)
  {
    if n > 0 {
      UnpackLow(sym, extra, m, n - 1);
      Pow2Add(m - n, n);
      Shifted(extra, Pow2(m - n), Pow2(n - 1));
      HigherBits(sym, extra * Pow2(m - n), Pow2(n - 1));
    }
  }

  lemma Shifted(e: nat, a: nat, p: nat)
    ensures e * (a * (2 * p)) == e * a * (2 * p)
  {
  }

  lemma {:induction false} UnpackAt(sym: nat, nbits: nat, j: nat)
    requires j < nbits
    ensures Unpack(sym, nbits)[j] == if sym / Pow2(nbits - 1 - j) % 2 == 1 then 1 else -1
  {
    if j > 0 {
      UnpackAt(sym, nbits - 1, j - 1);
    }
  }

  /** Bits from 2p upward do not reach the bit at p. */
  lemma HigherBits(sym: nat, x: nat, p: nat)
    requires p > 0
    ensures (x * (2 * p) + sym) / p % 2 == sym / p % 2
  {
    var q, r := sym / p, sym % p;
    assert x * (2 * p) + sym == (2 * x + q) * p + r by {
      assert x * (2 * p) == 2 * x * p;
      assert (2 * x + q) * p == 2 * x * p + q * p;
    }
    DivModUnique(x * (2 * p) + sym, p, 2 * x + q, r);
  }

  lemma {:induction false} UnpackPack(signs: seq<int>)
    requires forall i :: 0 <= i < |signs| ==> IsSign(signs[i])
    ensures Unpack(Pack(signs), |signs|) == signs
  {
    if signs != [] {
      var n := |signs| - 1;
      var bit := if signs[0] > 0 then 1 else 0;
      UnpackPack(signs[1..]);
      UnpackLow(Pack(signs[1..]), bit, n, n);
      assert Pack(signs) == bit * Pow2(n) + Pack(signs[1..]);
      DivModUnique(Pack(signs), Pow2(n), bit, Pack(signs[1..]));
      assert signs == [signs[0]] + signs[1..];
    }
  }

  lemma {:induction false} UnbatchBatches(signs: seq<int>)
    requires forall i :: 0 <= i < |signs| ==> IsSign(signs[i])
    ensures Unbatch(Batches(signs)) == signs
    decreases |signs|
  {
    if signs != [] {
      var n := Min(BATCH, |signs|);
      UnpackPack(signs[..n]);
      UnbatchBatches(signs[n..]);
      assert signs == signs[..n] + signs[n..];
    }
  }

  // ---- Vectors to symbols ----

  function Abs(x: int): nat { if x < 0 then -x else x }

  function Zeros(k: nat): seq<nat> { seq(k, _ => 0) }

  /** The last non-zero offset before n, or 0. */
  function Last(x: seq<int>, n: nat): nat
    requires n <= |x|
    ensures Last(x, n) <= n && (n > 0 ==> Last(x, n) < n)
  {
    if n == 0 then 0 else if x[n - 1] != 0 then n - 1 else Last(x, n - 1)
  }

  /** The runs of the first n samples of a subframe. */
  function Runs(x: seq<int>, n: nat): seq<nat>
    requires n <= |x|
  {
    if n == 0 then []
    else if x[n - 1] == 0 then Runs(x, n - 1)
    else Runs(x, n - 1) + [n - 1 - Last(x, n - 1)] + Zeros(Abs(x[n - 1]) - 1)
  }

  function Signs(x: seq<int>, n: nat): (s: seq<int>)
    requires n <= |x|
    ensures forall i :: 0 <= i < |s| ==> IsSign(s[i])
  {
    if n == 0 then []
    else if x[n - 1] == 0 then Signs(x, n - 1)
    else Signs(x, n - 1) + [if x[n - 1] < 0 then -1 else 1]
  }

  function Count(x: seq<int>, n: nat): nat
    requires n <= |x|
  {
    if n == 0 then 0 else Count(x, n - 1) + Abs(x[n - 1])
  }

  /** The non-zero positions and magnitudes among the first n samples. */
  function Support(x: seq<int>, base: nat, n: nat): (p: Placed)
    requires n <= |x|
    ensures p.Ok()
  {
    if n == 0 then Placed([], [])
    else if x[n - 1] == 0 then Support(x, base, n - 1)
    else Support(x, base, n - 1).Add(base + n - 1, Abs(x[n - 1]))
  }

  lemma {:induction false} SumAppend(a: seq<nat>, b: seq<nat>)
    ensures Sum(a + b) == Sum(a) + Sum(b)
  {
    if b == [] {
      assert a + b == a;
    } else {
      assert (a + b)[..|a + b| - 1] == a + b[..|b| - 1];
      SumAppend(a, b[..|b| - 1]);
    }
  }

  lemma {:induction false} SumZeros(k: nat)
    ensures Sum(Zeros(k)) == 0
  {
    if k > 0 {
      assert Zeros(k)[..k - 1] == Zeros(k - 1);
      SumZeros(k - 1);
    }
  }

  lemma PlaceAppend(ms: seq<nat>, m: nat, base: nat)
    ensures var p := Place(ms, base);
            Place(ms + [m], base) == if m > 0 || ms == [] then p.Add(base + Sum(ms) + m, 1) else p.Raise(1)
  {
    assert (ms + [m])[..|ms|] == ms;
  }

  /** A pulse's zero runs count its magnitude up. */
  lemma {:induction false} PlaceZeros(ms: seq<nat>, k: nat, base: nat)
    requires ms != []
    ensures Place(ms + Zeros(k), base) == Place(ms, base).Raise(k)
  {
    hide Place;
    if k == 0 {
      assert ms + Zeros(0) == ms;
    } else {
      assert ms + Zeros(k) == (ms + Zeros(k - 1)) + [0];
      PlaceZeros(ms, k - 1, base);
      PlaceAppend(ms + Zeros(k - 1), 0, base);
    }
  }

  /** The runs of one pulse of magnitude g at distance m place exactly that pulse. */
  lemma PlacePulse(ms: seq<nat>, m: nat, g: nat, base: nat)
    requires g > 0 && (m > 0 || ms == [])
    ensures Place(ms + [m] + Zeros(g - 1), base) == Place(ms, base).Add(base + Sum(ms) + m, g)
    ensures Sum(ms + [m] + Zeros(g - 1)) == Sum(ms) + m
  {
    hide Place;
    PlaceAppend(ms, m, base);
    PlaceZeros(ms + [m], g - 1, base);
    SumAppend(ms, [m]);
    SumAppend(ms + [m], Zeros(g - 1));
    SumZeros(g - 1);
    assert [m][..0] == [];
  }

  /** Decoding a subframe's runs finds its pulses again. */
  lemma {:induction false} PlaceRuns(x: seq<int>, base: nat, n: nat)
    requires n <= |x|
    ensures Place(Runs(x, n), base) == Support(x, base, n)
    ensures Sum(Runs(x, n)) == Last(x, n) && |Runs(x, n)| == Count(x, n)
    ensures Runs(x, n) == [] ==> Last(x, n) == 0
    ensures |Signs(x, n)| == |Support(x, base, n).pos|
  {
    hide Place, Sum;
    if n == 0 {
      EmptyPlace(base);
    } else {
      PlaceRuns(x, base, n - 1);
      if x[n - 1] != 0 {
        PlacePulse(Runs(x, n - 1), n - 1 - Last(x, n - 1), Abs(x[n - 1]), base);
      }
    }
  }

  lemma EmptyPlace(base: nat)
    ensures Place([], base) == Placed([], []) && Sum([]) == 0
  {
  }

  // ---- Whole frames ----

  function Sub(v: seq<int>, sf: nat): (x: seq<int>)
    requires |v| == FRAME && sf < NUM
    ensures |x| == SUBFR
  {
    v[SUBFR * sf..SUBFR * (sf + 1)]
  }

  function Counts(v: seq<int>): (c: seq<nat>)
    requires |v| == FRAME
    ensures |c| == NUM
  {
    seq(NUM, sf requires 0 <= sf < NUM => Count(Sub(v, sf), SUBFR))
  }

  function AllRuns(v: seq<int>, sf: nat): seq<nat>
    requires |v| == FRAME && sf <= NUM
  {
    if sf == 0 then [] else AllRuns(v, sf - 1) + Runs(Sub(v, sf - 1), SUBFR)
  }

  function AllSigns(v: seq<int>, sf: nat): (s: seq<int>)
    requires |v| == FRAME && sf <= NUM
    ensures forall i :: 0 <= i < |s| ==> IsSign(s[i])
  {
    if sf == 0 then [] else AllSigns(v, sf - 1) + Signs(Sub(v, sf - 1), SUBFR)
  }

  function Build(v: seq<int>): PulseParams
    requires |v| == FRAME
  {
    PulseParams(Off(Counts(v), NUM), Counts(v), AllRuns(v, NUM), Batches(AllSigns(v, NUM)))
  }

  lemma {:induction false} AllRunsSize(v: seq<int>, sf: nat)
    requires |v| == FRAME && sf <= NUM
    ensures |AllRuns(v, sf)| == Off(Counts(v), sf)
  {
    if sf > 0 {
      AllRunsSize(v, sf - 1);
      PlaceRuns(Sub(v, sf - 1), 0, SUBFR);
    }
  }

  lemma {:induction false} AllRunsPrefix(v: seq<int>, i: nat, j: nat)
    requires |v| == FRAME && i <= j <= NUM
    ensures AllRuns(v, i) <= AllRuns(v, j)
  {
    if i < j {
      AllRunsPrefix(v, i, j - 1);
    }
  }

  /** The flat run list splits back into the subframes it was made of. */
  lemma SplitRuns(v: seq<int>, sf: nat)
    requires |v| == FRAME && sf < NUM
    ensures Off(Counts(v), sf + 1) <= |AllRuns(v, NUM)| == Off(Counts(v), NUM)
    ensures SfRuns(Counts(v), AllRuns(v, NUM), sf) == Runs(Sub(v, sf), SUBFR)
  {
    OffMono(Counts(v), sf + 1, NUM);
    AllRunsSize(v, NUM);
    AllRunsSize(v, sf);
    AllRunsSize(v, sf + 1);
    AllRunsPrefix(v, sf + 1, NUM);
    var a, b := AllRuns(v, sf + 1), AllRuns(v, NUM);
    assert b[..|a|] == a;
    assert SfRuns(Counts(v), b, sf) == a[Off(Counts(v), sf)..];
  }

  /** A support read subframe by subframe is the support of the whole frame. */
  lemma {:induction false} SupportJoin(v: seq<int>, sf: nat, n: nat)
    requires |v| == FRAME && sf < NUM && n <= SUBFR
    ensures Support(v, 0, SUBFR * sf + n) == Support(v, 0, SUBFR * sf).Join(Support(Sub(v, sf), SUBFR * sf, n))
    ensures Signs(v, SUBFR * sf + n) == Signs(v, SUBFR * sf) + Signs(Sub(v, sf), n)
  {
    if n > 0 {
      SupportJoin(v, sf, n - 1);
      assert Sub(v, sf)[n - 1] == v[SUBFR * sf + n - 1];
    }
  }

  lemma {:induction false} PlacedSupport(v: seq<int>, sf: nat)
    requires |v| == FRAME && sf <= NUM
    ensures Off(Counts(v), sf) <= |AllRuns(v, NUM)| == Off(Counts(v), NUM)
    ensures AllPlaced(Counts(v), AllRuns(v, NUM), sf) == Support(v, 0, SUBFR * sf)
    ensures AllFitRuns(Counts(v), AllRuns(v, NUM), sf)
    ensures AllSigns(v, sf) == Signs(v, SUBFR * sf)
  {
    hide Place, Sum, Runs, Count;
    OffMono(Counts(v), sf, NUM);
    AllRunsSize(v, NUM);
    if sf > 0 {
      PlacedSupport(v, sf - 1);
      SplitRuns(v, sf - 1);
      PlaceRuns(Sub(v, sf - 1), SUBFR * (sf - 1), SUBFR);
      SupportJoin(v, sf - 1, SUBFR);
    }
  }

  lemma {:induction false} SupportSize(x: seq<int>, base: nat, n: nat)
    requires n <= |x|
    ensures |Signs(x, n)| == |Support(x, base, n).pos|
    ensures forall i :: 0 <= i < |Support(x, base, n).pos| ==> base <= Support(x, base, n).pos[i] < base + n
  {
    if n > 0 {
      SupportSize(x, base, n - 1);
    }
  }

  /** Writes the first k signed magnitudes into a silent frame; positions past the end are dropped. */
  function Scatter(p: Placed, signs: seq<int>, k: nat): (v: seq<int>)
    requires p.Ok() && k <= |p.pos| && k <= |signs|
    ensures |v| == FRAME
  {
    if k == 0 then seq(FRAME, _ => 0)
    else
      var v := Scatter(p, signs, k - 1);
      if p.pos[k - 1] < FRAME then v[p.pos[k - 1] := p.mag[k - 1] * signs[k - 1]] else v
  }

  lemma {:induction false} ScatterPrefix(p: Placed, s: seq<int>, q: Placed, t: seq<int>, k: nat)
    requires p.Ok() && q.Ok() && k <= |p.pos| && k <= |s| && k <= |q.pos| && k <= |t|
    requires p.pos[..k] == q.pos[..k] && p.mag[..k] == q.mag[..k] && s[..k] == t[..k]
    ensures Scatter(p, s, k) == Scatter(q, t, k)
  {
    if k > 0 {
      assert p.pos[..k - 1] == p.pos[..k][..k - 1] && q.pos[..k - 1] == q.pos[..k][..k - 1];
      assert p.mag[..k - 1] == p.mag[..k][..k - 1] && q.mag[..k - 1] == q.mag[..k][..k - 1];
      assert s[..k - 1] == s[..k][..k - 1] && t[..k - 1] == t[..k][..k - 1];
      assert p.pos[k - 1] == p.pos[..k][k - 1] && p.mag[k - 1] == p.mag[..k][k - 1] && s[k - 1] == s[..k][k - 1];
      ScatterPrefix(p, s, q, t, k - 1);
    }
  }

  lemma AbsSign(x: int)
    ensures Abs(x) * (if x < 0 then -1 else 1) == x
  {
  }

  /** The first n samples, then silence. */
  function Upto(v: seq<int>, n: nat): (u: seq<int>)
    requires |v| == FRAME && n <= FRAME
    ensures |u| == FRAME
  {
    v[..n] + seq(FRAME - n, _ => 0)
  }

  lemma UptoNext(v: seq<int>, n: nat)
    requires |v| == FRAME && n < FRAME
    ensures Upto(v, n + 1) == Upto(v, n)[n := v[n]]
  {
  }

  /** Scattering a frame's support with its signs restores the samples seen so far. */
  lemma {:induction false} ScatterSupport(v: seq<int>, n: nat)
    requires |v| == FRAME && n <= FRAME
    ensures |Signs(v, n)| == |Support(v, 0, n).pos|
    ensures Scatter(Support(v, 0, n), Signs(v, n), |Signs(v, n)|) == Upto(v, n)
  {
    SupportSize(v, 0, n);
    if n > 0 {
      ScatterSupport(v, n - 1);
      UptoNext(v, n - 1);
      hide Upto;
      if v[n - 1] != 0 {
        var k := |Signs(v, n - 1)|;
        AbsSign(v[n - 1]);
        ScatterPrefix(Support(v, 0, n), Signs(v, n), Support(v, 0, n - 1), Signs(v, n - 1), k);
      }
    }
  }

  /** The excitation that a decoded parameter set stands for. */
  function Vector(p: PulseParams): (v: seq<int>)
    requires p.Ok()
    ensures |v| == FRAME
  {
    var placed := AllPlaced(p.subfr, p.magRuns, NUM);
    UnbatchSize(p.signSyms, |placed.pos|);
    Scatter(placed, Unbatch(p.signSyms), |placed.pos|)
  }

  /** The symbols of a frame stand for exactly that frame, whenever every subframe has at most 40 pulses. */
  lemma VectorBuild(v: seq<int>)
    requires |v| == FRAME && CountsOk(Counts(v))
    ensures Build(v).Ok() && Vector(Build(v)) == v
  {
    PlacedSupport(v, NUM);
    SupportSize(v, 0, FRAME);
    UnbatchBatches(AllSigns(v, NUM));
    ScatterSupport(v, FRAME);
    assert Upto(v, FRAME) == v;
  }

  // ---- The builder ----

  method CountSubframe(pulse: seq<int>, sf: nat) returns (s: nat)
    requires |pulse| == FRAME && sf < NUM
    ensures s == Count(Sub(pulse, sf), SUBFR)
  {
    s := 0;
    for n := SUBFR * sf to SUBFR * (sf + 1)
      invariant s == Count(Sub(pulse, sf), n - SUBFR * sf)
    {
      var a := pulse[n];
      if a < 0 {
        a := -a;
      }
      assert pulse[n] == Sub(pulse, sf)[n - SUBFR * sf];
      s := s + a;
    }
  }

  method AppendRun(runs: seq<nat>, m: nat, mag: nat) returns (magRuns: seq<nat>)
    requires mag >= 1
    ensures magRuns == runs + [m] + Zeros(mag - 1)
  {
    magRuns := runs + [m];
    ghost var head := magRuns;
    assert head == head + Zeros(0);
    if mag > 1 {
      for k := 0 to mag - 1
        invariant magRuns == head + Zeros(k)
      {
        magRuns := magRuns + [0];
      }
    }
  }

  method ScanSubframe(pulse: seq<int>, sf: nat) returns (magRuns: seq<nat>, signs: seq<int>)
    requires |pulse| == FRAME && sf < NUM
    ensures magRuns == Runs(Sub(pulse, sf), SUBFR) && signs == Signs(Sub(pulse, sf), SUBFR)
  {
    ghost var x := Sub(pulse, sf);
    var basePos := SUBFR * sf;
    var runPos := basePos;
    var first := true;
    magRuns, signs := [], [];
    for n := basePos to basePos + SUBFR
      invariant magRuns == Runs(x, n - basePos) && signs == Signs(x, n - basePos)
      invariant runPos == basePos + Last(x, n - basePos)
      invariant first ==> runPos == basePos
    {
      assert pulse[n] == x[n - basePos];
      if pulse[n] == 0 {
        continue;
      }
      var magv := pulse[n];
      var mag := magv;
      if mag < 0 {
        mag := -mag;
      }
      var m: nat;
      if first {
        m := n - basePos;
      } else {
        m := n - runPos;
      }
      magRuns := AppendRun(magRuns, m, mag);
      runPos := n;
      if magv < 0 {
        signs := signs + [-1];
      } else {
        signs := signs + [1];
      }
      first := false;
    }
  }

  method PackBatch(signs: seq<int>, p: nat, nbits: nat) returns (sym: nat)
    requires p + nbits <= |signs|
    ensures sym == Pack(signs[p..p + nbits])
  {
    ghost var batch := signs[p..p + nbits];
    sym := 0;
    assert batch[0..] == batch;
    for q := 0 to nbits
      invariant sym + Pack(batch[q..]) == Pack(batch)
    {
      var bit := 0;
      if signs[p + q] > 0 {
        bit := 1;
      }
      assert batch[q..][0] == signs[p + q] && batch[q..][1..] == batch[q + 1..];
      // The bit lands below those already set, so OR-ing it in is a sum.
      sym := sym + bit * Pow2(nbits - 1 - q);
    }
    assert batch[nbits..] == [];
  }

  lemma NextBatch(signs: seq<int>, p: nat, nbits: nat)
    requires p < |signs| && nbits == Min(BATCH, |signs| - p)
    ensures Batches(signs[p..]) == [RawSym(Pack(signs[p..p + nbits]), nbits)] + Batches(signs[p + nbits..])
  {
    assert signs[p..][..nbits] == signs[p..p + nbits] && signs[p..][nbits..] == signs[p + nbits..];
  }

  method PackSigns(signs: seq<int>) returns (signSyms: seq<RawSym>)
    ensures signSyms == Batches(signs)
  {
    hide Pack, Pow2;
    var p := 0;
    signSyms := [];
    assert signs[0..] == signs;
    while p < |signs|
      invariant 0 <= p <= |signs|
      invariant signSyms + Batches(signs[p..]) == Batches(signs)
    {
      hide Batches;
      var nbits := |signs| - p;
      if nbits > BATCH {
        nbits := BATCH;
      }
      var sym := PackBatch(signs, p, nbits);
      NextBatch(signs, p, nbits);
      signSyms := signSyms + [RawSym(sym, nbits)];
      p := p + nbits;
    }
    assert signs[p..] == [];
  }

  /** Turns a frame into its symbols. */
  method BuildPulseParams(pulse: seq<int>) returns (pp: PulseParams)
    requires |pulse| == FRAME
    ensures pp == Build(pulse)
  {
    var subfr: seq<nat> := [];
    for sf := 0 to NUM
      invariant |subfr| == sf && forall j :: 0 <= j < sf ==> subfr[j] == Counts(pulse)[j]
    {
      var s := CountSubframe(pulse, sf);
      subfr := subfr + [s];
    }
    assert subfr == Counts(pulse);
    var total := subfr[0] + subfr[1] + subfr[2] + subfr[3];
    var magRuns, signs := [], [];
    for sf := 0 to NUM
      invariant magRuns == AllRuns(pulse, sf) && signs == AllSigns(pulse, sf)
    {
      if subfr[sf] <= 0 {
        SilentSubframe(Sub(pulse, sf), SUBFR);
        assert magRuns == magRuns + [] && signs == signs + [];
        continue;
      }
      var m, s := ScanSubframe(pulse, sf);
      magRuns, signs := magRuns + m, signs + s;
    }
    var signSyms := PackSigns(signs);
    FourCounts(subfr);
    pp := PulseParams(total, subfr, magRuns, signSyms);
  }

  lemma {:induction false} SilentSubframe(x: seq<int>, n: nat)
    requires n <= |x| && Count(x, n) == 0
    ensures Runs(x, n) == [] && Signs(x, n) == []
  {
    if n > 0 {
      SilentSubframe(x, n - 1);
    }
  }

  lemma FourCounts(subfr: seq<nat>)
    requires |subfr| == NUM
    ensures Off(subfr, NUM) == subfr[0] + subfr[1] + subfr[2] + subfr[3]
  {
    assert Off(subfr, 1) == subfr[0];
    assert Off(subfr, 2) == subfr[0] + subfr[1];
    assert Off(subfr, 3) == subfr[0] + subfr[1] + subfr[2];
  }
}
