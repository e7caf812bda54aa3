/**
 * The greedy codebook search over the reals. A response h filters the pulses; phi is its autocorrelation,
 * so the energy of signed pulses at ps is a quadratic form, which the search keeps for every possible next
 * position at once and updates in place.
 */
module FcbSearch {

  const MAX_SF_LEN := 160
  const MAX_PULSES := 40
  const EPSILON: real := 0.0000000000000001

  function Mul(x: real, y: real): real {
    x * y
  }

  lemma MulLaws(x: real, y: real, z: real)
    ensures Mul(x, y) == Mul(y, x) && Mul(x, Mul(y, z)) == Mul(Mul(x, y), z)
    ensures Mul(x + y, z) == Mul(x, z) + Mul(y, z) && Mul(z, x + y) == Mul(z, x) + Mul(z, y)
    ensures Mul(x, 1.0) == x && Mul(x, 0.0) == 0.0 && Mul(0.0, x) == 0.0 && Mul(-x, y) == -Mul(x, y)
  {
  }

  // ---- The response and its autocorrelation ----

  function At(h: seq<real>, k: int): real {
    if 0 <= k < |h| then h[k] else 0.0
  }

  function AutoSum(h: seq<real>, d: nat, n: nat): real {
    if n == 0 then 0.0 else AutoSum(h, d, n - 1) + Mul(At(h, n - 1), At(h, n - 1 + d))
  }

  function Auto(h: seq<real>, d: nat): real {
    AutoSum(h, d, |h|)
  }

  function Phi(h: seq<real>, i: int, j: int): real {
    Auto(h, if i < j then j - i else i - j)
  }

  lemma {:induction false} AutoZero(h: seq<real>, d: nat, n: nat)
    requires d >= |h|
    ensures AutoSum(h, d, n) == 0.0
  {
    if n > 0 {
      AutoZero(h, d, n - 1);
      MulLaws(At(h, n - 1), 0.0, 0.0);
    }
  }

  lemma {:induction false} AutoEnds(h: seq<real>, d: nat, n: nat)
    requires n >= |h|
    ensures AutoSum(h, d, n) == Auto(h, d)
  {
    if n > |h| {
      AutoEnds(h, d, n - 1);
      MulLaws(0.0, At(h, n - 1 + d), 0.0);
    }
  }

  /** The two responses at i and j, multiplied and summed over the first n samples. */
  function Overlap(h: seq<real>, i: nat, j: nat, n: nat): real {
    if n == 0 then 0.0 else Overlap(h, i, j, n - 1) + Mul(At(h, n - 1 - i), At(h, n - 1 - j))
  }

  lemma {:induction false} OverlapSwaps(h: seq<real>, i: nat, j: nat, n: nat)
    ensures Overlap(h, i, j, n) == Overlap(h, j, i, n)
  {
    if n > 0 {
      OverlapSwaps(h, i, j, n - 1);
      MulLaws(At(h, n - 1 - i), At(h, n - 1 - j), 0.0);
    }
  }

  lemma {:induction false} OverlapAuto(h: seq<real>, i: nat, j: nat, n: nat)
    requires i <= j
    ensures Overlap(h, i, j, n) == if n <= j then 0.0 else AutoSum(h, j - i, n - j)
  {
    if n > 0 {
      OverlapAuto(h, i, j, n - 1);
      if n <= j {
        MulLaws(At(h, n - 1 - i), 0.0, 0.0);
      } else {
        MulLaws(At(h, n - 1 - j), At(h, n - 1 - j + (j - i)), 0.0);
        if n - 1 <= j {
          assert AutoSum(h, j - i, 0) == 0.0;
        }
      }
    }
  }

  /** The overlap depends on the distance alone. */
  lemma OverlapPhi(h: seq<real>, i: nat, j: nat, n: nat)
    requires i + |h| <= n && j + |h| <= n
    ensures Overlap(h, i, j, n) == Phi(h, i, j)
  {
    OverlapSwaps(h, i, j, n);
    if i <= j {
      OverlapAuto(h, i, j, n);
      if n > j {
        AutoEnds(h, j - i, n - j);
      }
    } else {
      OverlapAuto(h, j, i, n);
      if n > i {
        AutoEnds(h, i - j, n - i);
      }
    }
  }

  // ---- Energy and correlation of signed pulses ----

  predicate Signs(s: seq<real>) {
    forall i :: 0 <= i < |s| ==> s[i] == 1.0 || s[i] == -1.0
  }

  predicate Inside(ps: seq<nat>, n: nat) {
    forall a :: 0 <= a < |ps| ==> ps[a] < n
  }

  /** Correlation of the pulses at ps with a response at i. */
  function Cross(h: seq<real>, s: seq<real>, ps: seq<nat>, i: nat): real
    requires Inside(ps, |s|)
  {
    if ps == [] then 0.0
    else
      var last := ps[|ps| - 1];
      Cross(h, s, ps[..|ps| - 1], i) + Mul(s[last], Phi(h, last, i))
  }

  /** The first m rows of the double sum of s[p] * s[q] * phi(p, q) over all p, q in ps. */
  function Rows(h: seq<real>, s: seq<real>, ps: seq<nat>, m: nat): real
    requires Inside(ps, |s|) && m <= |ps|
  {
    if m == 0 then 0.0 else Rows(h, s, ps, m - 1) + Mul(s[ps[m - 1]], Cross(h, s, ps, ps[m - 1]))
  }

  /** The whole double sum. */
  function Energy(h: seq<real>, s: seq<real>, ps: seq<nat>): real
    requires Inside(ps, |s|)
  {
    Rows(h, s, ps, |ps|)
  }

  /** Sum of the target's magnitudes at the pulses. */
  function Total(abs: seq<real>, ps: seq<nat>): real
    requires Inside(ps, |abs|)
  {
    if ps == [] then 0.0 else Total(abs, ps[..|ps| - 1]) + abs[ps[|ps| - 1]]
  }

  lemma {:induction false} RowsPush(h: seq<real>, s: seq<real>, ps: seq<nat>, i: nat, m: nat)
    requires Inside(ps, |s|) && i < |s| && m <= |ps|
    ensures Rows(h, s, ps + [i], m) == Rows(h, s, ps, m) + Mul(s[i], Cross(h, s, ps[..m], i))
  {
    hide Mul, Phi;
    MulLaws(s[i], 0.0, 0.0);
    if m > 0 {
      RowsPush(h, s, ps, i, m - 1);
      var p := ps[m - 1];
      assert (ps + [i])[..|ps|] == ps && ps[..m][..m - 1] == ps[..m - 1];
      assert Cross(h, s, ps + [i], p) == Cross(h, s, ps, p) + Mul(s[i], Phi(h, i, p));
      MulLaws(Cross(h, s, ps, p), Mul(s[i], Phi(h, i, p)), s[p]);
      PhiSwaps(h, i, p);
      MulLaws(s[p], s[i], Phi(h, p, i));
      MulLaws(s[i], s[p], Phi(h, p, i));
      MulLaws(Cross(h, s, ps[..m - 1], i), Mul(s[p], Phi(h, p, i)), s[i]);
    }
  }

  lemma PhiSwaps(h: seq<real>, i: int, j: int)
    ensures Phi(h, i, j) == Phi(h, j, i)
  {
  }

  /** A pulse adds twice its correlation with the others, and its own energy. */
  lemma EnergyPush(h: seq<real>, s: seq<real>, ps: seq<nat>, i: nat)
    requires Inside(ps, |s|) && i < |s| && Signs(s)
    ensures Energy(h, s, ps + [i]) == Energy(h, s, ps) + 2.0 * Mul(s[i], Cross(h, s, ps, i)) + Phi(h, i, i)
  {
    hide Mul, Phi;
    RowsPush(h, s, ps, i, |ps|);
    assert ps[..|ps|] == ps && (ps + [i])[..|ps|] == ps;
    MulLaws(Cross(h, s, ps, i), Mul(s[i], Phi(h, i, i)), s[i]);
    SignSquared(s[i], Phi(h, i, i));
  }

  lemma SignSquared(s: real, x: real)
    requires s == 1.0 || s == -1.0
    ensures Mul(s, Mul(s, x)) == x
  {
  }

  // ---- Energies are sums of squares ----

  /** The filtered pulse vector at sample t. */
  function Filtered(h: seq<real>, s: seq<real>, ps: seq<nat>, t: nat): real
    requires Inside(ps, |s|)
  {
    if ps == [] then 0.0
    else
      var last := ps[|ps| - 1];
      Filtered(h, s, ps[..|ps| - 1], t) + Mul(s[last], At(h, t - last))
  }

  function SquareSum(h: seq<real>, s: seq<real>, ps: seq<nat>, n: nat): real
    requires Inside(ps, |s|)
  {
    if n == 0 then 0.0
    else SquareSum(h, s, ps, n - 1) + Mul(Filtered(h, s, ps, n - 1), Filtered(h, s, ps, n - 1))
  }

  function FilteredOverlap(h: seq<real>, s: seq<real>, ps: seq<nat>, i: nat, n: nat): real
    requires Inside(ps, |s|)
  {
    if n == 0 then 0.0
    else FilteredOverlap(h, s, ps, i, n - 1) + Mul(Filtered(h, s, ps, n - 1), At(h, n - 1 - i))
  }

  lemma {:induction false} FilteredPush(h: seq<real>, s: seq<real>, ps: seq<nat>, q: nat, i: nat, n: nat)
    requires Inside(ps, |s|) && q < |s|
    ensures FilteredOverlap(h, s, ps + [q], i, n) == FilteredOverlap(h, s, ps, i, n) + Mul(s[q], Overlap(h, q, i, n))
  {
    hide Mul, At;
    MulLaws(s[q], 0.0, 0.0);
    if n > 0 {
      FilteredPush(h, s, ps, q, i, n - 1);
      var t := n - 1;
      assert (ps + [q])[..|ps|] == ps;
      MulLaws(Filtered(h, s, ps, t), Mul(s[q], At(h, t - q)), At(h, t - i));
      MulLaws(s[q], At(h, t - q), At(h, t - i));
      MulLaws(Overlap(h, q, i, t), Mul(At(h, t - q), At(h, t - i)), s[q]);
    }
  }

  lemma {:induction false} FilteredCross(h: seq<real>, s: seq<real>, ps: seq<nat>, i: nat, n: nat)
    requires Inside(ps, |s|) && i < |s| && |s| + |h| <= n
    ensures FilteredOverlap(h, s, ps, i, n) == Cross(h, s, ps, i)
  {
    hide Mul, Phi, At;
    if ps == [] {
      NoOverlap(h, s, i, n);
    } else {
      var init, last := ps[..|ps| - 1], ps[|ps| - 1];
      assert init + [last] == ps;
      FilteredCross(h, s, init, i, n);
      FilteredPush(h, s, init, last, i, n);
      OverlapPhi(h, last, i, n);
    }
  }

  lemma {:induction false} NoOverlap(h: seq<real>, s: seq<real>, i: nat, n: nat)
    ensures FilteredOverlap(h, s, [], i, n) == 0.0
  {
    if n > 0 {
      NoOverlap(h, s, i, n - 1);
      MulLaws(At(h, n - 1 - i), 0.0, 0.0);
    }
  }

  lemma {:induction false} SquarePush(h: seq<real>, s: seq<real>, ps: seq<nat>, q: nat, n: nat)
    requires Inside(ps, |s|) && q < |s| && Signs(s)
    ensures SquareSum(h, s, ps + [q], n)
         == SquareSum(h, s, ps, n) + 2.0 * Mul(s[q], FilteredOverlap(h, s, ps, q, n)) + Overlap(h, q, q, n)
  {
    hide Mul, At;
    MulLaws(s[q], 0.0, 0.0);
    if n > 0 {
      SquarePush(h, s, ps, q, n - 1);
      var t := n - 1;
      assert (ps + [q])[..|ps|] == ps;
      BinomialSquare(Filtered(h, s, ps, t), s[q], At(h, t - q));
      MulLaws(FilteredOverlap(h, s, ps, q, t), Mul(Filtered(h, s, ps, t), At(h, t - q)), s[q]);
    }
  }

  lemma BinomialSquare(f: real, s: real, x: real)
    requires s == 1.0 || s == -1.0
    ensures Mul(f + Mul(s, x), f + Mul(s, x)) == Mul(f, f) + 2.0 * Mul(s, Mul(f, x)) + Mul(x, x)
  {
  }

  /** The quadratic form is the energy of the filtered pulses. */
  lemma {:induction false} EnergyIsSquareSum(h: seq<real>, s: seq<real>, ps: seq<nat>, n: nat)
    requires Inside(ps, |s|) && Signs(s) && |s| + |h| <= n
    ensures Energy(h, s, ps) == SquareSum(h, s, ps, n) >= 0.0
  {
    hide Mul, Phi, At;
    SquaresPositive(h, s, ps, n);
    if ps == [] {
      NoSquares(h, s, n);
    } else {
      var init, last := ps[..|ps| - 1], ps[|ps| - 1];
      assert init + [last] == ps;
      EnergyIsSquareSum(h, s, init, n);
      EnergyPush(h, s, init, last);
      SquarePush(h, s, init, last, n);
      FilteredCross(h, s, init, last, n);
      OverlapPhi(h, last, last, n);
    }
  }

  lemma {:induction false} NoSquares(h: seq<real>, s: seq<real>, n: nat)
    ensures SquareSum(h, s, [], n) == 0.0
  {
    if n > 0 {
      NoSquares(h, s, n - 1);
    }
  }

  lemma {:induction false} SquaresPositive(h: seq<real>, s: seq<real>, ps: seq<nat>, n: nat)
    requires Inside(ps, |s|)
    ensures SquareSum(h, s, ps, n) >= 0.0
  {
    if n > 0 {
      SquaresPositive(h, s, ps, n - 1);
      SquarePositive(Filtered(h, s, ps, n - 1));
    }
  }

  lemma SquarePositive(x: real)
    ensures Mul(x, x) >= 0.0
  {
  }

  // ---- The tables the search reads ----

  /** The mirrored autocorrelation: entry MAX_SF_LEN + d holds phi at distance d either way. */
  ghost predicate Flipped(f: seq<real>, h: seq<real>) {
    |f| == 2 * MAX_SF_LEN
    && forall i, j :: 0 <= i < MAX_SF_LEN && 0 <= j < MAX_SF_LEN ==> f[MAX_SF_LEN - i + j] == Phi(h, i, j)
  }

  method BuildPhiFlip(phi: seq<real>, lResp: nat, ghost h: seq<real>) returns (phiFlip: array<real>)
    requires lResp < MAX_SF_LEN == |phi| && |h| == lResp && 0 < lResp
    requires forall i :: 0 <= i <= lResp ==> phi[i] == Auto(h, i)
    ensures fresh(phiFlip) && Flipped(phiFlip[..], h)
  {
    hide Auto;
    phiFlip := new real[2 * MAX_SF_LEN](_ => 0.0);
    phiFlip[MAX_SF_LEN] := phi[0];
    for i := 0 to lResp + 1
      invariant forall k :: 0 <= k <= MAX_SF_LEN - i && k != MAX_SF_LEN ==> phiFlip[k] == 0.0
      invariant forall k :: MAX_SF_LEN + i <= k < 2 * MAX_SF_LEN && k != MAX_SF_LEN ==> phiFlip[k] == 0.0
      invariant forall k :: 0 <= k < i ==> phiFlip[MAX_SF_LEN - k] == phi[k] && phiFlip[MAX_SF_LEN + k] == phi[k]
    {
      phiFlip[MAX_SF_LEN - i] := phi[i];
      phiFlip[MAX_SF_LEN + i] := phi[i];
    }
    forall i, j | 0 <= i < MAX_SF_LEN && 0 <= j < MAX_SF_LEN
      ensures phiFlip[MAX_SF_LEN - i + j] == Phi(h, i, j)
    {
      var d := if i < j then j - i else i - j;
      if d > lResp {
        FarZero(h, d);
      } else {
        assert phiFlip[MAX_SF_LEN - d] == phi[d] && phiFlip[MAX_SF_LEN + d] == phi[d];
      }
    }
  }

  lemma FarZero(h: seq<real>, d: nat)
    requires d >= |h|
    ensures Auto(h, d) == 0.0
  {
    AutoZero(h, d, |h|);
  }

  /** The columns where a response can overlap the one at col; everywhere else phi is zero. */
  method NonZeroRange(col: nat, percRespLen: nat, fcbSubfrlen: nat, ghost h: seq<real>) returns (lo: nat, hi: nat)
    requires |h| == percRespLen
    ensures hi <= fcbSubfrlen
    ensures forall i :: 0 <= i < fcbSubfrlen && !(lo <= i < hi) ==> Phi(h, col, i) == 0.0
  {
    lo := if col + 1 < percRespLen then 0 else col - percRespLen + 1;
    hi := col + percRespLen;
    if hi > fcbSubfrlen {
      hi := fcbSubfrlen;
    }
    forall i | 0 <= i < fcbSubfrlen && !(lo <= i < hi)
      ensures Phi(h, col, i) == 0.0
    {
      FarZero(h, if col < i then i - col else col - i);
    }
  }

  method CalcDAbsAndSign(d: seq<real>) returns (dAbs: seq<real>, dSign: seq<real>)
    ensures |dAbs| == |dSign| == |d| && Signs(dSign)
    ensures forall i :: 0 <= i < |d| ==> dAbs[i] >= 0.0 && Mul(dSign[i], dAbs[i]) == d[i]
    ensures forall i :: 0 <= i < |d| ==> (dSign[i] > 0.0 <==> d[i] > 0.0)
  {
    dAbs, dSign := [], [];
    for i := 0 to |d|
      invariant |dAbs| == |dSign| == i && Signs(dSign)
      invariant forall j :: 0 <= j < i ==> dAbs[j] >= 0.0 && Mul(dSign[j], dAbs[j]) == d[j]
      invariant forall j :: 0 <= j < i ==> (dSign[j] > 0.0 <==> d[j] > 0.0)
    {
      if d[i] > 0.0 {
        dAbs, dSign := dAbs + [d[i]], dSign + [1.0];
      } else {
        dAbs, dSign := dAbs + [-d[i]], dSign + [-1.0];
      }
    }
  }

  // ---- One pulse ----

  /** For every next position: the correlation and the full energy of the pulses with one more there. */
  ghost predicate Exact(num: seq<real>, den: seq<real>, h: seq<real>, abs: seq<real>, s: seq<real>, ps: seq<nat>) {
    && |abs| == |s| <= |num| && |s| <= |den| && Inside(ps, |s|)
    && forall i :: 0 <= i < |s| ==>
         num[i] == Total(abs, ps) + abs[i] && den[i] == Energy(h, s, ps + [i]) + EPSILON
  }

  /** What committing the pulse q changes in the energy of every candidate i. */
  lemma DenStep(h: seq<real>, s: seq<real>, ps: seq<nat>, q: nat, i: nat)
    requires Inside(ps, |s|) && q < |s| && i < |s| && Signs(s)
    ensures Energy(h, s, ps + [q] + [i]) == Energy(h, s, ps + [i])
              + (2.0 * Mul(s[q], Cross(h, s, ps, q)) + Phi(h, q, q))
              + 2.0 * Mul(s[q], Mul(s[i], Phi(h, q, i)))
  {
    hide Mul, Phi, Energy;
    EnergyPush(h, s, ps, i);
    EnergyPush(h, s, ps, q);
    EnergyPush(h, s, ps + [q], i);
    assert (ps + [q])[..|ps|] == ps;
    MulLaws(Cross(h, s, ps, i), Mul(s[q], Phi(h, q, i)), s[i]);
    MulLaws(s[i], s[q], Phi(h, q, i));
    MulLaws(s[q], s[i], Phi(h, q, i));
  }

  method CrossTerm(phiFlip: array<real>, dSign: seq<real>, ps: seq<nat>, position: nat, ghost h: seq<real>)
    returns (c: real)
    requires Flipped(phiFlip[..], h) && |dSign| <= MAX_SF_LEN && Inside(ps, |dSign|) && position < |dSign|
    ensures c == Cross(h, dSign, ps, position)
  {
    hide Mul, Phi;
    var colOff := MAX_SF_LEN - position;
    c := 0.0;
    for i := 0 to |ps|
      invariant c == Cross(h, dSign, ps[..i], position)
    {
      var pi := ps[i];
      FlippedAt(phiFlip[..], h, position, pi);
      assert ps[..i + 1][..i] == ps[..i];
      MulLaws(phiFlip[colOff + pi], dSign[pi], 0.0);
      c := c + Mul(phiFlip[colOff + pi], dSign[pi]);
    }
    assert ps[..|ps|] == ps;
  }

  lemma FlippedAt(f: seq<real>, h: seq<real>, i: nat, j: nat)
    requires Flipped(f, h) && i < MAX_SF_LEN && j < MAX_SF_LEN
    ensures |f| == 2 * MAX_SF_LEN && f[MAX_SF_LEN - i + j] == Phi(h, i, j) == Phi(h, j, i)
  {
    PhiSwaps(h, i, j);
  }

  /** Every candidate's energy moves from the pulses ps to the pulses ps + [position]. */
  method CommitDen(den: array<real>, dSign: seq<real>, phiFlip: array<real>, ps: seq<nat>, position: nat,
                   percRespLen: nat, ghost h: seq<real>)
    requires den != phiFlip && |dSign| <= MAX_SF_LEN && |dSign| <= den.Length && Signs(dSign)
    requires Flipped(phiFlip[..], h) && |h| == percRespLen && position < |dSign| && Inside(ps, |dSign|)
    requires forall i :: 0 <= i < |dSign| ==> den[i] == Energy(h, dSign, ps + [i]) + EPSILON
    modifies den
    ensures forall i :: 0 <= i < |dSign| ==> den[i] == Energy(h, dSign, ps + [position] + [i]) + EPSILON
  {
    hide Mul, Phi, Energy, Flipped;
    var fcbSubfrlen := |dSign|;
    var sgn := dSign[position];
    var nz0, nz1 := NonZeroRange(position, percRespLen, fcbSubfrlen, h);
    var colOff := MAX_SF_LEN - position;
    var dDen := CrossTerm(phiFlip, dSign, ps, position, h);
    FlippedAt(phiFlip[..], h, position, position);
    Doubling(dDen, sgn);
    dDen := Mul(dDen, 2.0 * sgn);
    dDen := dDen + phiFlip[colOff + position];
    ghost var was := den[..];
    AddEverywhere(den, fcbSubfrlen, dDen);
    for i := nz0 to if nz0 < nz1 then nz1 else nz0
      invariant forall j :: 0 <= j < fcbSubfrlen ==>
        den[j] == was[j] + dDen + if nz0 <= j < i then 2.0 * Mul(sgn, Mul(dSign[j], Phi(h, position, j))) else 0.0
    {
      FlippedAt(phiFlip[..], h, position, i);
      TwiceProduct(sgn, dSign[i], phiFlip[colOff + i]);
      den[i] := den[i] + Mul(Mul(2.0 * sgn, dSign[i]), phiFlip[colOff + i]);
    }
    forall i | 0 <= i < fcbSubfrlen
      ensures den[i] == Energy(h, dSign, ps + [position] + [i]) + EPSILON
    {
      DenStep(h, dSign, ps, position, i);
      MulLaws(dSign[i], 0.0, 0.0);
      MulLaws(sgn, 0.0, 0.0);
    }
  }

  /** Moves both arrays from the pulses ps to the pulses ps + [position]. */
  method CommitPulse(num: array<real>, den: array<real>, dAbs: seq<real>, dSign: seq<real>, phiFlip: array<real>,
                     ps: seq<nat>, position: nat, percRespLen: nat, ghost h: seq<real>)
    requires num != den && num != phiFlip && den != phiFlip && |dSign| <= MAX_SF_LEN && Signs(dSign)
    requires Flipped(phiFlip[..], h) && |h| == percRespLen && position < |dSign|
    requires Exact(num[..], den[..], h, dAbs, dSign, ps)
    modifies num, den
    ensures Exact(num[..], den[..], h, dAbs, dSign, ps + [position])
  {
    hide Mul, Phi, Energy, Flipped;
    assert (ps + [position])[..|ps|] == ps;
    AddEverywhere(num, |dSign|, dAbs[position]);
    CommitDen(den, dSign, phiFlip, ps, position, percRespLen, h);
  }

  /**
   * The beam search's step for unsharpened pulses: a surviving state is copied with the new pulse added,
   * and the pulse recorded; the survivor itself is kept.
   */
  method AddPulse(fromNum: array<real>, fromDen: array<real>, toNum: array<real>, toDen: array<real>,
                  dAbs: seq<real>, dSign: seq<real>, phiFlip: array<real>, pulsePositions: seq<nat>, posNew: nat,
                  percRespLen: nat, ghost h: seq<real>)
    returns (positions: seq<nat>)
    requires toNum != toDen && toNum !in {fromNum, fromDen, phiFlip} && toDen !in {fromNum, fromDen, phiFlip}
    requires |dSign| <= MAX_SF_LEN && |dSign| <= toNum.Length && |dSign| <= toDen.Length && Signs(dSign)
    requires Flipped(phiFlip[..], h) && |h| == percRespLen && posNew < |dSign|
    requires Exact(fromNum[..], fromDen[..], h, dAbs, dSign, pulsePositions)
    modifies toNum, toDen
    ensures positions == pulsePositions + [posNew] && Exact(toNum[..], toDen[..], h, dAbs, dSign, positions)
  {
    hide Mul, Phi, Energy, Flipped;
    var add := dAbs[posNew];
    for i := 0 to |dSign|
      invariant forall j :: 0 <= j < i ==> toNum[j] == fromNum[j] + add && toDen[j] == fromDen[j]
    {
      toNum[i] := fromNum[i] + add;
      toDen[i] := fromDen[i];
    }
    assert forall j :: 0 <= j < |dSign| ==> fromNum[..][j] == fromNum[j] && fromDen[..][j] == fromDen[j];
    positions := pulsePositions + [posNew];
    assert positions[..|pulsePositions|] == pulsePositions;
    CommitDen(toDen, dSign, phiFlip, pulsePositions, posNew, percRespLen, h);
  }

  method AddEverywhere(a: array<real>, n: nat, x: real)
    requires n <= a.Length
    modifies a
    ensures forall i :: 0 <= i < n ==> a[i] == old(a[i]) + x
  {
    for i := 0 to n
      invariant forall j :: 0 <= j < a.Length ==> a[j] == if j < i then old(a[j]) + x else old(a[j])
    {
      a[i] := a[i] + x;
    }
  }

  lemma Doubling(x: real, s: real)
    ensures Mul(x, 2.0 * s) == 2.0 * Mul(s, x)
  {
  }

  lemma TwiceProduct(x: real, y: real, z: real)
    ensures Mul(Mul(2.0 * x, y), z) == 2.0 * Mul(x, Mul(y, z))
  {
  }

  // ---- Multiplying by the autocorrelation ----

  /** The first m terms of row nn of the matrix of phi times x. */
  function RowProduct(h: seq<real>, x: seq<real>, nn: nat, m: nat): real
    requires m <= |x|
  {
    if m == 0 then 0.0 else RowProduct(h, x, nn, m - 1) + Mul(Phi(h, nn, m - 1), x[m - 1])
  }

  lemma {:induction false} NearRows(h: seq<real>, x: seq<real>, nn: nat, m: nat)
    requires m <= |x| && m + |h| <= nn + 1
    ensures RowProduct(h, x, nn, m) == 0.0
  {
    if m > 0 {
      NearRows(h, x, nn, m - 1);
      FarZero(h, nn - (m - 1));
      MulLaws(x[m - 1], 0.0, 0.0);
    }
  }

  /** Terms past the reach of the response, or past the end of the data, add nothing. */
  lemma {:induction false} FarRows(h: seq<real>, x: seq<real>, nn: nat, lo: nat, hi: nat)
    requires lo <= hi <= |x|
    requires forall j :: lo <= j < hi ==> x[j] == 0.0 || j - nn >= |h|
    ensures RowProduct(h, x, nn, hi) == RowProduct(h, x, nn, lo)
  {
    if lo < hi {
      FarRows(h, x, nn, lo, hi - 1);
      if x[hi - 1] == 0.0 {
        MulLaws(Phi(h, nn, hi - 1), 0.0, 0.0);
      } else {
        FarZero(h, hi - 1 - nn);
        MulLaws(x[hi - 1], 0.0, 0.0);
      }
    }
  }

  /** Entry k is phi at distance k - (lResp - 1), both ways. */
  ghost predicate Centred(c: seq<real>, lResp: nat, h: seq<real>) {
    |c| >= 2 * lResp && forall k :: 0 <= k < 2 * lResp ==> c[k] == Phi(h, lResp - 1, k)
  }

  method DotProd(c: seq<real>, cs: nat, x: seq<real>, xs: nat, len: nat, ghost h: seq<real>, ghost lResp: nat,
                 ghost nn: nat)
    returns (r: real)
    requires Centred(c, lResp, h) && cs + len <= 2 * lResp && xs + len <= |x| && cs + nn == xs + lResp - 1
    ensures r == RowProduct(h, x, nn, xs + len) - RowProduct(h, x, nn, xs)
  {
    hide Mul, Phi;
    r := 0.0;
    for i := 0 to len
      invariant r == RowProduct(h, x, nn, xs + i) - RowProduct(h, x, nn, xs)
    {
      SameDistance(h, lResp - 1, cs + i, nn, xs + i);
      r := r + Mul(c[cs + i], x[xs + i]);
    }
  }

  lemma SameDistance(h: seq<real>, a: int, b: int, i: int, j: int)
    requires b - a == j - i
    ensures Phi(h, a, b) == Phi(h, i, j)
  {
  }

  /** One row from the part of it that the code sums. */
  lemma WholeRow(h: seq<real>, x: seq<real>, nn: nat, n: nat, xs: nat, len: nat)
    requires n <= |x| && xs + len <= |x| && (xs == 0 || xs + |h| <= nn + 1)
    requires xs + len >= n || xs + len >= nn + |h|
    requires forall j :: n <= j < |x| ==> x[j] == 0.0
    ensures RowProduct(h, x, nn, xs + len) - RowProduct(h, x, nn, xs) == RowProduct(h, x, nn, n)
  {
    if xs > 0 {
      NearRows(h, x, nn, xs);
    }
    if xs + len >= n {
      FarRows(h, x, nn, n, xs + len);
    } else {
      FarRows(h, x, nn, xs + len, n);
    }
  }

  /** Growing, full and shrinking windows together are the product with the whole symmetric matrix. */
  method MultSymtoepl2(c: seq<real>, lResp: nat, x: seq<real>, y: array<real>, n: nat, ghost h: seq<real>)
    requires 1 <= lResp == |h| && lResp <= n + 1 && Centred(c, lResp, h)
    requires n + lResp <= |x| && (forall j :: n <= j < |x| ==> x[j] == 0.0) && n <= y.Length && lResp - 1 <= y.Length
    modifies y
    ensures forall nn :: 0 <= nn < n ==> y[nn] == RowProduct(h, x, nn, n)
    ensures forall j :: n <= j < y.Length && lResp - 1 <= j ==> y[j] == old(y[j])
  {
    hide RowProduct, Mul, Phi, Centred;
    var nn, length := 0, lResp;
    while nn < lResp - 1
      invariant nn <= lResp - 1 && nn <= n && length == lResp + nn
      invariant forall j :: 0 <= j < nn ==> y[j] == RowProduct(h, x, j, n)
      invariant forall j :: nn <= j < y.Length ==> y[j] == old(y[j])
    {
      WholeRow(h, x, nn, n, 0, length);
      y[nn] := DotProd(c, lResp - 1 - nn, x, 0, length, h, lResp, nn);
      length := length + 1;
      nn := nn + 1;
    }
    length := 2 * lResp;
    while nn < n - lResp
      invariant lResp - 1 <= nn <= n && (nn <= n - lResp || nn == lResp - 1)
      invariant forall j :: 0 <= j < nn ==> y[j] == RowProduct(h, x, j, n)
      invariant forall j :: nn <= j < y.Length ==> y[j] == old(y[j])
    {
      WholeRow(h, x, nn, n, nn + 1 - lResp, length);
      y[nn] := DotProd(c, 0, x, nn + 1 - lResp, length, h, lResp, nn);
      nn := nn + 1;
    }
    ghost var s := nn;
    while nn < n
      invariant s <= nn <= n && length == 2 * lResp - (nn - s)
      invariant forall j :: 0 <= j < nn ==> y[j] == RowProduct(h, x, j, n)
      invariant forall j :: nn <= j < y.Length ==> y[j] == old(y[j])
    {
      length := length - 1;
      WholeRow(h, x, nn, n, nn + 1 - lResp, length);
      y[nn] := DotProd(c, 0, x, nn + 1 - lResp, length, h, lResp, nn);
      nn := nn + 1;
    }
  }

  // ---- Choosing positions and counts ----

  function Ratio(x: real, y: real): real
    requires y > 0.0
  {
    Mul(x, x) / y
  }

  lemma DenPositive(h: seq<real>, s: seq<real>, ps: seq<nat>)
    requires Inside(ps, |s|) && Signs(s)
    ensures Energy(h, s, ps) + EPSILON > 0.0
  {
    EnergyIsSquareSum(h, s, ps, |s| + |h|);
  }

  /** What the pulses ps and one at i explain of the target: squared correlation over energy. */
  function Score(h: seq<real>, abs: seq<real>, s: seq<real>, ps: seq<nat>, i: nat): real
    requires |abs| == |s| && Inside(ps, |s|) && Signs(s) && i < |s|
  {
    DenPositive(h, s, ps + [i]);
    Ratio(Total(abs, ps) + abs[i], Energy(h, s, ps + [i]) + EPSILON)
  }

  /** i is the first of the positions that explain the most. */
  ghost predicate Best(h: seq<real>, abs: seq<real>, s: seq<real>, ps: seq<nat>, i: nat)
    requires |abs| == |s| && Inside(ps, |s|) && Signs(s)
  {
    && i < |s|
    && (forall j :: 0 <= j < |s| ==> Score(h, abs, s, ps, j) <= Score(h, abs, s, ps, i))
    && forall j :: 0 <= j < i ==> Score(h, abs, s, ps, j) < Score(h, abs, s, ps, i)
  }

  ghost predicate Greedy(h: seq<real>, abs: seq<real>, s: seq<real>, ps: seq<nat>)
    requires |abs| == |s| && Inside(ps, |s|) && Signs(s)
  {
    forall m :: 0 < m < |ps| ==> Best(h, abs, s, ps[..m], ps[m])
  }

  /** The first pulse goes to the first largest magnitude. */
  predicate Largest(abs: seq<real>, i: nat) {
    && i < |abs|
    && (forall j :: 0 <= j < |abs| ==> abs[j] <= abs[i])
    && forall j :: 0 <= j < i ==> abs[j] < abs[i]
  }

  method GetMaxi(x: array<real>, xLen: nat) returns (i: nat)
    requires 0 < xLen <= x.Length
    ensures i < xLen
    ensures forall j :: 0 <= j < xLen ==> x[j] <= x[i]
    ensures forall j :: 0 <= j < i ==> x[j] < x[i]
  {
    i := 0;
    var mx := x[0];
    for n := 1 to xLen
      invariant i < n && mx == x[i]
      invariant forall j :: 0 <= j < n ==> x[j] <= mx
      invariant forall j :: 0 <= j < i ==> x[j] < mx
    {
      if x[n] > mx {
        mx := x[n];
        i := n;
      }
    }
  }

  method Scores(num: array<real>, den: array<real>, ghost h: seq<real>, ghost abs: seq<real>, ghost s: seq<real>,
                ghost ps: seq<nat>, l: nat)
    returns (q: array<real>)
    requires Exact(num[..], den[..], h, abs, s, ps) && Signs(s) && l == |s| <= MAX_SF_LEN
    ensures fresh(q) && q.Length == MAX_SF_LEN
    ensures forall i :: 0 <= i < l ==> q[i] == Score(h, abs, s, ps, i)
  {
    hide Mul, Energy, Total;
    q := new real[MAX_SF_LEN](_ => 0.0);
    for i := 0 to l
      invariant forall j :: 0 <= j < i ==> q[j] == Score(h, abs, s, ps, j)
    {
      DenPositive(h, s, ps + [i]);
      assert num[..][i] == num[i] && den[..][i] == den[i];
      q[i] := Mul(num[i], num[i]) / den[i];
    }
  }

  /** A rate's running choice: the threshold, the pulse count, and what that many pulses explain. */
  datatype Rate = Rate(nrgThr: real, nPulses: nat, wnrg: real, gain: real, fcbWnrg: real)

  /** The recorded numbers are those of the first nPulses pulses. */
  ghost predicate Matches(r: Rate, h: seq<real>, abs: seq<real>, s: seq<real>, ps: seq<nat>)
    requires |abs| == |s| && Inside(ps, |s|) && Signs(s)
  {
    r.nPulses <= |ps| && (r.nPulses > 0 ==> Recorded(r, h, abs, s, ps[..r.nPulses - 1], ps[r.nPulses - 1]))
  }

  ghost predicate Recorded(r: Rate, h: seq<real>, abs: seq<real>, s: seq<real>, init: seq<nat>, last: nat)
    requires |abs| == |s| && Inside(init, |s|) && Signs(s) && last < |s|
  {
    DenPositive(h, s, init + [last]);
    var num, den := Total(abs, init) + abs[last], Energy(h, s, init + [last]) + EPSILON;
    r.wnrg == Ratio(num, den) && r.gain == num / den && r.fcbWnrg == den
  }

  function Price(w: real, k: nat): real {
    if k == 0 then 0.0 else Price(w, k - 1) + w
  }

  /** What the first k pulses explain, less a price for each. */
  ghost function Net(h: seq<real>, abs: seq<real>, s: seq<real>, ps: seq<nat>, w: real, k: nat): real
    requires |abs| == |s| && Inside(ps, |s|) && Signs(s) && k <= |ps|
  {
    (if k == 0 then 0.0 else Score(h, abs, s, ps[..k - 1], ps[k - 1])) - Price(w, k)
  }

  /** The count is the first of those with the greatest net worth, none included. */
  ghost predicate BestCount(h: seq<real>, abs: seq<real>, s: seq<real>, ps: seq<nat>, w: real, n: nat)
    requires |abs| == |s| && Inside(ps, |s|) && Signs(s)
  {
    && n <= |ps|
    && (forall k :: 0 <= k <= |ps| ==> Net(h, abs, s, ps, w, k) <= Net(h, abs, s, ps, w, n))
    && forall k :: 0 <= k < n ==> Net(h, abs, s, ps, w, k) < Net(h, abs, s, ps, w, n)
  }

  ghost predicate Settled(r: Rate, h: seq<real>, abs: seq<real>, s: seq<real>, ps: seq<nat>, w: real)
    requires |abs| == |s| && Inside(ps, |s|) && Signs(s)
  {
    && BestCount(h, abs, s, ps, w, r.nPulses)
    && r.nrgThr == Net(h, abs, s, ps, w, r.nPulses) + Price(w, |ps|)
  }

  /** The threshold rises by the price of a pulse; a count that beats it becomes the choice. */
  method Consider(r: Rate, wnrgPerPulse: real, wnrg: real, num: real, den: real, count: nat)
    returns (r': Rate, better: bool)
    requires den > 0.0
    ensures better == (wnrg > r.nrgThr + wnrgPerPulse)
    ensures r' == if better then Rate(wnrg, count, wnrg, num / den, den) else r.(nrgThr := r.nrgThr + wnrgPerPulse)
  {
    better := false;
    r' := r.(nrgThr := r.nrgThr + wnrgPerPulse);
    if wnrg > r'.nrgThr {
      r' := Rate(wnrg, count, wnrg, num / den, den);
      better := true;
    }
  }

  lemma NetPush(h: seq<real>, abs: seq<real>, s: seq<real>, ps: seq<nat>, p: nat, w: real, k: nat)
    requires |abs| == |s| && Inside(ps, |s|) && Signs(s) && k <= |ps| && p < |s|
    ensures Net(h, abs, s, ps + [p], w, k) == Net(h, abs, s, ps, w, k)
    ensures Net(h, abs, s, ps + [p], w, |ps| + 1) == Score(h, abs, s, ps, p) - Price(w, |ps|) - w
  {
    assert (ps + [p])[..|ps|] == ps;
    if k > 0 {
      assert (ps + [p])[..k - 1] == ps[..k - 1];
    }
  }

  lemma SettledPush(r: Rate, r': Rate, h: seq<real>, abs: seq<real>, s: seq<real>, ps: seq<nat>, p: nat, w: real)
    requires |abs| == |s| && Inside(ps, |s|) && Signs(s) && p < |s| && Settled(r, h, abs, s, ps, w)
    requires if Score(h, abs, s, ps, p) > r.nrgThr + w
             then r'.nPulses == |ps| + 1 && r'.nrgThr == Score(h, abs, s, ps, p)
             else r'.nPulses == r.nPulses && r'.nrgThr == r.nrgThr + w
    ensures Settled(r', h, abs, s, ps + [p], w)
  {
    hide Score, Net;
    forall k | 0 <= k <= |ps|
      ensures Net(h, abs, s, ps + [p], w, k) == Net(h, abs, s, ps, w, k)
    {
      NetPush(h, abs, s, ps, p, w, k);
    }
    NetPush(h, abs, s, ps, p, w, 0);
  }

  // ---- The forward-error-correction rate ----

  /** The last count this rate looks at, of n: its maximum bounds the pulses there are before the new one. */
  function FecTop(n: nat, fecMax: nat): nat
    requires n > 0
  {
    if fecMax < n then fecMax + 1 else n
  }

  /** What count k is worth to this rate, which pays nothing for its first pulse and gains nothing by it. */
  ghost function FecWorth(h: seq<real>, abs: seq<real>, s: seq<real>, ps: seq<nat>, w: real, k: nat): real
    requires |abs| == |s| && Inside(ps, |s|) && Signs(s) && 1 <= k <= |ps|
  {
    if k == 1 then 0.0 else Score(h, abs, s, ps[..k - 1], ps[k - 1]) - Price(w, k - 1)
  }

  /** The first of the counts up to k that are worth the most. */
  ghost function FecRank(h: seq<real>, abs: seq<real>, s: seq<real>, ps: seq<nat>, w: real, k: nat): (n: nat)
    requires |abs| == |s| && Inside(ps, |s|) && Signs(s) && 1 <= k <= |ps|
    ensures 1 <= n <= k
    ensures forall j :: 1 <= j <= k ==> FecWorth(h, abs, s, ps, w, j) <= FecWorth(h, abs, s, ps, w, n)
    ensures forall j :: 1 <= j < n ==> FecWorth(h, abs, s, ps, w, j) < FecWorth(h, abs, s, ps, w, n)
  {
    if k == 1 then 1
    else
      var n := FecRank(h, abs, s, ps, w, k - 1);
      if FecWorth(h, abs, s, ps, w, k) > FecWorth(h, abs, s, ps, w, n) then k else n
  }

  /** The count this rate holds before its threshold is checked; the main rate decides on the first pulse. */
  ghost function FecHeld(h: seq<real>, abs: seq<real>, s: seq<real>, ps: seq<nat>, mainPrice: real, fecPrice: real,
                         fecMax: nat): nat
    requires |abs| == |s| && Inside(ps, |s|) && Signs(s) && ps != []
  {
    var n := FecRank(h, abs, s, ps, fecPrice, FecTop(|ps|, fecMax));
    if n > 1 then n
    else if fecMax > 0 && Score(h, abs, s, [], ps[0]) > mainPrice then 1
    else 0
  }

  ghost function FecThreshold(h: seq<real>, abs: seq<real>, s: seq<real>, ps: seq<nat>, fecPrice: real,
                              fecMax: nat): real
    requires |abs| == |s| && Inside(ps, |s|) && Signs(s) && ps != []
  {
    var top := FecTop(|ps|, fecMax);
    FecWorth(h, abs, s, ps, fecPrice, FecRank(h, abs, s, ps, fecPrice, top)) + Price(fecPrice, top - 1)
  }

  /** The pulses this rate ends up with. */
  ghost function FecCount(h: seq<real>, abs: seq<real>, s: seq<real>, ps: seq<nat>, mainPrice: real, fecPrice: real,
                          fecMax: nat): nat
    requires |abs| == |s| && Inside(ps, |s|) && Signs(s) && ps != []
  {
    if FecThreshold(h, abs, s, ps, fecPrice, fecMax) > 0.0 then FecHeld(h, abs, s, ps, mainPrice, fecPrice, fecMax)
      else 0
  }

  ghost predicate FecSettled(r: Rate, h: seq<real>, abs: seq<real>, s: seq<real>, ps: seq<nat>, mainPrice: real,
                             fecPrice: real, fecMax: nat)
    requires |abs| == |s| && Inside(ps, |s|) && Signs(s) && ps != []
  {
    && r.nPulses == FecHeld(h, abs, s, ps, mainPrice, fecPrice, fecMax)
    && r.nrgThr == FecThreshold(h, abs, s, ps, fecPrice, fecMax)
  }

  lemma {:induction false} FecRankPush(h: seq<real>, abs: seq<real>, s: seq<real>, ps: seq<nat>, p: nat, w: real,
                                       k: nat)
    requires |abs| == |s| && Inside(ps, |s|) && Signs(s) && 1 <= k <= |ps| && p < |s|
    ensures FecRank(h, abs, s, ps + [p], w, k) == FecRank(h, abs, s, ps, w, k)
    ensures forall j :: 1 <= j <= k ==> FecWorth(h, abs, s, ps + [p], w, j) == FecWorth(h, abs, s, ps, w, j)
  {
    hide Score, Price;
    assert (ps + [p])[..k - 1] == ps[..k - 1];
    if k > 1 {
      FecRankPush(h, abs, s, ps, p, w, k - 1);
    }
  }

  lemma FecRankNext(h: seq<real>, abs: seq<real>, s: seq<real>, ps: seq<nat>, p: nat, w: real)
    requires |abs| == |s| && Inside(ps, |s|) && Signs(s) && ps != [] && p < |s|
    ensures var n := FecRank(h, abs, s, ps, w, |ps|);
            var worth := Score(h, abs, s, ps, p) - Price(w, |ps|);
            && FecWorth(h, abs, s, ps + [p], w, |ps| + 1) == worth
            && FecWorth(h, abs, s, ps + [p], w, n) == FecWorth(h, abs, s, ps, w, n)
            && FecRank(h, abs, s, ps + [p], w, |ps| + 1) == if worth > FecWorth(h, abs, s, ps, w, n) then |ps| + 1
              else n
  {
    hide Score, Price;
    FecRankPush(h, abs, s, ps, p, w, |ps|);
    assert (ps + [p])[..|ps|] == ps;
  }

  lemma FecPush(r: Rate, r': Rate, h: seq<real>, abs: seq<real>, s: seq<real>, ps: seq<nat>, p: nat, mainPrice: real,
                fecPrice: real, fecMax: nat)
    requires |abs| == |s| && Inside(ps, |s|) && Signs(s) && ps != [] && p < |s|
    requires FecSettled(r, h, abs, s, ps, mainPrice, fecPrice, fecMax)
    requires if fecMax < |ps| then r' == r
             else if Score(h, abs, s, ps, p) > r.nrgThr + fecPrice
             then r'.nPulses == |ps| + 1 && r'.nrgThr == Score(h, abs, s, ps, p)
             else r'.nPulses == r.nPulses && r'.nrgThr == r.nrgThr + fecPrice
    ensures FecSettled(r', h, abs, s, ps + [p], mainPrice, fecPrice, fecMax)
  {
    hide Score, FecRank, FecWorth;
    assert (ps + [p])[0] == ps[0];
    if fecMax < |ps| {
      FecRankPush(h, abs, s, ps, p, fecPrice, FecTop(|ps|, fecMax));
    } else {
      FecRankNext(h, abs, s, ps, p, fecPrice);
    }
  }

  /**
   * The bound the maximum suggests fails exactly when the search goes on past it and the first count beyond
   * it is worth more than every earlier one, the shared first pulse included.
   */
  lemma FecBound(h: seq<real>, abs: seq<real>, s: seq<real>, ps: seq<nat>, mainPrice: real, fecPrice: real, fecMax: nat)
    requires |abs| == |s| && Inside(ps, |s|) && Signs(s) && ps != []
    ensures FecCount(h, abs, s, ps, mainPrice, fecPrice, fecMax) <= fecMax + 1
    ensures FecCount(h, abs, s, ps, mainPrice, fecPrice, fecMax) > fecMax
            <==> (&& 1 <= fecMax < |ps|
                  && Score(h, abs, s, ps[..fecMax], ps[fecMax]) > 0.0
                  && forall k :: 1 <= k <= fecMax ==>
                       FecWorth(h, abs, s, ps, fecPrice, fecMax + 1) > FecWorth(h, abs, s, ps, fecPrice, k))
  {
    hide Score, Price;
    var n := FecRank(h, abs, s, ps, fecPrice, FecTop(|ps|, fecMax));
    if 1 <= fecMax < |ps| {
      assert FecTop(|ps|, fecMax) == fecMax + 1;
    }
  }

  /**
   * When no later count is worth more than nothing, this rate keeps the first pulse exactly if the main rate
   * found it worth its price; but with a maximum of zero, or no second pulse, it keeps none.
   */
  lemma FecFirst(h: seq<real>, abs: seq<real>, s: seq<real>, ps: seq<nat>, mainPrice: real, fecPrice: real, fecMax: nat)
    requires |abs| == |s| && Inside(ps, |s|) && Signs(s) && ps != [] && fecPrice > 0.0
    requires forall k :: 2 <= k <= FecTop(|ps|, fecMax) ==> FecWorth(h, abs, s, ps, fecPrice, k) <= 0.0
    ensures FecCount(h, abs, s, ps, mainPrice, fecPrice, fecMax)
         == if fecMax == 0 || |ps| == 1 || Score(h, abs, s, [], ps[0]) <= mainPrice then 0 else 1
  {
    hide Score, Price;
    var top := FecTop(|ps|, fecMax);
    PriceRises(fecPrice, top - 1);
    assert FecWorth(h, abs, s, ps, fecPrice, 1) == 0.0;
    assert FecRank(h, abs, s, ps, fecPrice, top) == 1;
  }

  lemma {:induction false} PriceRises(w: real, k: nat)
    requires w > 0.0
    ensures Price(w, 0) == 0.0 && (k > 0 ==> Price(w, k) > 0.0)
  {
    if k > 0 {
      PriceRises(w, k - 1);
    }
  }

  lemma MatchesPush(r: Rate, h: seq<real>, abs: seq<real>, s: seq<real>, ps: seq<nat>, p: nat)
    requires |abs| == |s| && Inside(ps, |s|) && Signs(s) && p < |s|
    requires Matches(r, h, abs, s, ps) || (r.nPulses == |ps| + 1 && Recorded(r, h, abs, s, ps, p))
    ensures Matches(r, h, abs, s, ps + [p])
  {
    hide Recorded;
    assert (ps + [p])[..|ps|] == ps;
    if 0 < r.nPulses <= |ps| {
      assert (ps + [p])[..r.nPulses - 1] == ps[..r.nPulses - 1];
    }
  }

  lemma GreedyPush(h: seq<real>, abs: seq<real>, s: seq<real>, ps: seq<nat>, p: nat)
    requires |abs| == |s| && Inside(ps, |s|) && Signs(s) && Greedy(h, abs, s, ps) && p < |s|
    requires ps != [] ==> Best(h, abs, s, ps, p)
    ensures Inside(ps + [p], |s|) && Greedy(h, abs, s, ps + [p])
  {
    hide Best;
    assert (ps + [p])[..|ps|] == ps;
    forall m | 0 < m < |ps| + 1
      ensures Best(h, abs, s, (ps + [p])[..m], (ps + [p])[m])
    {
      if m < |ps| {
        assert (ps + [p])[..m] == ps[..m];
      }
    }
  }

  // ---- The search ----

  /** All candidates before any pulse: every den is phi(0), every num its own magnitude. */
  method Start(dAbs: seq<real>, phi0: real, ghost h: seq<real>, ghost s: seq<real>)
    returns (num: array<real>, den: array<real>)
    requires |s| == |dAbs| <= MAX_SF_LEN && Signs(s) && phi0 == Phi(h, 0, 0)
    ensures fresh(num) && fresh(den) && num != den && num.Length == den.Length == MAX_SF_LEN
    ensures Exact(num[..], den[..], h, dAbs, s, [])
    ensures forall i :: 0 <= i < |s| ==> num[i] == dAbs[i] && den[i] == phi0 + EPSILON
  {
    num := new real[MAX_SF_LEN](_ => 0.0);
    den := new real[MAX_SF_LEN](_ => 0.0);
    for i := 0 to |dAbs|
      invariant forall j :: 0 <= j < i ==> den[j] == phi0 + EPSILON && num[j] == dAbs[j]
    {
      den[i] := phi0 + EPSILON;
      num[i] := dAbs[i];
    }
    forall i | 0 <= i < |s|
      ensures Energy(h, s, [] + [i]) == phi0
    {
      EnergyPush(h, s, [], i);
      MulLaws(s[i], 0.0, 0.0);
    }
  }

  lemma NothingSettled(r: Rate, h: seq<real>, abs: seq<real>, s: seq<real>, w: real)
    requires |abs| == |s| && Signs(s) && r.nrgThr == 0.0 && r.nPulses == 0
    ensures Settled(r, h, abs, s, [], w) && Matches(r, h, abs, s, []) && Greedy(h, abs, s, [])
  {
  }

  lemma TwoWays(x: real, y: real)
    requires y > 0.0
    ensures Mul(x, x / y) == Ratio(x, y)
  {
  }

  lemma ScoreAt(num: seq<real>, den: seq<real>, h: seq<real>, abs: seq<real>, s: seq<real>, ps: seq<nat>, p: nat)
    requires Exact(num, den, h, abs, s, ps) && Signs(s) && p < |s|
    ensures num[p] == Total(abs, ps) + abs[p] && den[p] == Energy(h, s, ps + [p]) + EPSILON
    ensures den[p] > 0.0 && Mul(num[p], num[p] / den[p]) == Score(h, abs, s, ps, p)
  {
    hide Mul, Energy, Total, Ratio;
    DenPositive(h, s, ps + [p]);
    TwoWays(num[p], den[p]);
  }

  /** The first pulse, which the two rates share. */
  method FirstPulse(num: array<real>, den: array<real>, position: nat, mainPrice: real, ghost fecPrice: real,
                    fecMax: nat, mainIn: Rate, fecIn: Rate, ghost h: seq<real>, ghost abs: seq<real>,
                    ghost s: seq<real>)
    returns (main: Rate, fec: Rate)
    requires Exact(num[..], den[..], h, abs, s, []) && Signs(s) && position < |s|
    requires mainIn.nrgThr == fecIn.nrgThr == 0.0 && mainIn.nPulses == fecIn.nPulses == 0
    ensures Settled(main, h, abs, s, [position], mainPrice) && Matches(main, h, abs, s, [position])
    ensures Matches(fec, h, abs, s, [position])
    ensures FecSettled(fec, h, abs, s, [position], mainPrice, fecPrice, fecMax)
  {
    hide Mul, Energy, Ratio, Total, Score, Settled, Recorded, Greedy;
    ScoreAt(num[..], den[..], h, abs, s, [], position);
    assert num[..][position] == num[position] && den[..][position] == den[position];
    NothingSettled(mainIn, h, abs, s, mainPrice);
    var ratio := num[position] / den[position];
    var wnrg0 := Mul(num[position], ratio);
    var better;
    main, better := Consider(mainIn, mainPrice, wnrg0, num[position], den[position], 1);
    fec := fecIn;
    if better {
      fec := fec.(wnrg := wnrg0, gain := ratio, fcbWnrg := den[position]);
      if fecMax > 0 {
        fec := fec.(nPulses := main.nPulses, wnrg := main.wnrg, gain := main.gain, fcbWnrg := main.fcbWnrg);
      }
    }
    RecordedScore(main, h, abs, s, [], position, num[position], den[position]);
    RecordedScore(fec, h, abs, s, [], position, num[position], den[position]);
    SettledPush(mainIn, main, h, abs, s, [], position, mainPrice);
    MatchesPush(main, h, abs, s, [], position);
    MatchesPush(fec, h, abs, s, [], position);
    assert [] + [position] == [position];
  }

  /** Each pulse names its position from one, and is positive exactly where the target is. */
  ghost predicate Written(pulses: seq<int>, d: seq<real>, ps: seq<nat>, n: nat)
    requires Inside(ps, |d|)
  {
    && n <= |ps| && |pulses| == n
    && (forall i :: 0 <= i < n ==> pulses[i] == 1 + ps[i] || -pulses[i] == 1 + ps[i])
    && forall i :: 0 <= i < n ==> (pulses[i] > 0 <==> d[ps[i]] > 0.0)
  }

  predicate Names(pulses: seq<int>, n: nat) {
    forall i :: 0 <= i < |pulses| ==> 1 <= pulses[i] <= n || 1 <= -pulses[i] <= n
  }

  /** The target correlated with a codebook vector given by its pulses. */
  function Gathered(d: seq<real>, pulses: seq<int>): real
    requires Names(pulses, |d|)
  {
    if pulses == [] then 0.0
    else
      var p := pulses[|pulses| - 1];
      Gathered(d, pulses[..|pulses| - 1]) + if p > 0 then d[p - 1] else -d[-p - 1]
  }

  /** Every pulse returned adds the whole magnitude of the target at its place. */
  lemma {:induction false} GathersAll(d: seq<real>, abs: seq<real>, s: seq<real>, ps: seq<nat>, pulses: seq<int>,
                                      n: nat)
    requires |abs| == |s| == |d| && Signs(s) && Inside(ps, |d|) && Written(pulses, d, ps, n)
    requires forall i :: 0 <= i < |d| ==> abs[i] >= 0.0 && Mul(s[i], abs[i]) == d[i]
    ensures Names(pulses, |d|) && Gathered(d, pulses) == Total(abs, ps[..n])
  {
    if n > 0 {
      GathersAll(d, abs, s, ps, pulses[..n - 1], n - 1);
      assert ps[..n][..n - 1] == ps[..n - 1];
      var i := ps[n - 1];
      assert Mul(s[i], abs[i]) == d[i];
    }
  }

  method Finish(r: Rate, positions: seq<nat>, dSign: seq<real>, ghost d: seq<real>) returns (r': Rate, pulses: seq<int>)
    requires Inside(positions, |d|) && r.nPulses <= |positions| && |d| == |dSign|
    requires forall i :: 0 <= i < |d| ==> (dSign[i] > 0.0 <==> d[i] > 0.0)
    ensures r.nrgThr > 0.0 ==> r' == r && Written(pulses, d, positions, r.nPulses)
    ensures r.nrgThr <= 0.0 ==> r' == Rate(r.nrgThr, 0, 0.0, 0.0, 0.0) && pulses == []
  {
    pulses := [];
    if r.nrgThr > 0.0 {
      for i := 0 to r.nPulses
        invariant Written(pulses, d, positions, i)
      {
        var position: int := positions[i];
        if dSign[position] > 0.0 {
          pulses := pulses + [1 + position];
        } else {
          pulses := pulses + [-(1 + position)];
        }
      }
      r' := r;
    } else {
      r' := Rate(r.nrgThr, 0, 0.0, 0.0, 0.0);
    }
  }

  /** One more pulse: commit the last one, rescore, take the first best position, let both rates consider it. */
  method NextPulse(num: array<real>, den: array<real>, dAbs: seq<real>, dSign: seq<real>, phiFlip: array<real>,
                   positions: seq<nat>, percRespLen: nat, mainPrice: real, fecPrice: real, fecMax: nat,
                   mainIn: Rate, fecIn: Rate, ghost h: seq<real>)
    returns (pp: nat, main: Rate, fec: Rate)
    requires num != den && num != phiFlip && den != phiFlip && 0 < |dSign| <= MAX_SF_LEN && Signs(dSign)
    requires Flipped(phiFlip[..], h) && |h| == percRespLen && |dAbs| == |dSign|
    requires positions != [] && Inside(positions, |dSign|)
    requires Exact(num[..], den[..], h, dAbs, dSign, positions[..|positions| - 1])
    requires Settled(mainIn, h, dAbs, dSign, positions, mainPrice) && Matches(mainIn, h, dAbs, dSign, positions)
    requires Matches(fecIn, h, dAbs, dSign, positions)
    requires FecSettled(fecIn, h, dAbs, dSign, positions, mainPrice, fecPrice, fecMax)
    modifies num, den
    ensures Exact(num[..], den[..], h, dAbs, dSign, positions) && Best(h, dAbs, dSign, positions, pp)
    ensures Settled(main, h, dAbs, dSign, positions + [pp], mainPrice)
            && Matches(main, h, dAbs, dSign, positions + [pp])
    ensures Matches(fec, h, dAbs, dSign, positions + [pp])
    ensures FecSettled(fec, h, dAbs, dSign, positions + [pp], mainPrice, fecPrice, fecMax)
  {
    hide Mul, Energy, Phi, Flipped, Matches, Settled, FecSettled, Total, Recorded;
    var pulseNr := |positions|;
    assert positions[..pulseNr - 1] + [positions[pulseNr - 1]] == positions;
    CommitPulse(num, den, dAbs, dSign, phiFlip, positions[..pulseNr - 1], positions[pulseNr - 1], percRespLen, h);
    var q := Scores(num, den, h, dAbs, dSign, positions, |dSign|);
    pp := GetMaxi(q, |dSign|);
    BestOf(q[..], h, dAbs, dSign, positions, pp);
    assert num[..][pp] == num[pp] && den[..][pp] == den[pp];
    DenPositive(h, dSign, positions + [pp]);
    var better;
    main, better := Consider(mainIn, mainPrice, q[pp], num[pp], den[pp], pulseNr + 1);
    RecordedScore(main, h, dAbs, dSign, positions, pp, num[pp], den[pp]);
    SettledAt(mainIn, h, dAbs, dSign, positions, mainPrice);
    SettledPush(mainIn, main, h, dAbs, dSign, positions, pp, mainPrice);
    SameRecord(mainIn, main, h, dAbs, dSign, positions);
    MatchesPush(main, h, dAbs, dSign, positions, pp);
    fec := fecIn;
    if fecMax >= pulseNr {
      fec, better := Consider(fecIn, fecPrice, q[pp], num[pp], den[pp], pulseNr + 1);
      RecordedScore(fec, h, dAbs, dSign, positions, pp, num[pp], den[pp]);
      SameRecord(fecIn, fec, h, dAbs, dSign, positions);
    }
    FecPush(fecIn, fec, h, dAbs, dSign, positions, pp, mainPrice, fecPrice, fecMax);
    MatchesPush(fec, h, dAbs, dSign, positions, pp);
  }

  lemma SettledAt(r: Rate, h: seq<real>, abs: seq<real>, s: seq<real>, ps: seq<nat>, w: real)
    requires |abs| == |s| && Inside(ps, |s|) && Signs(s) && Settled(r, h, abs, s, ps, w)
    ensures r.nPulses <= |ps|
  {
  }

  lemma BestOf(q: seq<real>, h: seq<real>, abs: seq<real>, s: seq<real>, ps: seq<nat>, i: nat)
    requires |abs| == |s| <= |q| && Inside(ps, |s|) && Signs(s) && i < |s|
    requires forall j :: 0 <= j < |s| ==> q[j] == Score(h, abs, s, ps, j)
    requires forall j :: 0 <= j < |s| ==> q[j] <= q[i]
    requires forall j :: 0 <= j < i ==> q[j] < q[i]
    ensures Best(h, abs, s, ps, i)
  {
    hide Score;
  }

  lemma RecordedScore(r: Rate, h: seq<real>, abs: seq<real>, s: seq<real>, ps: seq<nat>, p: nat, num: real, den: real)
    requires |abs| == |s| && Inside(ps, |s|) && Signs(s) && p < |s| && den > 0.0
    requires num == Total(abs, ps) + abs[p] && den == Energy(h, s, ps + [p]) + EPSILON
    ensures r.wnrg == Score(h, abs, s, ps, p) && r.gain == num / den && r.fcbWnrg == den ==>
            Recorded(r, h, abs, s, ps, p)
  {
    hide Energy, Total, Mul;
  }

  /** Raising the threshold changes nothing that was recorded. */
  lemma SameRecord(r: Rate, r': Rate, h: seq<real>, abs: seq<real>, s: seq<real>, ps: seq<nat>)
    requires |abs| == |s| && Inside(ps, |s|) && Signs(s) && Matches(r, h, abs, s, ps)
    ensures r' == r.(nrgThr := r'.nrgThr) ==> Matches(r', h, abs, s, ps)
  {
    hide Energy, Total, Mul, Ratio;
  }

  /**
   * Every position after the first is the first best next one, the main rate keeps the count worth most
   * after its price per pulse, the other rate the count worth most to it, each rate's numbers are exactly
   * those of the pulses it keeps, and those carry the target's own signs.
   */
  method SmplFcbSearch(d: seq<real>, phiFlip: array<real>, phi0: real, percRespLen: nat,
                       mainPrice: real, fecPrice: real, mainMax: nat, fecMax: nat, mainIn: Rate, fecIn: Rate,
                       ghost h: seq<real>)
    returns (positions: seq<nat>, dAbs: seq<real>, dSign: seq<real>, main: Rate, fec: Rate,
             mainPulses: seq<int>, fecPulses: seq<int>)
    requires 0 < |d| <= MAX_SF_LEN && mainMax <= MAX_PULSES && |h| == percRespLen
    requires Flipped(phiFlip[..], h) && phi0 == Phi(h, 0, 0)
    requires mainIn.nrgThr == fecIn.nrgThr == 0.0 && mainIn.nPulses == fecIn.nPulses == 0
    ensures |dAbs| == |dSign| == |d| && Signs(dSign)
    ensures forall i :: 0 <= i < |d| ==> dAbs[i] >= 0.0 && Mul(dSign[i], dAbs[i]) == d[i]
    ensures |positions| == (if mainMax < 1 then 1 else mainMax) && Inside(positions, |d|)
    ensures Largest(dAbs, positions[0]) && Greedy(h, dAbs, dSign, positions)
    ensures main.nrgThr > 0.0 ==> BestCount(h, dAbs, dSign, positions, mainPrice, main.nPulses)
    ensures main.nrgThr <= 0.0 ==> main.nPulses == 0 && main.wnrg == main.gain == main.fcbWnrg == 0.0
    ensures Matches(main, h, dAbs, dSign, positions) && Written(mainPulses, d, positions, main.nPulses)
    ensures Matches(fec, h, dAbs, dSign, positions) && Written(fecPulses, d, positions, fec.nPulses)
    ensures Names(mainPulses, |d|) && Gathered(d, mainPulses) == Total(dAbs, positions[..main.nPulses])
    ensures Names(fecPulses, |d|) && Gathered(d, fecPulses) == Total(dAbs, positions[..fec.nPulses])
    ensures fec.nPulses == FecCount(h, dAbs, dSign, positions, mainPrice, fecPrice, fecMax)
  {
    hide Mul, Energy, Phi, Flipped, Matches, Settled, FecSettled, FecCount, Best, Exact, Recorded, BestCount, Written,
         Gathered, Names, Total;
    dAbs, dSign := CalcDAbsAndSign(d);
    var num, den := Start(dAbs, phi0, h, dSign);
    var p0 := GetMaxi(num, |d|);
    NothingSettled(mainIn, h, dAbs, dSign, mainPrice);
    main, fec := FirstPulse(num, den, p0, mainPrice, fecPrice, fecMax, mainIn, fecIn, h, dAbs, dSign);
    positions := [p0];
    GreedyPush(h, dAbs, dSign, [], p0);
    assert [] + [p0] == [p0] && positions[..0] == [];
    for pulseNr := 1 to if mainMax < 1 then 1 else mainMax
      invariant |positions| == pulseNr && positions[0] == p0 && Inside(positions, |d|)
      invariant Exact(num[..], den[..], h, dAbs, dSign, positions[..pulseNr - 1])
      invariant Greedy(h, dAbs, dSign, positions)
      invariant Settled(main, h, dAbs, dSign, positions, mainPrice) && Matches(main, h, dAbs, dSign, positions)
      invariant Matches(fec, h, dAbs, dSign, positions)
      invariant FecSettled(fec, h, dAbs, dSign, positions, mainPrice, fecPrice, fecMax)
    {
      var pp;
      pp, main, fec := NextPulse(num, den, dAbs, dSign, phiFlip, positions, percRespLen, mainPrice, fecPrice, fecMax,
                                 main, fec, h);
      BestInside(h, dAbs, dSign, positions, pp);
      GreedyPush(h, dAbs, dSign, positions, pp);
      positions := positions + [pp];
      assert positions[..pulseNr] == positions[..|positions| - 1];
    }
    SettledCount(main, h, dAbs, dSign, positions, mainPrice);
    MatchesFinish(main, h, dAbs, dSign, positions);
    MatchesFinish(fec, h, dAbs, dSign, positions);
    FecSettledCount(fec, h, dAbs, dSign, positions, mainPrice, fecPrice, fecMax);
    NothingWritten(d, positions);
    main, mainPulses := Finish(main, positions, dSign, d);
    fec, fecPulses := Finish(fec, positions, dSign, d);
    GathersAll(d, dAbs, dSign, positions, mainPulses, main.nPulses);
    GathersAll(d, dAbs, dSign, positions, fecPulses, fec.nPulses);
  }

  lemma NothingWritten(d: seq<real>, ps: seq<nat>)
    requires Inside(ps, |d|)
    ensures Written([], d, ps, 0)
  {
  }

  lemma BestInside(h: seq<real>, abs: seq<real>, s: seq<real>, ps: seq<nat>, i: nat)
    requires |abs| == |s| && Inside(ps, |s|) && Signs(s) && Best(h, abs, s, ps, i)
    ensures i < |s|
  {
  }

  lemma SettledCount(r: Rate, h: seq<real>, abs: seq<real>, s: seq<real>, ps: seq<nat>, w: real)
    requires |abs| == |s| && Inside(ps, |s|) && Signs(s) && Settled(r, h, abs, s, ps, w)
    ensures BestCount(h, abs, s, ps, w, r.nPulses)
  {
  }

  lemma FecSettledCount(r: Rate, h: seq<real>, abs: seq<real>, s: seq<real>, ps: seq<nat>, mainPrice: real,
                        fecPrice: real, fecMax: nat)
    requires |abs| == |s| && Inside(ps, |s|) && Signs(s) && ps != []
    requires FecSettled(r, h, abs, s, ps, mainPrice, fecPrice, fecMax)
    ensures FecCount(h, abs, s, ps, mainPrice, fecPrice, fecMax) == if r.nrgThr > 0.0 then r.nPulses else 0
  {
  }

  lemma MatchesFinish(r: Rate, h: seq<real>, abs: seq<real>, s: seq<real>, ps: seq<nat>)
    requires |abs| == |s| && Inside(ps, |s|) && Signs(s) && Matches(r, h, abs, s, ps)
    ensures r.nPulses <= |ps| && Matches(Rate(r.nrgThr, 0, 0.0, 0.0, 0.0), h, abs, s, ps)
  {
  }
}
