/**
 * How many pulses the forward-error-correction rate of the codebook search keeps. Its maximum is compared
 * with the number of pulses before the new one, so the count can pass it by one; this says when.
 */
module FcbRates {
  import opened FcbSearch

  /** What the search can return as positions for these magnitudes and signs. */
  ghost predicate Searched(h: seq<real>, abs: seq<real>, s: seq<real>, ps: seq<nat>) {
    && |abs| == |s| <= MAX_SF_LEN && Inside(ps, |s|) && Signs(s) && ps != []
    && (forall i :: 0 <= i < |abs| ==> abs[i] >= 0.0)
    && Largest(abs, ps[0]) && Greedy(h, abs, s, ps)
  }

  lemma BestUnique(h: seq<real>, abs: seq<real>, s: seq<real>, ps: seq<nat>, i: nat, j: nat)
    requires |abs| == |s| && Inside(ps, |s|) && Signs(s) && Best(h, abs, s, ps, i) && Best(h, abs, s, ps, j)
    ensures i == j
  {
    hide Score;
    assert Score(h, abs, s, ps, i) <= Score(h, abs, s, ps, j) <= Score(h, abs, s, ps, i);
  }

  /** The positions are determined: the first best is one position. */
  lemma {:induction false} SearchedUnique(h: seq<real>, abs: seq<real>, s: seq<real>, ps: seq<nat>, qs: seq<nat>,
                                          m: nat)
    requires Searched(h, abs, s, ps) && Searched(h, abs, s, qs) && m <= |ps| == |qs|
    ensures ps[..m] == qs[..m]
  {
    hide Score;
    if m > 0 {
      SearchedUnique(h, abs, s, ps, qs, m - 1);
      var i, j := ps[m - 1], qs[m - 1];
      if m == 1 {
        assert abs[i] <= abs[j] <= abs[i];
      } else {
        BestUnique(h, abs, s, ps[..m - 1], i, j);
      }
      assert ps[..m] == ps[..m - 1] + [i] && qs[..m] == qs[..m - 1] + [j];
    }
  }

  // ---- A flat target with an undamped response ----

  const UNIT: seq<real> := [1.0]

  function Flat(c: real, n: nat): (r: seq<real>)
    ensures |r| == n && forall i :: 0 <= i < n ==> r[i] == c
  {
    seq(n, _ => c)
  }

  function Ramp(n: nat): (ps: seq<nat>)
    ensures |ps| == n && Inside(ps, n) && forall i :: 0 <= i < n ==> ps[i] == i
  {
    seq(n, i requires 0 <= i < n => i)
  }

  lemma RampPush(m: nat)
    ensures Ramp(m + 1) == Ramp(m) + [m] && forall k :: 0 <= k <= m ==> Ramp(m)[..k] == Ramp(k)
  {
  }

  lemma UnitPhi(i: nat, j: nat)
    ensures Phi(UNIT, i, j) == if i == j then 1.0 else 0.0
  {
    var d: nat := if i < j then j - i else i - j;
    assert AutoSum(UNIT, d, 1) == AutoSum(UNIT, d, 0) + Mul(1.0, At(UNIT, d));
  }

  lemma {:induction false} RampCross(n: nat, m: nat, i: nat)
    requires m <= n
    ensures Cross(UNIT, Flat(1.0, n), Ramp(m), i) == if i < m then 1.0 else 0.0
  {
    hide Phi;
    if m > 0 {
      RampPush(m - 1);
      RampCross(n, m - 1, i);
      UnitPhi(m - 1, i);
    }
  }

  lemma {:induction false} RampEnergy(n: nat, m: nat, i: nat)
    requires m <= n && i < n
    ensures Energy(UNIT, Flat(1.0, n), Ramp(m)) == m as real
    ensures Energy(UNIT, Flat(1.0, n), Ramp(m) + [i]) == (m + 1) as real + (if i < m then 2.0 else 0.0)
  {
    hide Phi, Cross, Energy;
    if m > 0 {
      RampPush(m - 1);
      RampEnergy(n, m - 1, m - 1);
    } else {
      NoEnergy(Flat(1.0, n));
    }
    EnergyPush(UNIT, Flat(1.0, n), Ramp(m), i);
    RampCross(n, m, i);
    UnitPhi(i, i);
  }

  lemma NoEnergy(s: seq<real>)
    ensures Energy(UNIT, s, Ramp(0)) == 0.0
  {
  }

  lemma OneMore(c: real, m: nat)
    ensures Mul(m as real, c) + c == Mul((m + 1) as real, c)
  {
    var x := m as real;
    assert (x + 1.0) * c == x * c + c;
  }

  lemma {:induction false} RampTotal(c: real, n: nat, m: nat)
    requires m <= n
    ensures Total(Flat(c, n), Ramp(m)) == Mul(m as real, c)
  {
    hide Mul;
    MulLaws(0.0, c, c);
    if m > 0 {
      RampPush(m - 1);
      RampTotal(c, n, m - 1);
      OneMore(c, m - 1);
    }
  }

  /** What k pulses explain when their energy is e. */
  function Explained(c: real, k: nat, e: real): real
    requires e > 0.0
  {
    Ratio(Mul(k as real, c), e + EPSILON)
  }

  lemma RampScore(c: real, n: nat, m: nat, i: nat)
    requires m <= n && i < n
    ensures Signs(Flat(1.0, n))
    ensures Score(UNIT, Flat(c, n), Flat(1.0, n), Ramp(m), i)
         == Explained(c, m + 1, (m + 1) as real + (if i < m then 2.0 else 0.0))
  {
    hide Ratio, Energy, Total, Mul;
    RampEnergy(n, m, i);
    RampTotal(c, n, m);
    OneMore(c, m);
    assert Flat(c, n)[i] == c && Inside(Ramp(m), n) && Inside(Ramp(m) + [i], n);
    assert Total(Flat(c, n), Ramp(m)) + Flat(c, n)[i] == Mul((m + 1) as real, c);
  }

  lemma MoreEnergyExplainsLess(x: real, y: real, z: real)
    requires x > 0.0 && 0.0 < y < z
    ensures Ratio(x, z) < Ratio(x, y)
  {
    PositiveProduct(x, x);
    LessOverMore(Mul(x, x), y, z);
  }

  lemma PositiveProduct(x: real, y: real)
    requires x > 0.0 && y > 0.0
    ensures Mul(x, y) > 0.0
  {
  }

  lemma LessOverMore(q: real, y: real, z: real)
    requires q > 0.0 && 0.0 < y < z
    ensures q / z < q / y
  {
    assert q / y - q / z == q * (z - y) / (y * z);
    PositiveProduct(q, z - y);
    PositiveProduct(y, z);
    PositiveQuotient(q * (z - y), y * z);
  }

  lemma PositiveQuotient(x: real, y: real)
    requires x > 0.0 && y > 0.0
    ensures x / y > 0.0
  {
  }

  lemma ExplainedLess(c: real, k: nat, e: real, f: real)
    requires c > 0.0 && k > 0 && 0.0 < e < f
    ensures Explained(c, k, f) < Explained(c, k, e)
  {
    hide Ratio, Mul;
    PositiveProduct(k as real, c);
    MoreEnergyExplainsLess(Mul(k as real, c), e + EPSILON, f + EPSILON);
  }

  /** A position used before would cost more energy. */
  lemma RampBest(c: real, n: nat, m: nat)
    requires c > 0.0 && m < n
    ensures Best(UNIT, Flat(c, n), Flat(1.0, n), Ramp(m), m)
  {
    hide Score, Explained;
    var e := (m + 1) as real;
    ExplainedLess(c, m + 1, e, e + 2.0);
    RampScore(c, n, m, m);
    var best := Score(UNIT, Flat(c, n), Flat(1.0, n), Ramp(m), m);
    forall j | 0 <= j < n
      ensures Score(UNIT, Flat(c, n), Flat(1.0, n), Ramp(m), j) <= best
      ensures j < m ==> Score(UNIT, Flat(c, n), Flat(1.0, n), Ramp(m), j) < best
    {
      RampScore(c, n, m, j);
    }
  }

  /** The search steps along the flat target. */
  lemma RampSearched(c: real, n: nat)
    requires c > 0.0 && 0 < n <= MAX_SF_LEN
    ensures Searched(UNIT, Flat(c, n), Flat(1.0, n), Ramp(n))
  {
    hide Best;
    RampPush(n);
    forall m | 0 < m < n
      ensures Best(UNIT, Flat(c, n), Flat(1.0, n), Ramp(n)[..m], Ramp(n)[m])
    {
      RampBest(c, n, m);
    }
    assert Largest(Flat(c, n), Ramp(n)[0]);
    assert Greedy(UNIT, Flat(c, n), Flat(1.0, n), Ramp(n));
  }

  /** Each pulse explains almost as much of the flat target as the one before. */
  lemma ExplainedBounds(c: real, k: nat)
    requires k >= 1
    ensures (k as real - EPSILON) * (c * c) <= Explained(c, k, k as real) <= k as real * (c * c)
  {
    var x, y, q := k as real, k as real + EPSILON, c * c;
    assert Mul(x * c, x * c) == x * x * q;
    assert q >= 0.0;
    Between((x - EPSILON) * q, x * x * q, x * q, y) by {
      assert (x - EPSILON) * q * y == (x * x - EPSILON * EPSILON) * q;
      assert x * q * y == x * x * q + x * q * EPSILON;
      assert x * q >= 0.0;
    }
  }

  lemma Between(lo: real, x: real, hi: real, y: real)
    requires y > 0.0 && lo * y <= x <= hi * y
    ensures lo <= x / y <= hi
  {
    assert x / y * y == x;
    Cancel(lo, x / y, y);
    Cancel(x / y, hi, y);
  }

  lemma Cancel(a: real, b: real, y: real)
    requires y > 0.0 && a * y <= b * y
    ensures a <= b
  {
  }

  lemma RampWorth(c: real, n: nat, w: real, k: nat)
    requires 1 <= k <= n
    ensures Signs(Flat(1.0, n))
    ensures FecWorth(UNIT, Flat(c, n), Flat(1.0, n), Ramp(n), w, k)
         == if k == 1 then 0.0 else Explained(c, k, k as real) - Price(w, k - 1)
  {
    hide Score, Price;
    RampPush(n);
    RampScore(c, n, k - 1, k - 1);
  }

  lemma Rises(x: real, q: real, w: real, before: real, after: real)
    requires x >= 1.0 && q > 0.0 && q > 2.0 * w
    requires before <= x * q && (x + 1.0 - EPSILON) * q <= after
    ensures after - before > w
  {
    assert (x + 1.0 - EPSILON) * q == x * q + (1.0 - EPSILON) * q;
  }

  lemma {:induction false} RampWorthRises(c: real, n: nat, w: real, j: nat, k: nat)
    requires 1 <= j < k <= n && c > 0.0 && c * c > 2.0 * w
    ensures Signs(Flat(1.0, n))
    ensures FecWorth(UNIT, Flat(c, n), Flat(1.0, n), Ramp(n), w, j)
            < FecWorth(UNIT, Flat(c, n), Flat(1.0, n), Ramp(n), w, k)
  {
    hide FecWorth, Explained;
    RampWorth(c, n, w, k - 1);
    RampWorth(c, n, w, k);
    ExplainedBounds(c, k - 1);
    ExplainedBounds(c, k);
    PositiveProduct(c, c);
    var before := if k == 2 then 0.0 else Explained(c, k - 1, (k - 1) as real);
    Rises((k - 1) as real, c * c, w, before, Explained(c, k, k as real));
    assert Price(w, k - 1) == Price(w, k - 2) + w && Price(w, 0) == 0.0;
    if j < k - 1 {
      RampWorthRises(c, n, w, j, k - 1);
    }
  }

  /** On a flat target loud enough for the price, this rate keeps one pulse more than its maximum. */
  lemma RampCount(c: real, n: nat, mainPrice: real, fecPrice: real, fecMax: nat)
    requires 1 <= fecMax < n && c > 0.0 && c * c > 2.0 * fecPrice
    ensures Signs(Flat(1.0, n))
    ensures FecCount(UNIT, Flat(c, n), Flat(1.0, n), Ramp(n), mainPrice, fecPrice, fecMax) == fecMax + 1
  {
    hide FecWorth, FecCount, Explained, Score;
    RampPush(n);
    RampScore(c, n, fecMax, fecMax);
    ExplainedBounds(c, fecMax + 1);
    PositiveProduct(c, c);
    PositiveProduct((fecMax + 1) as real - EPSILON, Mul(c, c));
    assert Score(UNIT, Flat(c, n), Flat(1.0, n), Ramp(n)[..fecMax], Ramp(n)[fecMax]) > 0.0;
    forall k | 1 <= k <= fecMax
      ensures FecWorth(UNIT, Flat(c, n), Flat(1.0, n), Ramp(n), fecPrice, fecMax + 1)
            > FecWorth(UNIT, Flat(c, n), Flat(1.0, n), Ramp(n), fecPrice, k)
    {
      RampWorthRises(c, n, fecPrice, k, fecMax + 1);
    }
    FecBound(UNIT, Flat(c, n), Flat(1.0, n), Ramp(n), mainPrice, fecPrice, fecMax);
  }

  /** Two equal samples and prices of a tenth: two pulses are kept where one is the maximum. */
  lemma TwoKeptOfOne(ps: seq<nat>)
    requires Searched(UNIT, [1.0, 1.0], [1.0, 1.0], ps) && |ps| == 2
    ensures ps == [0, 1] && FecCount(UNIT, [1.0, 1.0], [1.0, 1.0], ps, 0.1, 0.1, 1) == 2
  {
    hide FecCount, Searched, Greedy;
    assert Flat(1.0, 2) == [1.0, 1.0] && Ramp(2) == [0, 1];
    RampSearched(1.0, 2);
    SearchedUnique(UNIT, [1.0, 1.0], [1.0, 1.0], ps, Ramp(2), 2);
    assert ps[..2] == ps && Ramp(2)[..2] == Ramp(2);
    RampCount(1.0, 2, 0.1, 0.1, 1);
  }

  function Loud(w: real): (c: real)
    ensures c > 0.0 && c * c > 2.0 * w
  {
    if w <= 0.0 then 1.0 else w + 1.0
  }

  /** Whatever the prices: every target keeps within the maximum exactly when it is zero or not below the main one. */
  lemma FecWithin(mainMax: nat, fecMax: nat, mainPrice: real, fecPrice: real)
    requires mainMax <= MAX_PULSES
    ensures (forall h, abs, s, ps | Searched(h, abs, s, ps) && |ps| == (if mainMax < 1 then 1 else mainMax) ::
               FecCount(h, abs, s, ps, mainPrice, fecPrice, fecMax) <= fecMax)
            <==> fecMax == 0 || mainMax <= fecMax
  {
    hide FecCount, Greedy, Largest;
    var n := if mainMax < 1 then 1 else mainMax;
    forall h, abs, s, ps | Searched(h, abs, s, ps) && |ps| == n && (fecMax == 0 || mainMax <= fecMax)
      ensures FecCount(h, abs, s, ps, mainPrice, fecPrice, fecMax) <= fecMax
    {
      FecBound(h, abs, s, ps, mainPrice, fecPrice, fecMax);
    }
    if 1 <= fecMax < mainMax {
      var c := Loud(fecPrice);
      RampSearched(c, mainMax);
      RampCount(c, mainMax, mainPrice, fecPrice, fecMax);
    }
  }

  /** The search itself, on the flat target: the pulses it returns outnumber the maximum. */
  method FlatTarget(n: nat, mainPrice: real, fecPrice: real, fecMax: nat)
    returns (main: Rate, fec: Rate, fecPulses: seq<int>)
    requires 1 <= fecMax < n <= MAX_PULSES
    ensures fec.nPulses == |fecPulses| == fecMax + 1
  {
    hide Searched, Greedy, Largest, FecCount, Phi, Flipped, Matches, BestCount, Names, Gathered, Total;
    var phi := seq(MAX_SF_LEN, i => if i == 0 then 1.0 else 0.0);
    UnitAuto();
    var phiFlip := BuildPhiFlip(phi, 1, UNIT);
    var c := Loud(fecPrice);
    UnitPhi(0, 0);
    var d := Flat(c, n);
    var positions, dAbs, dSign, mainPulses;
    positions, dAbs, dSign, main, fec, mainPulses, fecPulses :=
      SmplFcbSearch(d, phiFlip, 1.0, 1, mainPrice, fecPrice, n, fecMax, NONE, NONE, UNIT);
    FlatParts(c, n, dAbs, dSign);
    FoundRamp(c, n, dAbs, dSign, positions);
    RampCount(c, n, mainPrice, fecPrice, fecMax);
  }

  const NONE: Rate := Rate(0.0, 0, 0.0, 0.0, 0.0)

  lemma UnitAuto()
    ensures Auto(UNIT, 0) == 1.0 && Auto(UNIT, 1) == 0.0
  {
    assert AutoSum(UNIT, 0, 1) == AutoSum(UNIT, 0, 0) + Mul(1.0, 1.0);
    assert AutoSum(UNIT, 1, 1) == AutoSum(UNIT, 1, 0) + Mul(1.0, 0.0);
  }

  lemma FlatParts(c: real, n: nat, dAbs: seq<real>, dSign: seq<real>)
    requires |dAbs| == |dSign| == n && Signs(dSign) && c > 0.0
    requires forall i :: 0 <= i < n ==> dAbs[i] >= 0.0 && Mul(dSign[i], dAbs[i]) == c
    ensures dAbs == Flat(c, n) && dSign == Flat(1.0, n)
  {
    forall i | 0 <= i < n
      ensures dAbs[i] == c && dSign[i] == 1.0
    {
      assert Mul(dSign[i], dAbs[i]) == c;
    }
  }

  lemma FoundRamp(c: real, n: nat, dAbs: seq<real>, dSign: seq<real>, ps: seq<nat>)
    requires dAbs == Flat(c, n) && dSign == Flat(1.0, n) && c > 0.0 && 0 < n <= MAX_SF_LEN
    requires |ps| == n && Inside(ps, n) && Largest(dAbs, ps[0]) && Signs(dSign) && Greedy(UNIT, dAbs, dSign, ps)
    ensures ps == Ramp(n)
  {
    hide Greedy;
    RampSearched(c, n);
    SearchedUnique(UNIT, dAbs, dSign, ps, Ramp(n), n);
    assert ps[..n] == ps && Ramp(n)[..n] == Ramp(n);
  }
}
