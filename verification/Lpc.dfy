/**
 * Linear prediction coefficients over the reals: the step-up recursion from reflection coefficients, and
 * the step-down recursion that the stability test runs. Coefficients stand without the leading one.
 */
module Lpc {
  import opened Complex
  import opened Polynomial

  const ORDER := 16
  const MAX_RC_STABLE := 0.9995

  function Square(x: real): (s: real)
    ensures s >= 0.0
  {
    x * x
  }

  function Mix(x: real, y: real, r: real): real {
    x + y * r
  }

  /** Inverse of Mix on a mirrored pair. */
  function Unmix(x: real, y: real, r: real): real
    requires Square(r) != 1.0
  {
    Scaled(x, y, r, 1.0 / (1.0 - Square(r)))
  }

  function Scaled(x: real, y: real, r: real, inv: real): real {
    (x - r * y) * inv
  }

  /** One more reflection coefficient. */
  function StepUp(a: seq<real>, rc: real): (b: seq<real>)
    ensures |b| == |a| + 1
  {
    seq(|a|, i requires 0 <= i < |a| => Mix(a[i], a[|a| - 1 - i], rc)) + [rc]
  }

  function RcToA(rc: seq<real>): (a: seq<real>)
    ensures |a| == |rc|
  {
    if rc == [] then [] else StepUp(RcToA(rc[..|rc| - 1]), rc[|rc| - 1])
  }

  /** One reflection coefficient fewer. */
  function StepDown(a: seq<real>): (b: seq<real>)
    requires a != [] && Square(a[|a| - 1]) != 1.0
    ensures |b| == |a| - 1
  {
    var m := |a| - 1;
    seq(m, k requires 0 <= k < m => Unmix(a[k], a[m - k - 1], a[m]))
  }

  predicate InBound(rc: real) {
    Square(rc) <= MAX_RC_STABLE
  }

  lemma BoundDivides(rc: real)
    ensures InBound(rc) ==> Square(rc) != 1.0
  {
  }

  /** What the test accepts: every last coefficient on the way down is in bound. */
  predicate Stable(a: seq<real>)
    decreases |a|
  {
    a == [] || (InBound(a[|a| - 1]) && Stable(StepDown(a)))
  }

  /** The reflection coefficients of an accepted filter. */
  function Reflections(a: seq<real>): (rc: seq<real>)
    requires Stable(a)
    ensures |rc| == |a| && forall i :: 0 <= i < |rc| ==> InBound(rc[i])
    decreases |a|
  {
    if a == [] then [] else Reflections(StepDown(a)) + [a[|a| - 1]]
  }

  lemma Undo(x: real, y: real, r: real)
    requires Square(r) != 1.0
    ensures Unmix(Mix(x, y, r), Mix(y, x, r), r) == x
  {
    assert (x + y * r) - r * (y + x * r) == x * (1.0 - r * r);
    Cancel(x, 1.0 - r * r);
  }

  lemma Redo(x: real, y: real, r: real)
    requires Square(r) != 1.0
    ensures Mix(Unmix(x, y, r), Unmix(y, x, r), r) == x
  {
    var d := 1.0 - r * r;
    assert Mix(Unmix(x, y, r), Unmix(y, x, r), r) == (x - r * y + (y - r * x) * r) * (1.0 / d);
    assert x - r * y + (y - r * x) * r == x * d;
    Cancel(x, d);
  }

  lemma Cancel(x: real, d: real)
    requires d != 0.0
    ensures x * d * (1.0 / d) == x
  {
    assert d * (1.0 / d) == 1.0;
  }

  /** Stepping down undoes stepping up. */
  lemma StepDownUp(a: seq<real>, rc: real)
    requires Square(rc) != 1.0
    ensures StepUp(a, rc)[|a|] == rc && StepDown(StepUp(a, rc)) == a
  {
    hide Mix, Unmix;
    var b, m := StepUp(a, rc), |a|;
    forall k | 0 <= k < m
      ensures StepDown(b)[k] == a[k]
    {
      Undo(a[k], a[m - 1 - k], rc);
    }
  }

  /** Stepping up undoes stepping down. */
  lemma StepUpDown(a: seq<real>)
    requires a != [] && Square(a[|a| - 1]) != 1.0
    ensures StepUp(StepDown(a), a[|a| - 1]) == a
  {
    hide Mix, Unmix;
    var b, m := StepDown(a), |a| - 1;
    forall i | 0 <= i < m
      ensures StepUp(b, a[m])[i] == a[i]
    {
      assert m - (m - 1 - i) - 1 == i;
      Redo(a[i], a[m - 1 - i], a[m]);
    }
  }

  lemma StepUpLast(a: seq<real>, rc: real)
    ensures StepUp(a, rc)[|a|] == rc
  {
  }

  /** The test accepts a filter built from reflection coefficients exactly when each is in bound. */
  lemma {:induction false} StableExactly(rc: seq<real>)
    ensures Stable(RcToA(rc)) <==> forall i :: 0 <= i < |rc| ==> InBound(rc[i])
  {
    hide StepUp, StepDown, Square, InBound;
    if rc != [] {
      var init, last := rc[..|rc| - 1], rc[|rc| - 1];
      StepUpLast(RcToA(init), last);
      if InBound(last) {
        BoundDivides(last);
        StepDownUp(RcToA(init), last);
        StableExactly(init);
        assert forall i :: 0 <= i < |init| ==> init[i] == rc[i];
      }
    }
  }

  /** Every accepted filter is the step-up of in-bound coefficients, and of no others. */
  lemma {:induction false} StableFilters(a: seq<real>)
    requires Stable(a)
    ensures RcToA(Reflections(a)) == a
    decreases |a|
  {
    hide Mix, Unmix;
    if a != [] {
      StepUpDown(a);
      StableFilters(StepDown(a));
      var rc := Reflections(a);
      assert rc[..|rc| - 1] == Reflections(StepDown(a));
    }
  }

  lemma {:induction false} ReflectionsUnique(rc: seq<real>)
    requires forall i :: 0 <= i < |rc| ==> InBound(rc[i])
    ensures Stable(RcToA(rc)) && Reflections(RcToA(rc)) == rc
  {
    hide StepUp, StepDown, Square, InBound;
    StableExactly(rc);
    if rc != [] {
      var init, last := rc[..|rc| - 1], rc[|rc| - 1];
      BoundDivides(last);
      StepDownUp(RcToA(init), last);
      ReflectionsUnique(init);
    }
  }

  // ---- What the recursion means ----

  /** The filter's polynomial: one, then the coefficients. */
  function Filter(a: seq<real>, z: Cpx): Cpx {
    Eval([1.0] + a, z)
  }

  /** The same coefficients in the other order. */
  function Mirror(a: seq<real>, z: Cpx): Cpx {
    Eval([0.0] + Reversed(a) + [1.0], z)
  }

  /** A step up adds the mirrored polynomial, rc times. */
  lemma StepUpFilter(a: seq<real>, rc: real, z: Cpx)
    ensures Filter(StepUp(a, rc), z) == Filter(a, z).Add(Times(rc, Mirror(a, z)))
  {
    var f, m := [1.0] + a + [0.0], [0.0] + Reversed(a) + [1.0];
    assert Mixed([1.0] + StepUp(a, rc), f, rc, m);
    EvalMixed([1.0] + StepUp(a, rc), f, rc, m, z);
    EvalPad([1.0] + a, z);
  }

  /** The mirrored polynomial mixes the other way round, one place on. */
  lemma StepUpMirror(a: seq<real>, rc: real, z: Cpx)
    ensures Mirror(StepUp(a, rc), z) == z.Mul(Mirror(a, z).Add(Times(rc, Filter(a, z))))
  {
    var f, m, b := [1.0] + a + [0.0], [0.0] + Reversed(a) + [1.0], StepUp(a, rc);
    var c := Reversed(b) + [1.0];
    assert Mixed(c, m, rc, f);
    EvalMixed(c, m, rc, f, z);
    EvalPad([1.0] + a, z);
    assert [0.0] + Reversed(b) + [1.0] == [0.0] + c;
    EvalShift(c, z);
  }

  lemma EmptyFilter(z: Cpx)
    ensures Filter([], z) == ONE && Mirror([], z) == z
  {
    assert [1.0][1..] == [] && [0.0] + Reversed([]) + [1.0] == [0.0] + [1.0];
    ZeroMul(z);
    EvalShift([1.0], z);
    MulOne(z);
    assert Real(1.0).Add(ZERO) == ONE;
  }

  /** The gain of the filter at x, one or minus one: a product over the reflection coefficients. */
  function Gain(rc: seq<real>, x: real): real {
    if rc == [] then 1.0 else Prod(Gain(rc[..|rc| - 1], x), 1.0 + Prod(Power(x, |rc|), rc[|rc| - 1]))
  }

  /** At one the coefficients add up to the product of 1 + rc[k], at minus one of 1 + (-1)^(k + 1) rc[k]. */
  lemma {:induction false} FilterGain(rc: seq<real>, x: real)
    requires x == 1.0 || x == -1.0
    ensures Filter(RcToA(rc), Real(x)) == Real(Gain(rc, x))
    ensures Mirror(RcToA(rc), Real(x)) == Real(Prod(Power(x, |rc| + 1), Gain(rc, x)))
  {
    hide Filter, Mirror, StepUp;
    if rc == [] {
      EmptyFilter(Real(x));
      assert Power(x, 0) == 1.0 && Power(x, 1) == x;
    } else {
      var init, r := rc[..|rc| - 1], rc[|rc| - 1];
      FilterGain(init, x);
      StepUpFilter(RcToA(init), r, Real(x));
      StepUpMirror(RcToA(init), r, Real(x));
      SignPower(x, |rc|);
      GainStep(Gain(init, x), x, Power(x, |rc|), r);
    }
  }

  lemma {:induction false} SignPower(x: real, n: nat)
    requires x == 1.0 || x == -1.0
    ensures Power(x, n) == 1.0 || Power(x, n) == -1.0
    ensures Power(x, n + 1) == Prod(Power(x, n), x)
  {
    if n > 0 {
      SignPower(x, n - 1);
    }
  }

  lemma SignedProduct(x: real, y: real)
    ensures x == 1.0 ==> Prod(x, y) == y
    ensures x == -1.0 ==> Prod(x, y) == -y
  {
  }

  lemma RealProduct(x: real, y: real)
    ensures Real(x).Mul(Real(y)) == Real(Prod(x, y)) && Times(x, Real(y)) == Real(Prod(x, y))
  {
  }

  lemma RealSum(x: real, y: real)
    ensures Real(x).Add(Real(y)) == Real(x + y)
  {
  }

  lemma OneAndMore(g: real, r: real)
    ensures Prod(g, 1.0 + r) == g + Prod(r, g) && Prod(g, 1.0 - r) == g - Prod(r, g)
    ensures Prod(r, -g) == -Prod(r, g)
  {
  }

  lemma GainStep(g: real, x: real, p: real, r: real)
    requires (x == 1.0 || x == -1.0) && (p == 1.0 || p == -1.0)
    ensures Real(g).Add(Times(r, Real(Prod(p, g)))) == Real(Prod(g, 1.0 + Prod(p, r)))
    ensures Real(x).Mul(Real(Prod(p, g)).Add(Times(r, Real(g))))
         == Real(Prod(Prod(p, x), Prod(g, 1.0 + Prod(p, r))))
  {
    hide *;
    OneAndMore(g, r);
    SignedProduct(p, g);
    SignedProduct(p, r);
    SignedProduct(p, x);
    RealProduct(r, Prod(p, g));
    RealProduct(r, g);
    RealSum(g, Prod(r, Prod(p, g)));
    RealSum(Prod(p, g), Prod(r, g));
    var y := Prod(p, g) + Prod(r, g);
    RealProduct(x, y);
    SignedProduct(x, y);
    SignedProduct(Prod(p, x), Prod(g, 1.0 + Prod(p, r)));
  }

  // ---- Accepted filters are stable ----

  lemma MixedNorms(e: Cpx, m: Cpx, r: real)
    ensures Norm(e.Add(Times(r, m))) - Norm(m.Add(Times(r, e)))
         == Prod(1.0 - Prod(r, r), Norm(e) - Norm(m))
  {
    hide *;
    NormOfMix(e, r, m);
    NormOfMix(m, r, e);
    NormParts(e);
    NormParts(m);
    MixedSquares(e.re, m.re, r);
    MixedSquares(e.im, m.im, r);
    Distribute(1.0 - Prod(r, r), Prod(e.re, e.re) - Prod(m.re, m.re), Prod(e.im, e.im) - Prod(m.im, m.im));
  }

  lemma NormParts(z: Cpx)
    ensures Norm(z) == Prod(z.re, z.re) + Prod(z.im, z.im)
  {
  }

  lemma NormOfMix(e: Cpx, r: real, m: Cpx)
    ensures Norm(e.Add(Times(r, m)))
         == Prod(e.re + r * m.re, e.re + r * m.re) + Prod(e.im + r * m.im, e.im + r * m.im)
  {
    NormParts(e.Add(Times(r, m)));
    hide Norm;
  }

  lemma Distribute(u: real, x: real, y: real)
    ensures Prod(u, x) + Prod(u, y) == Prod(u, x + y)
  {
  }

  lemma MixedSquares(e: real, m: real, r: real)
    ensures Prod(e + r * m, e + r * m) - Prod(m + r * e, m + r * e)
         == Prod(1.0 - Prod(r, r), Prod(e, e) - Prod(m, m))
  {
    var x, y := r * m, r * e;
    assert (e + x) * (e + x) == e * e + 2.0 * (e * x) + x * x;
    assert (m + y) * (m + y) == m * m + 2.0 * (m * y) + y * y;
    assert e * x == r * (e * m) && m * y == r * (e * m);
    assert x * x == r * r * (m * m) && y * y == r * r * (e * e);
    assert (1.0 - r * r) * (e * e - m * m) == e * e - m * m - r * r * (e * e) + r * r * (m * m);
  }

  lemma NormOfTimes(r: real, z: Cpx)
    ensures Norm(Times(r, z)) == Prod(Prod(r, r), Norm(z))
  {
    assert (r * z.re) * (r * z.re) == r * r * (z.re * z.re);
    assert (r * z.im) * (r * z.im) == r * r * (z.im * z.im);
  }

  lemma Shares(q: real, e: real, m: real)
    requires 0.0 <= q <= MAX_RC_STABLE && m <= e
    ensures Prod(1.0 - q, e - m) >= 0.0
    ensures e > 0.0 ==> Prod(q, m) < e
  {
    NonNegative(1.0 - q, e - m);
    NonNegative(q, e - m);
    assert q * (e - m) == q * e - q * m;
    if e > 0.0 {
      assert (1.0 - q) * e == e - q * e;
      PositiveProduct(1.0 - q, e);
    }
  }

  lemma NonNegative(x: real, y: real)
    requires x >= 0.0 && y >= 0.0
    ensures Prod(x, y) >= 0.0
  {
  }

  lemma NormShrinks(z: Cpx, w: Cpx)
    requires Norm(z) <= 1.0
    ensures Norm(z.Mul(w)) <= Norm(w)
  {
    hide Norm;
    NormOfProduct(z, w);
    NormAtLeast0(w);
    NonNegative(1.0 - Norm(z), Norm(w));
    Complement(Norm(z), Norm(w));
  }

  lemma Complement(x: real, y: real)
    ensures Prod(1.0 - x, y) == y - Prod(x, y)
  {
  }

  lemma NormAtLeast0(w: Cpx)
    ensures Norm(w) >= 0.0
  {
    Positive(w.re);
    Positive(w.im);
  }

  lemma Cancelled(e: Cpx, m: Cpx, r: real)
    requires e.Add(Times(r, m)) == ZERO
    ensures Norm(e) == Prod(Square(r), Norm(m))
  {
    hide Norm;
    assert e == Times(-r, m);
    NormOfTimes(-r, m);
    assert Prod(-r, -r) == Square(r);
  }

  lemma MixedPositive(e: Cpx, m: Cpx, r: real)
    requires InBound(r) && Norm(m) <= Norm(e) && Norm(e) > 0.0
    ensures Norm(e.Add(Times(r, m))) > 0.0
    ensures Norm(m.Add(Times(r, e))) <= Norm(e.Add(Times(r, m)))
  {
    hide Norm, Prod, Times;
    assert Prod(r, r) == Square(r) by {
      SquareProd(r);
    }
    Shares(Square(r), Norm(e), Norm(m));
    MixedNorms(e, m, r);
    var f := e.Add(Times(r, m));
    NormPositive(f);
    if f == ZERO {
      Cancelled(e, m, r);
    }
  }

  lemma SquareProd(r: real)
    ensures Prod(r, r) == Square(r)
  {
  }

  /** On and inside the unit circle the mirrored polynomial never outgrows the filter's, which never vanishes. */
  lemma {:induction false} InsideCircle(rc: seq<real>, z: Cpx)
    requires (forall i :: 0 <= i < |rc| ==> InBound(rc[i])) && Norm(z) <= 1.0
    ensures Norm(Mirror(RcToA(rc), z)) <= Norm(Filter(RcToA(rc), z)) && Norm(Filter(RcToA(rc), z)) > 0.0
  {
    hide Filter, Mirror, StepUp, InBound, Norm, Times;
    if rc == [] {
      EmptyFilter(z);
      NormOfOne();
    } else {
      var init, r := rc[..|rc| - 1], rc[|rc| - 1];
      assert forall i :: 0 <= i < |init| ==> init[i] == rc[i];
      InsideCircle(init, z);
      StepUpFilter(RcToA(init), r, z);
      StepUpMirror(RcToA(init), r, z);
      var e, m := Filter(RcToA(init), z), Mirror(RcToA(init), z);
      MixedPositive(e, m, r);
      NormShrinks(z, m.Add(Times(r, e)));
    }
  }

  lemma NormOfOne()
    ensures Norm(ONE) == 1.0
  {
  }

  /** An accepted filter has no zero on or inside the unit circle, so its inverse is a stable recursion. */
  lemma StableNoZeros(a: seq<real>, z: Cpx)
    requires Stable(a) && Norm(z) <= 1.0
    ensures Filter(a, z) != ZERO
  {
    StableFilters(a);
    InsideCircle(Reflections(a), z);
    NormOfZero();
  }

  lemma NoZeros(a: seq<real>)
    ensures Stable(a) ==> forall z :: Norm(z) <= 1.0 ==> Filter(a, z) != ZERO
  {
    hide Stable, Norm, Filter;
    forall z | Stable(a) && Norm(z) <= 1.0
      ensures Filter(a, z) != ZERO
    {
      StableNoZeros(a, z);
    }
  }

  /** The polynomial of the reflection coefficients, as a[0] = 1 and the rest hold it. */
  lemma WholeFilter(a: seq<real>, rc: seq<real>)
    requires |a| == |rc| + 1 && a[0] == 1.0 && a[1..] == RcToA(rc)
    ensures Eval(a, Real(1.0)) == Real(Gain(rc, 1.0)) && Eval(a, Real(-1.0)) == Real(Gain(rc, -1.0))
  {
    assert a == [1.0] + RcToA(rc);
    FilterGain(rc, 1.0);
    FilterGain(rc, -1.0);
  }

  // ---- Step-up in place ----

  /** One stage: the pair (n + 1, k - n) for every n, then the new coefficient. */
  method StepUpInPlace(a: array<real>, k: nat, rcTmp: real)
    requires k + 1 < a.Length
    modifies a
    ensures a[0] == old(a[0]) && a[1..k + 2] == StepUp(old(a[1..k + 1]), rcTmp)
    ensures forall j :: k + 2 <= j < a.Length ==> a[j] == old(a[j])
  {
    hide Mix;
    ghost var was := a[..];
    for n := 0 to (k + 1) / 2
      invariant a[0] == was[0] && forall j :: k < j < a.Length ==> a[j] == was[j]
      invariant forall j :: 1 <= j <= n || k - n < j <= k ==> a[j] == Mix(was[j], was[k + 1 - j], rcTmp)
      invariant forall j :: n < j <= k - n ==> a[j] == was[j]
    {
      var tmp1 := a[n + 1];
      var tmp2 := a[k - n];
      a[n + 1] := Mix(tmp1, tmp2, rcTmp);
      a[k - n] := Mix(tmp2, tmp1, rcTmp);
    }
    a[k + 1] := rcTmp;
    StepUpIs(was, a[..], k, rcTmp);
  }

  lemma StepUpIs(was: seq<real>, a: seq<real>, k: nat, rc: real)
    requires |a| == |was| && k + 1 < |a| && a[k + 1] == rc
    requires forall j :: 1 <= j <= k ==> a[j] == Mix(was[j], was[k + 1 - j], rc)
    ensures a[1..k + 2] == StepUp(was[1..k + 1], rc)
  {
    hide Mix;
    var old', new' := was[1..k + 1], a[1..k + 2];
    forall j | 0 <= j < k + 1
      ensures new'[j] == StepUp(old', rc)[j]
    {
      assert new'[j] == a[j + 1];
    }
  }

  method Rc2a(rc: seq<real>, order: nat, a: array<real>)
    requires order <= |rc| && order < a.Length
    modifies a
    ensures a[0] == 1.0 && a[1..order + 1] == RcToA(rc[..order])
    ensures Eval(a[..order + 1], Real(1.0)) == Real(Gain(rc[..order], 1.0))
    ensures Eval(a[..order + 1], Real(-1.0)) == Real(Gain(rc[..order], -1.0))
    ensures forall j :: order < j < a.Length ==> a[j] == old(a[j])
  {
    for i := 1 to order + 1
      invariant forall j :: order < j < a.Length ==> a[j] == old(a[j])
    {
      a[i] := 0.0;
    }
    a[0] := 1.0;
    for k := 0 to order
      invariant a[0] == 1.0 && a[1..k + 1] == RcToA(rc[..k])
      invariant forall j :: order < j < a.Length ==> a[j] == old(a[j])
    {
      assert rc[..k + 1][..k] == rc[..k];
      StepUpInPlace(a, k, rc[k]);
    }
    assert a[..order + 1][1..] == a[1..order + 1];
    WholeFilter(a[..order + 1], rc[..order]);
  }

  // ---- The stability test ----

  /** One step down from the first m + 1 entries of one buffer into the first m of the other. */
  method StepDownInto(from: array<real>, to: array<real>, m: nat)
    requires from != to && 1 <= m < from.Length && m <= to.Length && Square(from[m]) != 1.0
    modifies to
    ensures to[..m] == StepDown(from[..m + 1])
  {
    hide Scaled, Square, StepDown;
    var den := 1.0 - Square(from[m]);
    var inv := 1.0 / den;
    ghost var was := from[..m + 1];
    for k := 0 to m
      invariant forall j :: 0 <= j < k ==> to[j] == StepDown(was)[j]
    {
      StepDownAt(was, m, k, inv);
      to[k] := Scaled(from[k], from[m - k - 1], from[m], inv);
    }
  }

  lemma StepDownAt(a: seq<real>, m: nat, k: nat, inv: real)
    requires |a| == m + 1 && k < m && Square(a[m]) != 1.0 && inv == 1.0 / (1.0 - Square(a[m]))
    ensures StepDown(a)[k] == Scaled(a[k], a[m - k - 1], a[m], inv)
  {
    hide Scaled, Square;
  }

  method TooLarge(rc: real) returns (b: bool)
    ensures b <==> !InBound(rc)
  {
    b := rc * rc > MAX_RC_STABLE;
  }

  /**
   * The test walks down two buffers in turn, and stops at the first coefficient out of bound; a
   * coefficient in bound never makes the divisor zero.
   */
  method LpcIsStable(a: array<real>) returns (stable: bool)
    requires a.Length == ORDER + 1
    ensures stable == Stable(a[1..])
    ensures stable ==> forall z :: Norm(z) <= 1.0 ==> Filter(a[1..], z) != ZERO
  {
    hide Stable, StepDown, Square, InBound, Norm, Filter;
    NoZeros(a[1..]);
    var order := ORDER;
    BoundDivides(a[order]);
    var large := TooLarge(a[order]);
    if large {
      NotStable(a[1..]);
      return false;
    }
    var a0, a1 := new real[ORDER], new real[ORDER];
    for i := 0 to order
      invariant a0[..i] == a[1..i + 1]
    {
      a0[i] := a[i + 1];
    }
    var m := order - 1;
    assert a0[..m + 1] == a[1..];
    while true
      invariant m % 2 == 1 && 1 <= m < ORDER
      invariant InBound(a0[m]) && Stable(a[1..]) == Stable(a0[..m + 1])
      decreases m
    {
      BoundDivides(a0[m]);
      StepDownInto(a0, a1, m);
      LastOf(a0[..m + 1], a1[..m]);
      large := TooLarge(a1[m - 1]);
      if large {
        return false;
      }
      if m == 1 {
        return true;
      }
      m := m - 1;
      BoundDivides(a1[m]);
      StepDownInto(a1, a0, m);
      LastOf(a1[..m + 1], a0[..m]);
      large := TooLarge(a0[m - 1]);
      if large {
        return false;
      }
      m := m - 1;
    }
  }

  lemma NotStable(a: seq<real>)
    requires a != [] && !InBound(a[|a| - 1])
    ensures !Stable(a)
  {
  }

  /** One step of the walk. */
  lemma LastOf(a: seq<real>, b: seq<real>)
    requires |a| == |b| + 1 && b != [] && InBound(a[|a| - 1]) && b == StepDown(a)
    ensures Stable(a) == Stable(b) && (Stable(b) ==> InBound(b[|b| - 1]))
    ensures |b| == 1 ==> Stable(b) == InBound(b[0])
  {
    if |b| == 1 && InBound(b[0]) {
      assert StepDown(b) == [];
    }
  }

  // ---- Stabilisation ----

  /** Coefficient i times bwe^i. */
  function Expanded(a: seq<real>, bwe: real): (b: seq<real>)
    ensures |b| == |a|
  {
    seq(|a|, i requires 0 <= i < |a| => Prod(a[i], Power(bwe, i)))
  }

  /** Expanding by bwe moves every root z to z / bwe. */
  lemma ExpandedMoves(a: seq<real>, bwe: real, z: Cpx)
    ensures Eval(Expanded(a, bwe), z) == Eval(a, Times(bwe, z))
  {
    hide Eval;
    EvalWeighted(Expanded(a, bwe), a, bwe, 0, z);
    var w := Eval(a, Times(bwe, z));
    assert Prod(1.0, w.re) == w.re && Prod(1.0, w.im) == w.im;
  }

  lemma FirstPowers(x: real, y: real)
    ensures Power(x, 1) == x && Prod(y, Power(x, 0)) == y
  {
  }

  method BweExpand(a: array<real>, order: nat, bwe: real)
    requires a.Length == order + 1
    modifies a
    ensures a[..] == Expanded(old(a[..]), bwe)
  {
    hide Prod;
    FirstPowers(bwe, a[0]);
    var c := bwe;
    for i := 1 to order + 1
      invariant c == Power(bwe, i)
      invariant forall j :: 0 <= j < i ==> a[j] == Prod(old(a[j]), Power(bwe, j))
      invariant forall j :: i <= j <= order ==> a[j] == old(a[j])
    {
      a[i] := Prod(a[i], c);
      c := Prod(c, bwe);
    }
  }

  /** The total expansion after n rounds. */
  function Shrink(n: nat): real {
    if n == 0 then 1.0 else Prod(Shrink(n - 1), 1.0 - n as real * 0.001)
  }

  /** Each round expands a little more than the last, down to nothing after a thousand. */
  lemma {:induction false} ShrinkBounds(n: nat)
    requires n <= 1000
    ensures 0.0 <= Shrink(n) <= 1.0 - 0.001 * n as real
    ensures Shrink(n) >= 1.0 - 0.0005 * n as real * (n + 1) as real
  {
    if n > 0 {
      ShrinkBounds(n - 1);
      ShrinkStep(Shrink(n - 1), n as real, (n + 1) as real);
    }
  }

  lemma ShrinkStep(s: real, n: real, m: real)
    requires m == n + 1.0 && 1.0 <= n <= 1000.0 && 0.0 <= s <= 1.0
    requires s >= 1.0 - 0.0005 * (n - 1.0) * n
    ensures 0.0 <= Prod(s, 1.0 - n * 0.001) <= 1.0 - 0.001 * n
    ensures Prod(s, 1.0 - n * 0.001) >= 1.0 - 0.0005 * n * m
  {
    var t := 1.0 - n * 0.001;
    NonNegative(s, t);
    NonNegative(1.0 - s, t);
    assert Prod(1.0 - s, t) == t - Prod(s, t);
    NonNegative(1.0 - s, 0.001 * n);
    assert Prod(1.0 - s, 0.001 * n) == 0.001 * n - s * (0.001 * n);
    assert Prod(s, t) == s - s * (0.001 * n);
    assert 0.0005 * n * m == 0.0005 * (n - 1.0) * n + 0.001 * n;
  }

  lemma {:induction false} PowerProduct(x: real, y: real, n: nat)
    ensures Power(Prod(x, y), n) == Prod(Power(x, n), Power(y, n))
  {
    if n > 0 {
      PowerProduct(x, y, n - 1);
      var p, q := Power(x, n - 1), Power(y, n - 1);
      assert p * q * (x * y) == (p * x) * (q * y);
    }
  }

  lemma ProdAssoc(x: real, y: real, z: real)
    ensures Prod(Prod(x, y), z) == Prod(x, Prod(y, z))
  {
  }

  lemma ExpandTwice(a: seq<real>, x: real, y: real)
    ensures Expanded(Expanded(a, x), y) == Expanded(a, Prod(x, y))
  {
    forall i | 0 <= i < |a|
      ensures Prod(Prod(a[i], Power(x, i)), Power(y, i)) == Prod(a[i], Power(Prod(x, y), i))
    {
      PowerProduct(x, y, i);
      ProdAssoc(a[i], Power(x, i), Power(y, i));
    }
  }

  lemma {:induction false} ZeroStable(a: seq<real>)
    requires forall i :: 0 <= i < |a| ==> a[i] == 0.0
    ensures Stable(a)
    decreases |a|
  {
    if a != [] {
      ZeroStable(StepDown(a));
    }
  }

  lemma ExpandedByZero(a: seq<real>)
    requires a != []
    ensures Stable(Expanded(a, 0.0)[1..])
  {
    forall i | 1 <= i < |a|
      ensures Expanded(a, 0.0)[i] == 0.0
    {
      assert Power(0.0, i) == Prod(Power(0.0, i - 1), 0.0);
    }
    ZeroStable(Expanded(a, 0.0)[1..]);
  }

  lemma {:induction false} NoExpansion(a: seq<real>)
    ensures Expanded(a, 1.0) == a
  {
    forall i | 0 <= i < |a|
      ensures Expanded(a, 1.0)[i] == a[i]
    {
      PowerOne(i);
    }
  }

  lemma {:induction false} PowerOne(n: nat)
    ensures Power(1.0, n) == 1.0
  {
    if n > 0 {
      PowerOne(n - 1);
    }
  }

  /**
   * The first of the expansions 0, 1, ..., 1000 that is stable; the thousandth multiplies by zero, so
   * there is one. A stable input is left alone.
   */
  method LpcStabilize(a: array<real>) returns (ghost rounds: nat)
    requires a.Length == ORDER + 1
    modifies a
    ensures Stable(a[1..]) && rounds <= 1000
    ensures forall z :: Norm(z) <= 1.0 ==> Filter(a[1..], z) != ZERO
    ensures a[..] == Expanded(old(a[..]), Shrink(rounds))
    ensures forall n :: 0 <= n < rounds ==> !Stable(Expanded(old(a[..]), Shrink(n))[1..])
    ensures Stable(old(a[1..])) ==> a[..] == old(a[..])
  {
    hide Stable, Expanded, Prod;
    ghost var was := a[..];
    assert was[1..] == a[1..];
    NoExpansion(was);
    var stable := LpcIsStable(a);
    if stable {
      return 0;
    }
    var iter := 0;
    while true
      invariant 0 <= iter < 1000 && a[..] == Expanded(was, Shrink(iter))
      invariant forall n :: 0 <= n <= iter ==> !Stable(Expanded(was, Shrink(n))[1..])
      decreases 1000 - iter
    {
      iter := iter + 1;
      var bwe := 1.0 - iter as real * 0.001;
      ProdZero(Shrink(iter - 1));
      ExpandTwice(was, Shrink(iter - 1), bwe);
      BweExpand(a, ORDER, bwe);
      assert a[1..] == a[..][1..];
      stable := LpcIsStable(a);
      if stable {
        return iter;
      }
      if iter == 1000 {
        ExpandedByZero(was);
      }
    }
  }
}
