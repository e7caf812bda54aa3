/** Real polynomials, lowest coefficient first, evaluated at complex points. */
module Polynomial {
  import opened Complex

  function Real(x: real): Cpx {
    Cpx(x, 0.0)
  }

  function Times(r: real, z: Cpx): Cpx {
    Cpx(Prod(r, z.re), Prod(r, z.im))
  }

  function Eval(a: seq<real>, z: Cpx): Cpx {
    if a == [] then ZERO else Real(a[0]).Add(z.Mul(Eval(a[1..], z)))
  }

  function Reversed(a: seq<real>): (b: seq<real>)
    ensures |b| == |a| && forall i :: 0 <= i < |a| ==> b[i] == a[|a| - 1 - i]
  {
    seq(|a|, i requires 0 <= i < |a| => a[|a| - 1 - i])
  }

  /** c is a plus r times b, coefficient by coefficient. */
  predicate Mixed(c: seq<real>, a: seq<real>, r: real, b: seq<real>) {
    |a| == |b| == |c| && forall i :: 0 <= i < |c| ==> c[i] == a[i] + Prod(r, b[i])
  }

  lemma TimesMul(r: real, z: Cpx, w: Cpx)
    ensures z.Mul(Times(r, w)) == Times(r, z.Mul(w))
  {
    TwoTerms(r, z.re, w.re, z.im, w.im);
    TwoTerms(r, z.re, w.im, z.im, w.re);
  }

  lemma TwoTerms(r: real, a: real, b: real, c: real, d: real)
    ensures r * (a * b - c * d) == a * (r * b) - c * (r * d)
    ensures r * (a * b + c * d) == a * (r * b) + c * (r * d)
  {
    assert r * (a * b) == a * (r * b) && r * (c * d) == c * (r * d);
  }

  lemma TimesAdd(r: real, z: Cpx, w: Cpx)
    ensures Times(r, z.Add(w)) == Times(r, z).Add(Times(r, w))
  {
  }

  lemma MulOver(z: Cpx, a: Cpx, b: Cpx)
    ensures z.Mul(a.Add(b)) == z.Mul(a).Add(z.Mul(b))
  {
    MulCommutes(z, a.Add(b));
    MulCommutes(z, a);
    MulCommutes(z, b);
    MulAdd(a, b, z);
  }

  lemma {:induction false} EvalMixed(c: seq<real>, a: seq<real>, r: real, b: seq<real>, z: Cpx)
    requires Mixed(c, a, r, b)
    ensures Eval(c, z) == Eval(a, z).Add(Times(r, Eval(b, z)))
  {
    hide Prod, Cpx.Mul;
    ProdZero(r);
    if c != [] {
      EvalMixed(c[1..], a[1..], r, b[1..], z);
      var x, y := Eval(a[1..], z), Eval(b[1..], z);
      MulOver(z, x, Times(r, y));
      TimesMul(r, z, y);
      TimesAdd(r, Real(b[0]), z.Mul(y));
      FourSum(a[0], Prod(r, b[0]), z.Mul(x), Times(r, z.Mul(y)));
    }
  }

  lemma ProdZero(r: real)
    ensures Prod(r, 0.0) == 0.0
  {
  }

  lemma FourSum(a: real, b: real, x: Cpx, y: Cpx)
    ensures Real(a + b).Add(x.Add(y)) == Real(a).Add(x).Add(Real(b).Add(y))
  {
  }

  lemma {:induction false} EvalPad(a: seq<real>, z: Cpx)
    ensures Eval(a + [0.0], z) == Eval(a, z)
  {
    if a == [] {
      assert a + [0.0] == [0.0] && [0.0][1..] == [];
      ZeroMul(z);
    } else {
      assert (a + [0.0])[1..] == a[1..] + [0.0];
      EvalPad(a[1..], z);
    }
  }

  lemma ZeroMul(z: Cpx)
    ensures z.Mul(ZERO) == ZERO && Real(0.0) == ZERO && ZERO.Add(ZERO) == ZERO
  {
  }

  lemma EvalShift(a: seq<real>, z: Cpx)
    ensures Eval([0.0] + a, z) == z.Mul(Eval(a, z))
  {
    assert ([0.0] + a)[1..] == a;
  }

  function Power(x: real, n: nat): real {
    if n == 0 then 1.0 else Prod(Power(x, n - 1), x)
  }

  /** Coefficients weighted by the powers of g from the j-th on. */
  predicate Weighted(c: seq<real>, a: seq<real>, g: real, j: nat) {
    |c| == |a| && forall i :: 0 <= i < |a| ==> c[i] == Prod(a[i], Power(g, i + j))
  }

  /** Weighting coefficient i by g^i moves the argument: every root z goes to z / g. */
  lemma {:induction false} EvalWeighted(c: seq<real>, a: seq<real>, g: real, j: nat, z: Cpx)
    requires Weighted(c, a, g, j)
    ensures Eval(c, z) == Times(Power(g, j), Eval(a, Times(g, z)))
  {
    if c == [] {
      assert Prod(Power(g, j), 0.0) == 0.0;
    } else {
      forall i | 0 <= i < |a| - 1
        ensures c[1..][i] == Prod(a[1..][i], Power(g, i + (j + 1)))
      {
        assert c[1..][i] == c[i + 1] && i + 1 + j == i + (j + 1);
      }
      EvalWeighted(c[1..], a[1..], g, j + 1, z);
      var p, w := Power(g, j), Eval(a[1..], Times(g, z));
      TimesTwice(p, g, w);
      TimesMul(p, z, Times(g, w));
      TimesMul(g, z, w);
      MulTimes(g, z, w);
      TimesAdd(p, Real(a[0]), Times(g, z).Mul(w));
      assert Prod(a[0], p) == Prod(p, a[0]) && Prod(p, 0.0) == 0.0;
    }
  }

  lemma TimesTwice(p: real, g: real, w: Cpx)
    ensures Times(Prod(p, g), w) == Times(p, Times(g, w))
  {
    assert p * g * w.re == p * (g * w.re) && p * g * w.im == p * (g * w.im);
  }

  lemma MulTimes(g: real, z: Cpx, w: Cpx)
    ensures Times(g, z).Mul(w) == Times(g, z.Mul(w))
  {
    MulCommutes(Times(g, z), w);
    MulCommutes(z, w);
    TimesMul(g, w, z);
  }
}
