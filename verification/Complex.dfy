/** Exact complex numbers. */
module Complex {

  datatype Cpx = Cpx(re: real, im: real) {
    function Add(b: Cpx): Cpx {
      Cpx(re + b.re, im + b.im)
    }

    function Mul(b: Cpx): Cpx {
      Cpx(re * b.re - im * b.im, re * b.im + im * b.re)
    }
  }

  const ZERO := Cpx(0.0, 0.0)
  const ONE := Cpx(1.0, 0.0)

  lemma MulAssoc(a: Cpx, b: Cpx, c: Cpx)
    ensures a.Mul(b).Mul(c) == a.Mul(b.Mul(c))
  {
    Products(a.re, b.re, c.re, c.im);
    Products(a.im, b.im, c.re, c.im);
    Products(a.re, b.im, c.re, c.im);
    Products(a.im, b.re, c.re, c.im);
  }

  lemma Products(x: real, y: real, z: real, w: real)
    ensures x * y * z == x * (y * z) && x * y * w == x * (y * w)
  {
  }

  lemma MulAdd(a: Cpx, b: Cpx, c: Cpx)
    ensures a.Add(b).Mul(c) == a.Mul(c).Add(b.Mul(c))
  {
  }

  lemma MulCommutes(a: Cpx, b: Cpx)
    ensures a.Mul(b) == b.Mul(a)
  {
  }

  lemma MulOne(a: Cpx)
    ensures a.Mul(ONE) == a == ONE.Mul(a)
  {
  }

  function Prod(x: real, y: real): real {
    x * y
  }

  function Norm(a: Cpx): real {
    Prod(a.re, a.re) + Prod(a.im, a.im)
  }

  lemma NoZeroDivisors(a: Cpx, b: Cpx)
    requires a.Mul(b) == ZERO
    ensures a == ZERO || b == ZERO
  {
    hide Norm, Prod;
    NormOfProduct(a, b);
    assert Norm(ZERO) == 0.0 by {
      NormOfZero();
    }
    NormPositive(a);
    NormPositive(b);
    PositiveProduct(Norm(a), Norm(b));
  }

  lemma NormOfZero()
    ensures Norm(ZERO) == 0.0
  {
  }

  lemma NormPositive(a: Cpx)
    ensures a != ZERO ==> Norm(a) > 0.0
  {
    Positive(a.re);
    Positive(a.im);
  }

  lemma NormOfProduct(a: Cpx, b: Cpx)
    ensures Norm(a.Mul(b)) == Prod(Norm(a), Norm(b))
  {
    FourSquares(a.re, a.im, b.re, b.im);
  }

  lemma FourSquares(r: real, i: real, s: real, j: real)
    ensures (r * r + i * i) * (s * s + j * j)
         == (r * s - i * j) * (r * s - i * j) + (r * j + i * s) * (r * j + i * s)
  {
    var a, b, c, d := r * s, i * j, r * j, i * s;
    assert (a - b) * (a - b) == a * a - 2.0 * (a * b) + b * b;
    assert (c + d) * (c + d) == c * c + 2.0 * (c * d) + d * d;
    assert a * b == r * i * (s * j) && c * d == r * i * (s * j);
    assert a * a == r * r * (s * s) && b * b == i * i * (j * j) && c * c == r * r * (j * j) && d * d == i * i * (s * s);
    assert (r * r + i * i) * (s * s + j * j) == r * r * (s * s) + r * r * (j * j) + i * i * (s * s) + i * i * (j * j);
  }

  lemma PositiveProduct(p: real, q: real)
    ensures p > 0.0 && q > 0.0 ==> Prod(p, q) > 0.0
  {
  }

  lemma Positive(x: real)
    ensures Prod(x, x) >= 0.0 && (x != 0.0 ==> Prod(x, x) > 0.0)
  {
    PositiveProduct(x, x);
    PositiveProduct(-x, -x);
    assert Prod(-x, -x) == Prod(x, x);
  }
}
