/**
 * The recursive mixed-radix transform over exact complex numbers. The twiddle w(a, n) stands for the
 * n-th root of unity to the power a, of either sign; the code's sine and cosine calls become this parameter.
 */
module Fft {
  import opened Complex

  type Roots = (nat, nat) -> Cpx

  /** The laws of e^(2 pi i a / n): additive in a, periodic in n, and the same in lowest terms. */
  ghost predicate Twiddles(w: Roots) {
    && (forall n: nat :: n > 0 ==> w(0, n) == ONE && w(n, n) == ONE)
    && (forall a: nat, b: nat, n: nat {:trigger w(Plus(a, b), n)} :: n > 0 ==> w(Plus(a, b), n) == w(a, n).Mul(w(b, n)))
    && (forall a: nat, n: nat, p: nat {:trigger w(Times(p, a), Times(p, n))} ::
          n > 0 && p > 0 ==> w(Times(p, a), Times(p, n)) == w(a, n))
  }

  function Plus(a: nat, b: nat): nat {
    a + b
  }

  function Times(a: nat, b: nat): nat {
    a * b
  }

  lemma RootWhole(w: Roots, n: nat)
    requires Twiddles(w) && n > 0
    ensures w(0, n) == ONE && w(n, n) == ONE
  {
  }

  lemma RootAdd(w: Roots, a: nat, b: nat, n: nat)
    requires Twiddles(w) && n > 0
    ensures w(a + b, n) == w(a, n).Mul(w(b, n))
  {
    assert w(Plus(a, b), n) == w(a, n).Mul(w(b, n));
  }

  lemma RootReduce(w: Roots, a: nat, n: nat, p: nat)
    requires Twiddles(w) && n > 0 && p > 0
    ensures w(Times(p, a), Times(p, n)) == w(a, n)
  {
  }

  lemma TimesNext(a: nat, b: nat)
    ensures Times(a + 1, b) == Times(a, b) + b && Times(b, a + 1) == Times(b, a) + b
    ensures Times(0, b) == 0 == Times(b, 0)
  {
  }

  lemma TimesCommutes(a: nat, b: nat)
    ensures Times(a, b) == Times(b, a)
  {
  }

  function Sum(f: nat -> Cpx, n: nat): Cpx {
    if n == 0 then ZERO else Sum(f, n - 1).Add(f(n - 1))
  }

  function Term(x: seq<Cpx>, stride: nat, n: nat, w: Roots, k: nat): nat -> Cpx {
    (j: nat) => if Times(j, stride) < |x| then x[Times(j, stride)].Mul(w(Times(j, k), n)) else ZERO
  }

  /** Bin k of the discrete Fourier transform of the n inputs at a stride. */
  function Dft(x: seq<Cpx>, stride: nat, n: nat, w: Roots, k: nat): Cpx {
    Sum(Term(x, stride, n, w, k), n)
  }

  predicate Reaches(x: seq<Cpx>, stride: nat, n: nat) {
    n > 0 && stride > 0 && Times(n - 1, stride) < |x|
  }

  // ---- Sums ----

  lemma {:induction false} SumSame(f: nat -> Cpx, g: nat -> Cpx, n: nat)
    requires forall i: nat :: i < n ==> f(i) == g(i)
    ensures Sum(f, n) == Sum(g, n)
  {
    if n > 0 {
      SumSame(f, g, n - 1);
    }
  }

  lemma {:induction false} SumAdd(f: nat -> Cpx, g: nat -> Cpx, h: nat -> Cpx, n: nat)
    requires forall i: nat :: i < n ==> h(i) == f(i).Add(g(i))
    ensures Sum(h, n) == Sum(f, n).Add(Sum(g, n))
  {
    if n > 0 {
      SumAdd(f, g, h, n - 1);
    }
  }

  lemma {:induction false} SumScale(f: nat -> Cpx, g: nat -> Cpx, c: Cpx, n: nat)
    requires forall i: nat :: i < n ==> g(i) == f(i).Mul(c)
    ensures Sum(g, n) == Sum(f, n).Mul(c)
  {
    if n > 0 {
      SumScale(f, g, c, n - 1);
      MulAdd(Sum(f, n - 1), f(n - 1), c);
    }
  }

  lemma {:induction false} SumSplit(f: nat -> Cpx, g: nat -> Cpx, a: nat, b: nat)
    requires forall i: nat :: i < b ==> g(i) == f(a + i)
    ensures Sum(f, a + b) == Sum(f, a).Add(Sum(g, b))
  {
    if b > 0 {
      SumSplit(f, g, a, b - 1);
    }
  }

  function Column(f: nat -> Cpx, p: nat, q: nat): nat -> Cpx {
    (j: nat) => f(q + Times(j, p))
  }

  function Columns(f: nat -> Cpx, p: nat, m: nat): nat -> Cpx {
    (q: nat) => Sum(Column(f, p, q), m)
  }

  /** Every index below p * m is q + j * p for one q below p and one j below m. */
  lemma {:induction false} SumByColumns(f: nat -> Cpx, p: nat, m: nat)
    ensures Sum(f, Times(m, p)) == Sum(Columns(f, p, m), p)
  {
    hide Times;
    TimesNext(0, p);
    if m == 0 {
      SumZero(Columns(f, p, 0), p);
    } else {
      TimesNext(m - 1, p);
      var row := Row(f, Times(m - 1, p));
      SumSplit(f, row, Times(m - 1, p), p);
      SumByColumns(f, p, m - 1);
      forall q: nat | q < p
        ensures Columns(f, p, m)(q) == Columns(f, p, m - 1)(q).Add(row(q))
      {
        assert Column(f, p, q)(m - 1) == row(q);
      }
      SumAdd(Columns(f, p, m - 1), row, Columns(f, p, m), p);
    }
  }

  function Row(f: nat -> Cpx, start: nat): nat -> Cpx {
    (q: nat) => f(start + q)
  }

  lemma {:induction false} SumZero(f: nat -> Cpx, n: nat)
    requires forall i: nat :: i < n ==> f(i) == ZERO
    ensures Sum(f, n) == ZERO
  {
    if n > 0 {
      SumZero(f, n - 1);
    }
  }

  // ---- Splitting the transform ----

  lemma {:induction false} WholeTurns(w: Roots, m: nat, t: nat)
    requires Twiddles(w) && m > 0
    ensures w(Times(m, t), m) == ONE
  {
    hide Twiddles, Times, Cpx.Mul, Cpx.Add;
    RootWhole(w, m);
    if t == 0 {
      TimesNext(0, m);
    } else {
      WholeTurns(w, m, t - 1);
      TimesNext(t - 1, m);
      RootAdd(w, Times(m, t - 1), m, m);
      MulOne(ONE);
    }
  }

  /** A bin of the shorter transform, seen from the longer one. */
  lemma ShortTwiddle(w: Roots, p: nat, m: nat, j: nat, k: nat, q: nat)
    requires Twiddles(w) && p > 0 && m > 0 && Times(p, m) > 0
    ensures w(Times(j, k % m), m).Mul(w(Times(k, q), Times(p, m))) == w(Times(q + Times(j, p), k), Times(p, m))
  {
    hide Twiddles, Times, Cpx.Mul, Cpx.Add;
    var a := w(Times(j, k % m), m);
    TurnSplit(j, k, m);
    WholeTurns(w, m, Times(j, k / m));
    RootAdd(w, Times(j, k % m), Times(m, Times(j, k / m)), m);
    MulOne(a);
    RootReduce(w, Times(j, k), m, p);
    IndexSplit(q, j, p, k);
    RootAdd(w, Times(p, Times(j, k)), Times(k, q), Times(p, m));
  }

  lemma TurnSplit(j: nat, k: nat, m: nat)
    requires m > 0
    ensures Times(j, k) == Times(j, k % m) + Times(m, Times(j, k / m))
  {
    assert k == m * (k / m) + k % m;
    assert j * (m * (k / m)) == m * (j * (k / m));
  }

  lemma IndexSplit(q: nat, j: nat, p: nat, k: nat)
    ensures Times(q + Times(j, p), k) == Times(p, Times(j, k)) + Times(k, q)
  {
    assert (q + j * p) * k == q * k + j * p * k;
    assert j * p * k == p * (j * k);
  }

  lemma StrideSplit(q: nat, j: nat, p: nat, stride: nat)
    ensures Times(q, stride) + Times(j, Times(stride, p)) == Times(q + Times(j, p), stride)
  {
    assert (q + j * p) * stride == q * stride + j * p * stride;
    assert j * p * stride == j * (stride * p);
  }

  function Combined(x: seq<Cpx>, stride: nat, p: nat, m: nat, w: Roots, k: nat): nat -> Cpx
    requires m > 0
  {
    (q: nat) => if Times(q, stride) <= |x|
         then Dft(x[Times(q, stride)..], Times(stride, p), m, w, k % m).Mul(w(Times(k, q), Times(p, m)))
         else ZERO
  }

  lemma MulOrder(a: nat, b: nat, c: nat)
    requires a <= b
    ensures Times(a, c) <= Times(b, c)
  {
  }

  lemma LastIndex(q: nat, j: nat, p: nat, m: nat)
    requires q < p && j < m
    ensures q + Times(j, p) <= Times(p, m) - 1
  {
    MulOrder(j + 1, m, p);
    assert Times(j + 1, p) == Times(j, p) + p && Times(m, p) == Times(p, m);
  }

  /** One output of the combination step is one bin of the whole transform. */
  lemma CombineBin(x: seq<Cpx>, stride: nat, p: nat, m: nat, w: Roots, k: nat)
    requires Twiddles(w) && p > 0 && m > 0 && Reaches(x, stride, Times(p, m))
    ensures Sum(Combined(x, stride, p, m, w, k), p) == Dft(x, stride, Times(p, m), w, k)
  {
    hide Twiddles, Times, Term, Combined, Columns, Cpx.Mul, Cpx.Add;
    var f := Term(x, stride, Times(p, m), w, k);
    forall q: nat | q < p
      ensures Combined(x, stride, p, m, w, k)(q) == Columns(f, p, m)(q)
    {
      CombineColumn(x, stride, p, m, w, k, q);
    }
    SumSame(Combined(x, stride, p, m, w, k), Columns(f, p, m), p);
    SumByColumns(f, p, m);
    TimesCommutes(m, p);
  }

  lemma CombineTerm(x: seq<Cpx>, stride: nat, p: nat, m: nat, w: Roots, k: nat, q: nat, j: nat)
    requires Twiddles(w) && p > 0 && m > 0 && Reaches(x, stride, Times(p, m)) && q < p && j < m
    requires Times(q, stride) <= |x|
    ensures Term(x, stride, Times(p, m), w, k)(q + Times(j, p))
         == Term(x[Times(q, stride)..], Times(stride, p), m, w, k % m)(j).Mul(w(Times(k, q), Times(p, m)))
  {
    hide Twiddles, Times, Cpx.Mul, Cpx.Add;
    LastIndex(q, j, p, m);
    MulOrder(q + Times(j, p), Times(p, m) - 1, stride);
    StrideSplit(q, j, p, stride);
    ShortTwiddle(w, p, m, j, k, q);
    MulAssoc(x[Times(q + Times(j, p), stride)], w(Times(j, k % m), m), w(Times(k, q), Times(p, m)));
  }

  lemma CombineColumn(x: seq<Cpx>, stride: nat, p: nat, m: nat, w: Roots, k: nat, q: nat)
    requires Twiddles(w) && p > 0 && m > 0 && Reaches(x, stride, Times(p, m)) && q < p
    ensures Combined(x, stride, p, m, w, k)(q) == Columns(Term(x, stride, Times(p, m), w, k), p, m)(q)
  {
    hide Twiddles, Times, Sum, Cpx.Mul, Cpx.Add;
    TimesNext(0, p);
    var n := Times(p, m);
    LastIndex(q, 0, p, m);
    MulOrder(q, n - 1, stride);
    var y, s, tw := x[Times(q, stride)..], Times(stride, p), w(Times(k, q), n);
    var short, column := Term(y, s, m, w, k % m), Column(Term(x, stride, n, w, k), p, q);
    forall j: nat | j < m
      ensures column(j) == short(j).Mul(tw)
    {
      CombineTerm(x, stride, p, m, w, k, q, j);
    }
    SumScale(short, column, tw, m);
  }

  // ---- The code ----

  /** The least divisor above one. */
  method SmallestFactor(n: nat) returns (p: nat)
    requires n >= 2
    ensures 2 <= p <= n && n % p == 0
    ensures forall d: nat :: 2 <= d < p ==> n % d != 0
  {
    if n % 2 == 0 {
      return 2;
    }
    p := 3;
    while p * p <= n
      invariant p % 2 == 1 && 3 <= p <= n
      invariant forall d: nat :: 2 <= d < p ==> n % d != 0
      decreases n - p
    {
      if n % p == 0 {
        return p;
      }
      OddSkips(n, p + 1);
      SquareBound(p, n);
      p := p + 2;
    }
    forall d: nat | 2 <= d < n
      ensures n % d != 0
    {
      if d >= p && n % d == 0 {
        Cofactor(n, d, p);
        assert false;
      }
    }
    p := n;
  }

  lemma OddSkips(n: nat, d: nat)
    requires n % 2 == 1 && d % 2 == 0 && d > 0
    ensures n % d != 0
  {
    var e, h := n / d, d / 2;
    assert n == d * e + n % d && d == 2 * h;
    assert d * e == 2 * (h * e);
  }

  lemma SquareBound(p: nat, n: nat)
    requires p >= 3 && p * p <= n
    ensures p + 2 <= n
  {
    assert p * p >= 3 * p;
  }

  /** A divisor at or past the square root has a cofactor below it. */
  lemma Cofactor(n: nat, d: nat, p: nat)
    requires 0 < p <= d < n && n % d == 0 && p * p > n
    ensures 2 <= n / d < p && n % (n / d) == 0
  {
    var e := n / d;
    assert n == d * e;
    if e >= p {
      ProductOrder(p, p, d, e);
    }
    ModZero(d, e);
  }

  lemma ProductOrder(a: nat, b: nat, c: nat, d: nat)
    requires a <= c && b <= d
    ensures a * b <= c * d
  {
    assert a * b <= c * b && c * b <= c * d;
  }

  lemma ModZero(d: nat, e: nat)
    ensures e > 0 ==> d * e % e == 0
  {
    if e > 0 {
      Euclid(d * e, d, e);
    }
  }

  lemma Euclid(x: int, q: int, e: nat)
    requires e > 0 && x == q * e
    ensures x % e == 0
  {
    var d, r := q - x / e, x % e;
    assert d * e == r;
    Between(d, e);
  }

  lemma Between(d: int, e: nat)
    ensures 0 <= d * e < e ==> d * e == 0
  {
    if d >= 1 {
      Grows(d, e);
    } else {
      Grows(-d, e);
    }
  }

  lemma Grows(d: int, e: nat)
    ensures d >= 1 ==> d * e >= e
    ensures d >= 0 ==> -d * e <= 0
  {
  }

  method DirectBin(x: seq<Cpx>, stride: nat, n: nat, w: Roots, k: nat) returns (acc: Cpx)
    requires Reaches(x, stride, n)
    ensures acc == Dft(x, stride, n, w, k)
  {
    acc := ZERO;
    for j := 0 to n
      invariant acc == Sum(Term(x, stride, n, w, k), j)
    {
      MulOrder(j, n - 1, stride);
      acc := acc.Add(x[j * stride].Mul(w(k * j, n)));
      assert Times(j, k) == k * j;
    }
  }

  ghost predicate Holds(out: seq<Cpx>, x: seq<Cpx>, stride: nat, n: nat, w: Roots, count: nat)
    requires |out| == n && count <= n
  {
    forall k: nat :: k < count ==> out[k] == Dft(x, stride, n, w, k)
  }

  /** Blocks of sub that hold the transforms of the first `count` interleaved parts. */
  ghost predicate Parts(sub: seq<Cpx>, x: seq<Cpx>, stride: nat, p: nat, m: nat, w: Roots, count: nat) {
    forall q: nat, i: nat :: q < count && i < m ==> PartBin(sub, x, stride, p, m, w, q, i)
  }

  ghost predicate PartBin(sub: seq<Cpx>, x: seq<Cpx>, stride: nat, p: nat, m: nat, w: Roots, q: nat, i: nat) {
    Times(q, m) + i < |sub| && Times(q, stride) <= |x|
    && sub[Times(q, m) + i] == Dft(x[Times(q, stride)..], Times(stride, p), m, w, i)
  }

  method CombineOne(sub: array<Cpx>, x: seq<Cpx>, stride: nat, p: nat, m: nat, w: Roots, k: nat) returns (acc: Cpx)
    requires Twiddles(w) && p > 0 && m > 0 && Reaches(x, stride, Times(p, m)) && sub.Length == Times(p, m)
    requires Parts(sub[..], x, stride, p, m, w, p)
    ensures acc == Dft(x, stride, Times(p, m), w, k)
  {
    var kmod := k % m;
    acc := ZERO;
    for q := 0 to p
      invariant acc == Sum(Combined(x, stride, p, m, w, k), q)
    {
      PartAt(sub[..], x, stride, p, m, w, q, kmod);
      TimesCommutes(k, q);
      assert Times(k, q) == k * q;
      acc := acc.Add(sub[q * m + kmod].Mul(w(k * q, Times(p, m))));
    }
    CombineBin(x, stride, p, m, w, k);
  }

  lemma PartAt(sub: seq<Cpx>, x: seq<Cpx>, stride: nat, p: nat, m: nat, w: Roots, q: nat, i: nat)
    requires Parts(sub, x, stride, p, m, w, p) && q < p && i < m
    ensures Times(q, m) == q * m && q * m + i < |sub| && Times(q, stride) <= |x|
    ensures sub[q * m + i] == Dft(x[Times(q, stride)..], Times(stride, p), m, w, i)
  {
    assert PartBin(sub, x, stride, p, m, w, q, i);
  }

  /** The part of the input one recursive call sees reaches its last element. */
  lemma PartReaches(x: seq<Cpx>, stride: nat, p: nat, m: nat, q: nat)
    requires q < p && m > 0 && Reaches(x, stride, Times(p, m))
    ensures Times(q, stride) <= |x| && Reaches(x[Times(q, stride)..], Times(stride, p), m)
    ensures Times(q, m) + m <= Times(p, m)
  {
    LastIndex(q, m - 1, p, m);
    MulOrder(q + Times(m - 1, p), Times(p, m) - 1, stride);
    StrideSplit(q, m - 1, p, stride);
    MulOrder(q + 1, p, m);
    assert Times(q + 1, m) == Times(q, m) + m;
    assert stride * p >= 1 by {
      MulOrder(1, stride, p);
    }
  }

  lemma PartKept(before: seq<Cpx>, after: seq<Cpx>, x: seq<Cpx>, stride: nat, p: nat, m: nat, w: Roots, count: nat)
    requires Parts(before, x, stride, p, m, w, count) && count < p && m > 0 && |before| == |after| == Times(p, m)
    requires Reaches(x, stride, Times(p, m)) && Times(count, m) + m <= |after|
    requires forall i :: 0 <= i < Times(count, m) ==> after[i] == before[i]
    requires Times(count, stride) <= |x|
      && Holds(after[Times(count, m)..Times(count, m) + m], x[Times(count, stride)..], Times(stride, p), m, w, m)
    ensures Parts(after, x, stride, p, m, w, count + 1)
  {
    forall q: nat, i: nat | q < count + 1 && i < m
      ensures PartBin(after, x, stride, p, m, w, q, i)
    {
      if q < count {
        assert PartBin(before, x, stride, p, m, w, q, i);
        MulOrder(q + 1, count, m);
        assert Times(q + 1, m) == Times(q, m) + m;
      } else {
        var part := after[Times(count, m)..Times(count, m) + m];
        assert part[i] == after[Times(q, m) + i];
      }
    }
  }

  /** Fills out[base..base + n] with the transform, and nothing else. */
  method FftRec(x: seq<Cpx>, stride: nat, n: nat, w: Roots, out: array<Cpx>, base: nat)
    requires Twiddles(w) && Reaches(x, stride, n) && base + n <= out.Length
    modifies out
    ensures Holds(out[base..base + n], x, stride, n, w, n)
    ensures forall i :: 0 <= i < out.Length && !(base <= i < base + n) ==> out[i] == old(out[i])
    decreases n, 1
  {
    hide Twiddles, Dft, Cpx.Mul, Cpx.Add;
    if n == 1 {
      out[base] := x[0];
      SingleBin(x, stride, w);
      return;
    }
    var p := SmallestFactor(n);
    if p == n {
      for k := 0 to n
        invariant forall j: nat :: j < k ==> out[base + j] == Dft(x, stride, n, w, j)
        invariant forall i :: 0 <= i < out.Length && !(base <= i < base + n) ==> out[i] == old(out[i])
      {
        var bin := DirectBin(x, stride, n, w, k);
        out[base + k] := bin;
      }
      return;
    }
    var m := n / p;
    FactorSplit(n, p);
    var sub := new Cpx[n];
    FillParts(x, stride, p, m, w, sub);
    for k := 0 to n
      invariant forall j: nat :: j < k ==> out[base + j] == Dft(x, stride, n, w, j)
      invariant forall i :: 0 <= i < out.Length && !(base <= i < base + n) ==> out[i] == old(out[i])
      invariant Parts(sub[..], x, stride, p, m, w, p)
    {
      var bin := CombineOne(sub, x, stride, p, m, w, k);
      out[base + k] := bin;
    }
  }

  lemma FactorSplit(n: nat, p: nat)
    requires 2 <= p < n && n % p == 0
    ensures Times(p, n / p) == n && 1 <= n / p < n
  {
    var m := n / p;
    assert n == p * m;
    Grows(m, p);
    if m >= n {
      ProductOrder(2, n, p, m);
    }
  }

  /** The recursive calls: one transform of every p-th input for each offset. */
  method FillParts(x: seq<Cpx>, stride: nat, p: nat, m: nat, w: Roots, sub: array<Cpx>)
    requires Twiddles(w) && p >= 2 && m > 0 && Reaches(x, stride, Times(p, m)) && sub.Length == Times(p, m)
    modifies sub
    ensures Parts(sub[..], x, stride, p, m, w, p)
    decreases Times(p, m), 0
  {
    hide Twiddles, Dft, Parts, Holds, Cpx.Mul, Cpx.Add;
    NoParts(sub[..], x, stride, p, m, w);
    MulOrder(2, p, m);
    for q := 0 to p
      invariant Parts(sub[..], x, stride, p, m, w, q)
    {
      PartReaches(x, stride, p, m, q);
      ghost var before := sub[..];
      FftRec(x[q * stride..], stride * p, m, w, sub, q * m);
      assert Times(q, m) == q * m && Times(stride, p) == stride * p && Times(q, stride) == q * stride;
      PartKept(before, sub[..], x, stride, p, m, w, q);
    }
  }

  lemma NoParts(sub: seq<Cpx>, x: seq<Cpx>, stride: nat, p: nat, m: nat, w: Roots)
    ensures Parts(sub, x, stride, p, m, w, 0)
  {
  }

  lemma SingleBin(x: seq<Cpx>, stride: nat, w: Roots)
    requires Twiddles(w) && Reaches(x, stride, 1)
    ensures Dft(x, stride, 1, w, 0) == x[0]
  {
    var f := Term(x, stride, 1, w, 0);
    assert Times(0, stride) == 0 && Times(0, 0) == 0 && f(0) == x[0].Mul(ONE) == x[0];
    assert Sum(f, 1) == Sum(f, 0).Add(f(0));
  }

  method Cfft(input: seq<Cpx>, out: array<Cpx>, w: Roots)
    requires Twiddles(w) && 0 < |input| <= out.Length
    modifies out
    ensures forall k: nat :: k < |input| ==> out[k] == Dft(input, 1, |input|, w, k)
  {
    hide Twiddles, Dft, Cpx.Mul, Cpx.Add;
    assert Times(|input| - 1, 1) == |input| - 1;
    FftRec(input, 1, |input|, w, out, 0);
  }

  // ---- The inverse ----

  /** v turns the other way. */
  ghost predicate Opposite(w: Roots, v: Roots) {
    forall a: nat, n: nat :: n > 0 ==> w(a, n).Mul(v(a, n)) == ONE
  }

  /** No smaller power of the n-th root is one. */
  ghost predicate Primitive(w: Roots) {
    forall a: nat, n: nat :: 0 < a < n ==> w(a, n) != ONE
  }

  /** A geometric sum times its ratio is the same sum one place on. */
  lemma {:induction false} Telescopes(g: nat -> Cpx, r: Cpx, m: nat)
    requires forall k: nat :: k < m ==> g(k + 1) == g(k).Mul(r)
    ensures Sum(g, m).Mul(r).Add(g(0)) == Sum(g, m).Add(g(m))
  {
    if m == 0 {
      assert ZERO.Mul(r) == ZERO;
    } else {
      Telescopes(g, r, m - 1);
      MulAdd(Sum(g, m - 1), g(m - 1), r);
      var x, y, z := Sum(g, m - 1).Mul(r), g(m - 1), g(m);
      assert x.Add(z).Add(g(0)) == x.Add(g(0)).Add(z);
    }
  }

  /** Input j's share of output i: all terms are one when j is i, and cancel otherwise. */
  function Kernel(w: Roots, v: Roots, n: nat, j: nat, i: nat): nat -> Cpx {
    (k: nat) => w(Times(j, k), n).Mul(v(Times(k, i), n))
  }

  lemma KernelStep(w: Roots, v: Roots, n: nat, j: nat, i: nat, k: nat)
    requires Twiddles(w) && Twiddles(v) && n > 0
    ensures Kernel(w, v, n, j, i)(k + 1) == Kernel(w, v, n, j, i)(k).Mul(w(j, n).Mul(v(i, n)))
  {
    hide Twiddles, Times, Cpx.Mul;
    TimesNext(k, j);
    TimesNext(k, i);
    RootAdd(w, Times(j, k), j, n);
    RootAdd(v, Times(k, i), i, n);
    FourProducts(w(Times(j, k), n), w(j, n), v(Times(k, i), n), v(i, n));
  }

  lemma FourProducts(a: Cpx, b: Cpx, c: Cpx, d: Cpx)
    ensures a.Mul(b).Mul(c.Mul(d)) == a.Mul(c).Mul(b.Mul(d))
  {
    hide Cpx.Mul;
    MulAssoc(a, b, c.Mul(d));
    MulAssoc(b, c, d);
    MulCommutes(b, c);
    MulAssoc(c, b, d);
    MulAssoc(a, c, b.Mul(d));
  }

  lemma KernelEnds(w: Roots, v: Roots, n: nat, j: nat, i: nat)
    requires Twiddles(w) && Twiddles(v) && n > 0
    ensures Kernel(w, v, n, j, i)(0) == ONE && Kernel(w, v, n, j, i)(n) == ONE
  {
    hide Twiddles, Times, Cpx.Mul;
    TimesNext(0, j);
    TimesNext(0, i);
    RootWhole(w, n);
    RootWhole(v, n);
    WholeTurns(w, n, j);
    WholeTurns(v, n, i);
    TimesCommutes(n, j);
    MulOne(ONE);
  }

  lemma Ratio(w: Roots, v: Roots, n: nat, j: nat, i: nat)
    requires Twiddles(w) && Twiddles(v) && Opposite(w, v) && Primitive(w) && i < n && j < n && i != j
    ensures w(j, n).Mul(v(i, n)) != ONE
  {
    hide Twiddles, Cpx.Mul;
    if j > i {
      RootAdd(w, j - i, i, n);
      MulAssoc(w(j - i, n), w(i, n), v(i, n));
      MulOne(w(j - i, n));
    } else {
      RootAdd(v, j, i - j, n);
      MulAssoc(w(j, n), v(j, n), v(i - j, n));
      MulOne(v(i - j, n));
      MulOne(w(i - j, n));
      assert w(i - j, n).Mul(v(i - j, n)) == ONE;
    }
  }

  lemma KernelCancels(w: Roots, v: Roots, n: nat, j: nat, i: nat)
    requires Twiddles(w) && Twiddles(v) && Opposite(w, v) && Primitive(w) && i < n && j < n && i != j
    ensures Sum(Kernel(w, v, n, j, i), n) == ZERO
  {
    hide Twiddles, Opposite, Primitive, Times;
    var g, r := Kernel(w, v, n, j, i), w(j, n).Mul(v(i, n));
    forall k: nat | k < n
      ensures g(k + 1) == g(k).Mul(r)
    {
      KernelStep(w, v, n, j, i, k);
    }
    Telescopes(g, r, n);
    KernelEnds(w, v, n, j, i);
    Ratio(w, v, n, j, i);
    FixedPoint(Sum(g, n), r);
  }

  lemma FixedPoint(s: Cpx, r: Cpx)
    requires s.Mul(r).Add(ONE) == s.Add(ONE) && r != ONE
    ensures s == ZERO
  {
    var d := Cpx(r.re - 1.0, r.im);
    assert s.Mul(d) == ZERO;
    NoZeroDivisors(s, d);
  }

  lemma {:induction false} SumOnes(g: nat -> Cpx, n: nat)
    requires forall k: nat :: k < n ==> g(k) == ONE
    ensures Sum(g, n) == Cpx(n as real, 0.0)
  {
    if n > 0 {
      SumOnes(g, n - 1);
    }
  }

  lemma KernelAdds(w: Roots, v: Roots, n: nat, i: nat)
    requires Twiddles(w) && Twiddles(v) && Opposite(w, v) && i < n
    ensures Sum(Kernel(w, v, n, i, i), n) == Cpx(n as real, 0.0)
  {
    forall k: nat | k < n
      ensures Kernel(w, v, n, i, i)(k) == ONE
    {
      TimesCommutes(i, k);
    }
    SumOnes(Kernel(w, v, n, i, i), n);
  }

  function Along(h: (nat, nat) -> Cpx, k: nat): nat -> Cpx {
    (j: nat) => h(j, k)
  }

  function Across(h: (nat, nat) -> Cpx, j: nat): nat -> Cpx {
    (k: nat) => h(j, k)
  }

  function AlongSums(h: (nat, nat) -> Cpx, js: nat): nat -> Cpx {
    (k: nat) => Sum(Along(h, k), js)
  }

  function AcrossSums(h: (nat, nat) -> Cpx, ks: nat): nat -> Cpx {
    (j: nat) => Sum(Across(h, j), ks)
  }

  lemma {:induction false} SumSwap(h: (nat, nat) -> Cpx, js: nat, ks: nat)
    ensures Sum(AlongSums(h, js), ks) == Sum(AcrossSums(h, ks), js)
  {
    if js == 0 {
      SumZero(AlongSums(h, 0), ks);
    } else {
      SumSwap(h, js - 1, ks);
      SumAdd(AlongSums(h, js - 1), Across(h, js - 1), AlongSums(h, js), ks);
    }
  }

  lemma {:induction false} SumSingle(f: nat -> Cpx, i: nat, n: nat)
    requires i < n && forall j: nat :: j < n && j != i ==> f(j) == ZERO
    ensures Sum(f, n) == f(i)
  {
    if i == n - 1 {
      SumZero(f, n - 1);
    } else {
      SumSingle(f, i, n - 1);
    }
  }

  ghost function Spectrum(x: seq<Cpx>, w: Roots): (s: seq<Cpx>)
    ensures |s| == |x|
  {
    seq(|x|, (k: int) requires 0 <= k < |x| => Dft(x, 1, |x|, w, k))
  }

  function Double(x: seq<Cpx>, w: Roots, v: Roots, i: nat): (nat, nat) -> Cpx {
    (j: nat, k: nat) => if j < |x| then x[j].Mul(Kernel(w, v, |x|, j, i)(k)) else ZERO
  }

  /** Transforming with the opposite twiddles gives every input back, times the length. */
  lemma InverseTransform(x: seq<Cpx>, w: Roots, v: Roots, i: nat)
    requires Twiddles(w) && Twiddles(v) && Opposite(w, v) && Primitive(w) && i < |x|
    ensures Dft(Spectrum(x, w), 1, |x|, v, i) == x[i].Mul(Cpx(|x| as real, 0.0))
  {
    hide Twiddles, Opposite, Primitive, Kernel, Cpx.Mul, Times;
    var n, h := |x|, Double(x, w, v, i);
    forall k: nat | k < n
      ensures Term(Spectrum(x, w), 1, n, v, i)(k) == AlongSums(h, n)(k)
    {
      SpectrumTerm(x, w, v, i, k);
    }
    SumSame(Term(Spectrum(x, w), 1, n, v, i), AlongSums(h, n), n);
    SumSwap(h, n, n);
    forall j: nat | j < n
      ensures AcrossSums(h, n)(j) == Sum(Kernel(w, v, n, j, i), n).Mul(x[j])
      ensures j != i ==> AcrossSums(h, n)(j) == ZERO
    {
      ScaledKernel(x, w, v, i, j);
    }
    SumSingle(AcrossSums(h, n), i, n);
    KernelAdds(w, v, n, i);
    MulCommutes(x[i], Cpx(n as real, 0.0));
  }

  lemma ScaledKernel(x: seq<Cpx>, w: Roots, v: Roots, i: nat, j: nat)
    requires Twiddles(w) && Twiddles(v) && Opposite(w, v) && Primitive(w) && i < |x| && j < |x|
    ensures AcrossSums(Double(x, w, v, i), |x|)(j) == Sum(Kernel(w, v, |x|, j, i), |x|).Mul(x[j])
    ensures j != i ==> AcrossSums(Double(x, w, v, i), |x|)(j) == ZERO
  {
    hide Twiddles, Opposite, Primitive, Times;
    var g, f := Kernel(w, v, |x|, j, i), Across(Double(x, w, v, i), j);
    forall k: nat | k < |x|
      ensures f(k) == g(k).Mul(x[j])
    {
      MulCommutes(x[j], g(k));
    }
    SumScale(g, f, x[j], |x|);
    if j != i {
      KernelCancels(w, v, |x|, j, i);
    }
  }

  lemma SpectrumTerm(x: seq<Cpx>, w: Roots, v: Roots, i: nat, k: nat)
    requires i < |x| && k < |x|
    ensures Term(Spectrum(x, w), 1, |x|, v, i)(k) == AlongSums(Double(x, w, v, i), |x|)(k)
  {
    hide Cpx.Mul, Cpx.Add;
    var n, f := |x|, Term(x, 1, |x|, w, k);
    assert Times(k, 1) == k;
    var g := Along(Double(x, w, v, i), k);
    forall j: nat | j < n
      ensures g(j) == f(j).Mul(v(Times(k, i), n))
    {
      assert Times(j, 1) == j;
      MulAssoc(x[j], w(Times(j, k), n), v(Times(k, i), n));
      assert f(j) == x[j].Mul(w(Times(j, k), n));
      assert Kernel(w, v, n, j, i)(k) == w(Times(j, k), n).Mul(v(Times(k, i), n));
    }
    SumScale(f, g, v(Times(k, i), n), n);
  }
}
