/**
 * Unrolled recursive filters against their one-sample recurrences, over the reals; and a biquad run on
 * pieces of a signal against one run on the whole.
 */
module Filters {

  // ---- First order ----

  function Feed(x: real, a: real, y: real): real {
    x + a * y
  }

  /** Output k of y[k] = x[k] + a * y[k - 1], and y0 before the first. */
  function Ar1(x: seq<real>, a: real, y0: real, k: nat): real
    requires k <= |x|
  {
    if k == 0 then y0 else Feed(x[k - 1], a, Ar1(x, a, y0, k - 1))
  }

  function Ar1All(x: seq<real>, a: real, y0: real): (y: seq<real>)
    ensures |y| == |x|
  {
    seq(|x|, k requires 0 <= k < |x| => Ar1(x, a, y0, k + 1))
  }

  lemma Fed(x: real, a: real, y: real)
    ensures Feed(x, a, y) - a * y == x
  {
  }

  /** The difference equation of the integrator: each output less the fed-back one before it is the input. */
  lemma Ar1Equation(x: seq<real>, a: real, y0: real)
    ensures var y := Ar1All(x, a, y0);
      && (x != [] ==> y[0] - a * y0 == x[0] && y[|x| - 1] == Ar1(x, a, y0, |x|))
      && (forall i :: 1 <= i < |x| ==> y[i] - a * y[i - 1] == x[i])
  {
    hide Feed;
    var y := Ar1All(x, a, y0);
    if x != [] {
      Fed(x[0], a, y0);
      assert y[0] == Feed(x[0], a, Ar1(x, a, y0, 0));
    }
    forall i | 1 <= i < |x|
      ensures y[i] - a * y[i - 1] == x[i]
    {
      assert y[i] == Feed(x[i], a, y[i - 1]);
      Fed(x[i], a, y[i - 1]);
    }
  }

  /** Five steps of the recurrence as polynomials in the coefficient. */
  lemma FiveSteps(a: real, y: real, x0: real, x1: real, x2: real, x3: real, x4: real)
    ensures var a2 := a * a; var a3 := a * a2; var a4 := a * a3; var a5 := a * a4;
      var y0 := Feed(x0, a, y); var y1 := Feed(x1, a, y0); var y2 := Feed(x2, a, y1); var y3 := Feed(x3, a, y2);
      && x0 + a * y == y0
      && x1 + a * x0 + a2 * y == y1
      && x2 + a * x1 + a2 * x0 + a3 * y == y2
      && x3 + a * x2 + a2 * x1 + a3 * x0 + a4 * y == y3
      && x4 + a * x3 + a2 * x2 + a3 * x1 + a4 * x0 + a5 * y == Feed(x4, a, y3)
  {
    var a2 := a * a;
    var a3 := a * a2;
    var a4 := a * a3;
    var y1 := Feed(x1, a, Feed(x0, a, y));
    assert y1 == x1 + a * x0 + a2 * y;
    var y2 := Feed(x2, a, y1);
    assert y2 == x2 + a * x1 + a2 * x0 + a3 * y;
    var y3 := Feed(x3, a, y2);
    assert y3 == x3 + a * x2 + a2 * x1 + a3 * x0 + a4 * y;
  }

  /** Five outputs at once, from the last output and the powers of the coefficient. */
  method Block5(x0: real, x1: real, x2: real, x3: real, x4: real, ytmp: real, ar1: real)
    returns (y0: real, y1: real, y2: real, y3: real, y4: real)
    ensures y0 == Feed(x0, ar1, ytmp) && y1 == Feed(x1, ar1, y0) && y2 == Feed(x2, ar1, y1)
    ensures y3 == Feed(x3, ar1, y2) && y4 == Feed(x4, ar1, y3)
  {
    FiveSteps(ar1, ytmp, x0, x1, x2, x3, x4);
    var ar1_2 := ar1 * ar1;
    var ar1_3 := ar1 * ar1_2;
    var ar1_4 := ar1 * ar1_3;
    var ar1_5 := ar1 * ar1_4;
    y4 := x4 + ar1 * x3 + ar1_2 * x2 + ar1_3 * x1 + ar1_4 * x0 + ar1_5 * ytmp;
    y0 := x0 + ar1 * ytmp;
    y1 := x1 + ar1 * x0 + ar1_2 * ytmp;
    y2 := x2 + ar1 * x1 + ar1_2 * x0 + ar1_3 * ytmp;
    y3 := x3 + ar1 * x2 + ar1_2 * x1 + ar1_3 * x0 + ar1_4 * ytmp;
  }

  lemma Ar1Five(x: seq<real>, a: real, y0: real, k: nat, y: real)
    requires k + 5 <= |x| && y == Ar1(x, a, y0, k)
    ensures Ar1(x, a, y0, k + 1) == Feed(x[k], a, y)
    ensures Ar1(x, a, y0, k + 2) == Feed(x[k + 1], a, Ar1(x, a, y0, k + 1))
    ensures Ar1(x, a, y0, k + 3) == Feed(x[k + 2], a, Ar1(x, a, y0, k + 2))
    ensures Ar1(x, a, y0, k + 4) == Feed(x[k + 3], a, Ar1(x, a, y0, k + 3))
    ensures Ar1(x, a, y0, k + 5) == Feed(x[k + 4], a, Ar1(x, a, y0, k + 4))
  {
    hide Feed;
  }

  /** The leaky integrator for every length, in place or not. */
  method FiltAR1(input: array<real>, n: nat, ar1: real, state: real, out: array<real>) returns (state': real)
    requires n <= input.Length && n <= out.Length
    modifies out
    ensures out[..n] == Ar1All(old(input[..n]), ar1, state) && state' == Ar1(old(input[..n]), ar1, state, n)
    ensures forall j :: n <= j < out.Length ==> out[j] == old(out[j])
  {
    hide Feed, Ar1;
    ghost var x := input[..n];
    Ar1Start(x, ar1, state);
    var ytmp := state;
    var nn := 0;
    while nn + 4 < n
      invariant nn <= n && ytmp == Ar1(x, ar1, state, nn)
      invariant forall j :: 0 <= j < nn ==> out[j] == Ar1(x, ar1, state, j + 1)
      invariant forall j :: nn <= j < n ==> input[j] == x[j]
      invariant forall j :: n <= j < out.Length ==> out[j] == old(out[j])
    {
      Ar1Five(x, ar1, state, nn, ytmp);
      var y0, y1, y2, y3, y4 := Block5(input[nn], input[nn + 1], input[nn + 2], input[nn + 3], input[nn + 4],
                                       ytmp, ar1);
      out[nn + 4] := y4;
      out[nn] := y0;
      out[nn + 1] := y1;
      out[nn + 2] := y2;
      out[nn + 3] := y3;
      ytmp := out[nn + 4];
      nn := nn + 5;
    }
    while nn < n
      invariant nn <= n && ytmp == Ar1(x, ar1, state, nn)
      invariant forall j :: 0 <= j < nn ==> out[j] == Ar1(x, ar1, state, j + 1)
      invariant forall j :: nn <= j < n ==> input[j] == x[j]
      invariant forall j :: n <= j < out.Length ==> out[j] == old(out[j])
    {
      Ar1Next(x, ar1, state, nn);
      ytmp := Feed(input[nn], ar1, ytmp);
      out[nn] := ytmp;
      nn := nn + 1;
    }
    state' := ytmp;
  }

  lemma Ar1Start(x: seq<real>, a: real, y0: real)
    ensures Ar1(x, a, y0, 0) == y0
  {
  }

  lemma Ar1Next(x: seq<real>, a: real, y0: real, k: nat)
    requires k < |x|
    ensures Ar1(x, a, y0, k + 1) == Feed(x[k], a, Ar1(x, a, y0, k))
  {
    hide Feed;
  }

  const PITCH_AR: real := 0.96

  function Differences(x: seq<real>): (d: seq<real>)
    ensures |d| == |x|
  {
    seq(|x|, i requires 0 <= i < |x| => if i == 0 then x[0] else x[i] - x[i - 1])
  }

  /** The pitch high-pass: differences, then the leaky integrator in place, both from rest. */
  method PitchHpFilter(x: seq<real>, out: array<real>)
    requires |x| <= out.Length
    modifies out
    ensures out[..|x|] == Ar1All(Differences(x), PITCH_AR, 0.0)
    ensures x != [] ==> out[0] == x[0]
    ensures forall i :: 1 <= i < |x| ==> out[i] - PITCH_AR * out[i - 1] == x[i] - x[i - 1]
    ensures forall j :: |x| <= j < out.Length ==> out[j] == old(out[j])
  {
    var n := |x|;
    var stateMa := 0.0;
    for i := 0 to n
      invariant i > 0 ==> stateMa == x[i - 1]
      invariant i == 0 ==> stateMa == 0.0
      invariant forall j :: 0 <= j < i ==> out[j] == Differences(x)[j]
      invariant forall j :: i <= j < out.Length ==> out[j] == old(out[j])
    {
      out[i] := x[i] - stateMa;
      stateMa := x[i];
    }
    ghost var d := out[..n];
    assert d == Differences(x);
    var last := FiltAR1(out, n, PITCH_AR, 0.0, out);
    Ar1Equation(d, PITCH_AR, 0.0);
    assert forall i :: 0 <= i < n ==> out[i] == out[..n][i];
  }

  // ---- Second order ----

  function Feed2(x: real, a1: real, a2: real, y1: real, y2: real): real {
    x + a1 * y1 + a2 * y2
  }

  /** The two last outputs, newest first. */
  datatype Pair = Pair(y1: real, y2: real)

  /** The state after k samples of y[k] = x[k] + a1 * y[k - 1] + a2 * y[k - 2]. */
  function Ar2(x: seq<real>, a1: real, a2: real, s: Pair, k: nat): Pair
    requires k <= |x|
  {
    if k == 0 then s
    else
      var p := Ar2(x, a1, a2, s, k - 1);
      Pair(Feed2(x[k - 1], a1, a2, p.y1, p.y2), p.y1)
  }

  function Ar2All(x: seq<real>, a1: real, a2: real, s: Pair): (y: seq<real>)
    ensures |y| == |x|
  {
    seq(|x|, k requires 0 <= k < |x| => Ar2(x, a1, a2, s, k + 1).y1)
  }

  /** Each output of the second-order recurrence from the two before it, and the state it leaves. */
  lemma Ar2Outputs(x: seq<real>, a1: real, a2: real, s: Pair)
    ensures var y := Ar2All(x, a1, a2, s);
      && (|x| >= 1 ==> y[0] == Feed2(x[0], a1, a2, s.y1, s.y2))
      && (|x| >= 2 ==> y[1] == Feed2(x[1], a1, a2, y[0], s.y1))
      && (forall i :: 2 <= i < |x| ==> y[i] == Feed2(x[i], a1, a2, y[i - 1], y[i - 2]))
      && (|x| >= 2 ==> Ar2(x, a1, a2, s, |x|) == Pair(y[|x| - 1], y[|x| - 2]))
  {
    hide Feed2, Ar2;
    Ar2Start(x, a1, a2, s);
    forall i | 0 <= i < |x|
      ensures Ar2(x, a1, a2, s, i + 1).y2 == Ar2(x, a1, a2, s, i).y1
      ensures Ar2(x, a1, a2, s, i + 1).y1 == Feed2(x[i], a1, a2, Ar2(x, a1, a2, s, i).y1, Ar2(x, a1, a2, s, i).y2)
    {
      Ar2Next(x, a1, a2, s, i);
    }
    var y := Ar2All(x, a1, a2, s);
    forall i | 2 <= i < |x|
      ensures y[i] == Feed2(x[i], a1, a2, y[i - 1], y[i - 2])
    {
      assert Ar2(x, a1, a2, s, i - 2 + 1).y1 == y[i - 2] && Ar2(x, a1, a2, s, i - 1 + 1).y2 == y[i - 2];
    }
    if |x| >= 2 {
      assert Ar2(x, a1, a2, s, |x| - 1 + 1).y2 == Ar2(x, a1, a2, s, |x| - 2 + 1).y1;
    }
  }

  /** Four outputs at once: the impulse response and its tails against the plain recurrence. */
  method Block4(x0: real, x1: real, x2: real, x3: real, ytmp1: real, ytmp0: real, ar1: real, ar2: real)
    returns (y0: real, y1: real, y2: real, y3: real)
    ensures y0 == Feed2(x0, ar1, ar2, ytmp1, ytmp0) && y1 == Feed2(x1, ar1, ar2, y0, ytmp1)
    ensures y2 == Feed2(x2, ar1, ar2, y1, y0) && y3 == Feed2(x3, ar1, ar2, y2, y1)
  {
    var ar1_2 := ar1 * ar1;
    var ar1_3 := ar1 * ar1_2;
    var ar1_4 := ar1 * ar1_3;
    var imp1 := ar1;
    var imp2 := ar1_2 + ar2;
    var imp3 := ar1_3 + 2.0 * ar1 * ar2;
    var imp4 := ar1_4 + ar2 * ar2 + 3.0 * ar1_2 * ar2;
    var ymp1 := ar2;
    var ymp2 := ar2 * imp1;
    var ymp3 := ar2 * imp2;
    var ymp4 := ar2 * imp3;
    Responses(ar1, ar2);
    y2 := x2 + imp1 * x1 + imp2 * x0 + imp3 * ytmp1 + ymp3 * ytmp0;
    y3 := x3 + imp1 * x2 + imp2 * x1 + imp3 * x0 + imp4 * ytmp1 + ymp4 * ytmp0;
    y0 := x0 + imp1 * ytmp1 + ymp1 * ytmp0;
    y1 := x1 + imp1 * x0 + imp2 * ytmp1 + ymp2 * ytmp0;
    FourSteps(x0, x1, x2, x3, ytmp1, ytmp0, ar1, ar2, imp2, imp3, imp4);
  }

  /** Each impulse response value follows from the two before it. */
  lemma Responses(a1: real, a2: real)
    ensures var i2 := a1 * a1 + a2; var i3 := a1 * (a1 * a1) + 2.0 * a1 * a2;
      var i4 := a1 * (a1 * (a1 * a1)) + a2 * a2 + 3.0 * (a1 * a1) * a2;
      i3 == a1 * i2 + a2 * a1 && i4 == a1 * i3 + a2 * i2
  {
  }

  lemma FourSteps(x0: real, x1: real, x2: real, x3: real, p: real, q: real, a1: real, a2: real, i2: real, i3: real,
                  i4: real)
    requires i2 == a1 * a1 + a2 && i3 == a1 * i2 + a2 * a1 && i4 == a1 * i3 + a2 * i2
    ensures var y0 := Feed2(x0, a1, a2, p, q); var y1 := Feed2(x1, a1, a2, y0, p); var y2 := Feed2(x2, a1, a2, y1, y0);
      && y0 == x0 + a1 * p + a2 * q
      && y1 == x1 + a1 * x0 + i2 * p + a2 * a1 * q
      && y2 == x2 + a1 * x1 + i2 * x0 + i3 * p + a2 * i2 * q
      && Feed2(x3, a1, a2, y2, y1) == x3 + a1 * x2 + i2 * x1 + i3 * x0 + i4 * p + a2 * i3 * q
  {
    var y0 := Feed2(x0, a1, a2, p, q);
    var y1 := Feed2(x1, a1, a2, y0, p);
    TwoOf(a1, a2, x0, x1, p, q, i2);
    var y2 := Feed2(x2, a1, a2, y1, y0);
    ThreeOf(a1, a2, x0, x1, x2, p, q, i2, i3);
    FourOf(a1, a2, x0, x1, x2, x3, p, q, i2, i3, i4);
  }

  lemma TwoOf(a1: real, a2: real, x0: real, x1: real, p: real, q: real, i2: real)
    requires i2 == a1 * a1 + a2
    ensures Feed2(x1, a1, a2, x0 + a1 * p + a2 * q, p) == x1 + a1 * x0 + i2 * p + a2 * a1 * q
  {
  }

  lemma ThreeOf(a1: real, a2: real, x0: real, x1: real, x2: real, p: real, q: real, i2: real, i3: real)
    requires i2 == a1 * a1 + a2 && i3 == a1 * i2 + a2 * a1
    ensures Feed2(x2, a1, a2, x1 + a1 * x0 + i2 * p + a2 * a1 * q, x0 + a1 * p + a2 * q)
         == x2 + a1 * x1 + i2 * x0 + i3 * p + a2 * i2 * q
  {
    assert a1 * (x1 + a1 * x0 + i2 * p + a2 * a1 * q) == a1 * x1 + a1 * a1 * x0 + a1 * i2 * p + a2 * (a1 * a1) * q;
    assert a2 * (x0 + a1 * p + a2 * q) == a2 * x0 + a2 * a1 * p + a2 * a2 * q;
    assert i2 * x0 == a1 * a1 * x0 + a2 * x0 && i3 * p == a1 * i2 * p + a2 * a1 * p;
    assert a2 * i2 * q == a2 * (a1 * a1) * q + a2 * a2 * q;
  }

  lemma FourOf(a1: real, a2: real, x0: real, x1: real, x2: real, x3: real, p: real, q: real, i2: real, i3: real,
               i4: real)
    requires i2 == a1 * a1 + a2 && i3 == a1 * i2 + a2 * a1 && i4 == a1 * i3 + a2 * i2
    ensures Feed2(x3, a1, a2, x2 + a1 * x1 + i2 * x0 + i3 * p + a2 * i2 * q, x1 + a1 * x0 + i2 * p + a2 * a1 * q)
         == x3 + a1 * x2 + i2 * x1 + i3 * x0 + i4 * p + a2 * i3 * q
  {
    assert a1 * (x2 + a1 * x1 + i2 * x0 + i3 * p + a2 * i2 * q)
        == a1 * x2 + a1 * a1 * x1 + a1 * i2 * x0 + a1 * i3 * p + a2 * (a1 * i2) * q;
    assert a2 * (x1 + a1 * x0 + i2 * p + a2 * a1 * q) == a2 * x1 + a2 * a1 * x0 + a2 * i2 * p + a2 * (a2 * a1) * q;
    assert i2 * x1 == a1 * a1 * x1 + a2 * x1 && i3 * x0 == a1 * i2 * x0 + a2 * a1 * x0;
    assert i4 * p == a1 * i3 * p + a2 * i2 * p && a2 * i3 * q == a2 * (a1 * i2) * q + a2 * (a2 * a1) * q;
  }

  lemma Ar2Next(x: seq<real>, a1: real, a2: real, s: Pair, k: nat)
    requires k < |x|
    ensures var p := Ar2(x, a1, a2, s, k); Ar2(x, a1, a2, s, k + 1) == Pair(Feed2(x[k], a1, a2, p.y1, p.y2), p.y1)
  {
    hide Feed2;
  }

  lemma Ar2Four(x: seq<real>, a1: real, a2: real, s: Pair, k: nat)
    requires k + 4 <= |x|
    ensures var p := Ar2(x, a1, a2, s, k);
      var y0 := Feed2(x[k], a1, a2, p.y1, p.y2); var y1 := Feed2(x[k + 1], a1, a2, y0, p.y1);
      var y2 := Feed2(x[k + 2], a1, a2, y1, y0); var y3 := Feed2(x[k + 3], a1, a2, y2, y1);
      && Ar2(x, a1, a2, s, k + 1).y1 == y0 && Ar2(x, a1, a2, s, k + 2).y1 == y1
      && Ar2(x, a1, a2, s, k + 3).y1 == y2 && Ar2(x, a1, a2, s, k + 4) == Pair(y3, y2)
  {
    hide Feed2, Ar2;
    Ar2Next(x, a1, a2, s, k);
    Ar2Next(x, a1, a2, s, k + 1);
    Ar2Next(x, a1, a2, s, k + 2);
    Ar2Next(x, a1, a2, s, k + 3);
  }

  lemma Ar2Start(x: seq<real>, a1: real, a2: real, s: Pair)
    ensures Ar2(x, a1, a2, s, 0) == s
  {
  }

  /** y[k] = x[k] - c1 * y[k - 1] - c2 * y[k - 2] for every length. */
  method FiltAR2(input: seq<real>, n: nat, c1: real, c2: real, state: Pair, out: array<real>) returns (state': Pair)
    requires n == |input| <= out.Length
    modifies out
    ensures out[..n] == Ar2All(input, -c1, -c2, state) && state' == Ar2(input, -c1, -c2, state, n)
    ensures forall j :: n <= j < out.Length ==> out[j] == old(out[j])
  {
    hide Feed2, Ar2;
    var ytmp0 := state.y2;
    var ytmp1 := state.y1;
    var ar1 := -c1;
    var ar2 := -c2;
    Ar2Start(input, ar1, ar2, state);
    var nn := 0;
    while nn + 3 < n
      invariant nn <= n && Pair(ytmp1, ytmp0) == Ar2(input, ar1, ar2, state, nn)
      invariant forall j :: 0 <= j < nn ==> out[j] == Ar2(input, ar1, ar2, state, j + 1).y1
      invariant forall j :: n <= j < out.Length ==> out[j] == old(out[j])
    {
      Ar2Four(input, ar1, ar2, state, nn);
      var y0, y1, y2, y3 := Block4(input[nn], input[nn + 1], input[nn + 2], input[nn + 3], ytmp1, ytmp0, ar1, ar2);
      out[nn + 2] := y2;
      out[nn + 3] := y3;
      out[nn] := y0;
      out[nn + 1] := y1;
      ytmp0 := out[nn + 2];
      ytmp1 := out[nn + 3];
      nn := nn + 4;
    }
    while nn < n
      invariant nn <= n && Pair(ytmp1, ytmp0) == Ar2(input, ar1, ar2, state, nn)
      invariant forall j :: 0 <= j < nn ==> out[j] == Ar2(input, ar1, ar2, state, j + 1).y1
      invariant forall j :: n <= j < out.Length ==> out[j] == old(out[j])
    {
      Ar2Next(input, ar1, ar2, state, nn);
      out[nn] := Feed2(input[nn], ar1, ar2, ytmp1, ytmp0);
      ytmp0 := ytmp1;
      ytmp1 := out[nn];
      nn := nn + 1;
    }
    state' := Pair(ytmp1, ytmp0);
  }

  // ---- The biquad ----

  /** The signal k samples back from index i, reaching into the carried history. */
  function Back(x: seq<real>, s: Pair, i: int): real
    requires -2 <= i < |x|
  {
    if i >= 0 then x[i] else if i == -1 then s.y1 else s.y2
  }

  function Tap(x: real, p1: real, p2: real, b: (real, real, real)): real {
    b.0 * x + b.1 * p1 + b.2 * p2
  }

  function Fir(x: seq<real>, b: (real, real, real), s: Pair): (y: seq<real>)
    ensures |y| == |x|
  {
    seq(|x|, i requires 0 <= i < |x| => Tap(x[i], Back(x, s, i - 1), Back(x, s, i - 2), b))
  }

  /** The last two inputs, reaching back into the history when there were fewer. */
  function FirState(x: seq<real>, s: Pair): Pair {
    Pair(Back(x, s, |x| - 1), Back(x, s, |x| - 2))
  }

  method PfFir3(input: seq<real>, coef: (real, real, real), state: Pair) returns (out: seq<real>, state': Pair)
    ensures out == Fir(input, coef, state) && state' == FirState(input, state)
  {
    hide Tap;
    var n := |input|;
    var xm1, xm2 := state.y1, state.y2;
    out := [];
    for i := 0 to n
      invariant |out| == i && forall j :: 0 <= j < i ==> out[j] == Fir(input, coef, state)[j]
    {
      var p1 := if i >= 1 then input[i - 1] else xm1;
      var p2 := if i >= 2 then input[i - 2] else if i == 1 then xm1 else xm2;
      out := out + [Tap(input[i], p1, p2, coef)];
    }
    state' := state;
    if n >= 2 {
      state' := Pair(input[n - 1], input[n - 2]);
    } else if n == 1 {
      state' := Pair(input[0], xm1);
    }
  }

  datatype Biquad = Biquad(ma: Pair, ar: Pair)

  function Arma2(x: seq<real>, b: (real, real, real), c1: real, c2: real, s: Biquad): (y: seq<real>)
    ensures |y| == |x|
  {
    Ar2All(Fir(x, b, s.ma), -c1, -c2, s.ar)
  }

  function Arma2State(x: seq<real>, b: (real, real, real), c1: real, c2: real, s: Biquad): Biquad {
    Biquad(FirState(x, s.ma), Ar2(Fir(x, b, s.ma), -c1, -c2, s.ar, |x|))
  }

  method FiltArma2(input: seq<real>, b: (real, real, real), c1: real, c2: real, state: Biquad)
    returns (y: seq<real>, state': Biquad)
    ensures y == Arma2(input, b, c1, c2, state) && state' == Arma2State(input, b, c1, c2, state)
  {
    hide Fir, FirState, Ar2, Ar2All;
    var tmp, ma := PfFir3(input, b, state.ma);
    var out := new real[|input|];
    var ar := FiltAR2(tmp, |input|, c1, c2, state.ar, out);
    assert out[..|input|] == out[..];
    y := out[..];
    state' := Biquad(ma, ar);
  }

  /** An output y after y1 and y2 balances an input x after x1 and x2. */
  predicate Balance(y: real, y1: real, y2: real, x: real, x1: real, x2: real, b: (real, real, real), c1: real, c2: real)
  {
    y + c1 * y1 + c2 * y2 == b.0 * x + b.1 * x1 + b.2 * x2
  }

  lemma Balanced(y1: real, y2: real, x: real, x1: real, x2: real, b: (real, real, real), c1: real, c2: real)
    ensures Balance(Feed2(Tap(x, x1, x2, b), -c1, -c2, y1, y2), y1, y2, x, x1, x2, b, c1, c2)
  {
  }

  lemma Balances(x: seq<real>, b: (real, real, real), c1: real, c2: real, s: Biquad, i: nat)
    requires 2 <= i < |x|
    ensures var y := Arma2(x, b, c1, c2, s); Balance(y[i], y[i - 1], y[i - 2], x[i], x[i - 1], x[i - 2], b, c1, c2)
  {
    hide Ar2, Ar2All, Feed2, Tap, Balance;
    var f, y := Fir(x, b, s.ma), Arma2(x, b, c1, c2, s);
    Ar2Outputs(f, -c1, -c2, s.ar);
    assert f[i] == Tap(x[i], x[i - 1], x[i - 2], b);
    assert y[i] == Feed2(f[i], -c1, -c2, y[i - 1], y[i - 2]);
    Balanced(y[i - 1], y[i - 2], x[i], x[i - 1], x[i - 2], b, c1, c2);
  }

  lemma FirstBalance(x: seq<real>, b: (real, real, real), c1: real, c2: real, s: Biquad)
    ensures var y := Arma2(x, b, c1, c2, s);
      && (|x| >= 1 ==> Balance(y[0], s.ar.y1, s.ar.y2, x[0], s.ma.y1, s.ma.y2, b, c1, c2))
      && (|x| >= 2 ==> Balance(y[1], y[0], s.ar.y1, x[1], x[0], s.ma.y1, b, c1, c2))
  {
    hide Ar2, Ar2All, Feed2, Tap, Balance;
    var f, y := Fir(x, b, s.ma), Arma2(x, b, c1, c2, s);
    Ar2Outputs(f, -c1, -c2, s.ar);
    if |x| >= 1 {
      Balanced(s.ar.y1, s.ar.y2, x[0], s.ma.y1, s.ma.y2, b, c1, c2);
    }
    if |x| >= 2 {
      Balanced(y[0], s.ar.y1, x[1], x[0], s.ma.y1, b, c1, c2);
    }
  }

  /**
   * The difference equation of the biquad, feedback signs and tap order included: every output with the two
   * before it balances its input with the two before it; the first two outputs reach into the history, and
   * the last two of either signal are the state left behind.
   */
  lemma Arma2Equation(x: seq<real>, b: (real, real, real), c1: real, c2: real, s: Biquad)
    ensures var y := Arma2(x, b, c1, c2, s);
      && (|x| >= 1 ==> Balance(y[0], s.ar.y1, s.ar.y2, x[0], s.ma.y1, s.ma.y2, b, c1, c2))
      && (|x| >= 2 ==> Balance(y[1], y[0], s.ar.y1, x[1], x[0], s.ma.y1, b, c1, c2))
      && (forall i :: 2 <= i < |x| ==> Balance(y[i], y[i - 1], y[i - 2], x[i], x[i - 1], x[i - 2], b, c1, c2))
    ensures |x| >= 2 ==>
      var y := Arma2(x, b, c1, c2, s);
      Arma2State(x, b, c1, c2, s) == Biquad(Pair(x[|x| - 1], x[|x| - 2]), Pair(y[|x| - 1], y[|x| - 2]))
  {
    hide Ar2, Ar2All, Fir, Balance;
    Ar2Outputs(Fir(x, b, s.ma), -c1, -c2, s.ar);
    FirstBalance(x, b, c1, c2, s);
    forall i | 2 <= i < |x|
      ensures var y := Arma2(x, b, c1, c2, s); Balance(y[i], y[i - 1], y[i - 2], x[i], x[i - 1], x[i - 2], b, c1, c2)
    {
      Balances(x, b, c1, c2, s, i);
    }
  }

  /** The response to one unit sample at place p, from rest: the three taps, in order, from there on. */
  lemma FirImpulse(n: nat, p: nat, b: (real, real, real), i: nat)
    requires p < n && i < n
    ensures Fir(seq(n, k => if k == p then 1.0 else 0.0), b, Pair(0.0, 0.0))[i]
         == if i == p then b.0 else if i == p + 1 then b.1 else if i == p + 2 then b.2 else 0.0
  {
  }

  lemma BackPieces(x: seq<real>, z: seq<real>, s: Pair, i: int)
    requires -2 <= i < |x| + |z|
    ensures i < |x| ==> Back(x + z, s, i) == Back(x, s, i)
    ensures i >= |x| - 2 ==> Back(x + z, s, i) == Back(z, FirState(x, s), i - |x|)
  {
  }

  lemma FirPieces(x: seq<real>, z: seq<real>, b: (real, real, real), s: Pair)
    ensures Fir(x + z, b, s) == Fir(x, b, s) + Fir(z, b, FirState(x, s))
    ensures FirState(x + z, s) == FirState(z, FirState(x, s))
  {
    hide Tap, Back;
    forall i | 0 <= i < |x + z|
      ensures Fir(x + z, b, s)[i] == (Fir(x, b, s) + Fir(z, b, FirState(x, s)))[i]
    {
      hide FirState;
      BackPieces(x, z, s, i - 1);
      BackPieces(x, z, s, i - 2);
    }
    BackPieces(x, z, s, |x + z| - 1);
    BackPieces(x, z, s, |x + z| - 2);
  }

  lemma {:induction false} Ar2Pieces(x: seq<real>, z: seq<real>, a1: real, a2: real, s: Pair, k: nat)
    requires k <= |x| + |z|
    ensures Ar2(x + z, a1, a2, s, k)
         == if k <= |x| then Ar2(x, a1, a2, s, k) else Ar2(z, a1, a2, Ar2(x, a1, a2, s, |x|), k - |x|)
  {
    hide Feed2;
    if k > 0 {
      Ar2Pieces(x, z, a1, a2, s, k - 1);
      assert (x + z)[k - 1] == if k <= |x| then x[k - 1] else z[k - 1 - |x|];
    }
  }

  /** A signal filtered piece by piece with carried state equals the signal filtered whole, state included. */
  lemma Arma2Pieces(x: seq<real>, z: seq<real>, b: (real, real, real), c1: real, c2: real, s: Biquad)
    ensures Arma2(x + z, b, c1, c2, s) == Arma2(x, b, c1, c2, s) + Arma2(z, b, c1, c2, Arma2State(x, b, c1, c2, s))
    ensures Arma2State(x + z, b, c1, c2, s) == Arma2State(z, b, c1, c2, Arma2State(x, b, c1, c2, s))
  {
    hide Fir, FirState, Ar2;
    FirPieces(x, z, b, s.ma);
    var f, g := Fir(x, b, s.ma), Fir(z, b, FirState(x, s.ma));
    var whole := Ar2All(f + g, -c1, -c2, s.ar);
    var pieces := Ar2All(f, -c1, -c2, s.ar) + Ar2All(g, -c1, -c2, Ar2(f, -c1, -c2, s.ar, |f|));
    forall k | 0 <= k < |whole|
      ensures whole[k] == pieces[k]
    {
      Ar2Pieces(f, g, -c1, -c2, s.ar, k + 1);
    }
    Ar2Pieces(f, g, -c1, -c2, s.ar, |f| + |g|);
    Ar2Start(g, -c1, -c2, Ar2(f, -c1, -c2, s.ar, |f|));
  }
}
