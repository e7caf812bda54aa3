/** Running window energies of the pitch estimator, over the reals. */
module PitchEnergy {

  const FLOOR := 0.000000001

  function Square(x: real): (s: real)
    ensures s >= 0.0
  {
    x * x
  }

  /** Energy of the first n samples from start. */
  function Energy(x: seq<real>, start: nat, n: nat): (e: real)
    requires start + n <= |x|
    ensures e >= 0.0
  {
    if n == 0 then 0.0 else Energy(x, start, n - 1) + Square(x[start + n - 1])
  }

  /** Moving a window one sample down adds the new first sample and drops the last. */
  lemma {:induction false} WindowDown(x: seq<real>, start: nat, n: nat)
    requires start + 1 + n <= |x|
    ensures Energy(x, start, n) == Energy(x, start + 1, n) + Square(x[start]) - Square(x[start + n])
  {
    hide Square;
    if n > 0 {
      WindowDown(x, start, n - 1);
    }
  }

  /** A constant window has the energy of one sample times its length. */
  lemma {:induction false} EnergyOfConstant(x: seq<real>, c: real, start: nat, n: nat)
    requires start + n <= |x| && forall i :: start <= i < start + n ==> x[i] == c
    ensures Energy(x, start, n) == n as real * (c * c)
  {
    if n > 0 {
      EnergyOfConstant(x, c, start, n - 1);
      assert n as real * (c * c) == (n - 1) as real * (c * c) + c * c;
    }
  }

  function Max(a: real, b: real): real {
    if a > b then a else b
  }

  method Nrg(x: seq<real>, start: nat, n: nat) returns (s: real)
    requires start + n <= |x|
    ensures s == Energy(x, start, n)
  {
    hide Square;
    s := 0.0;
    for i := 0 to n
      invariant s == Energy(x, start, i)
    {
      s := s + Square(x[start + i]);
    }
  }

  /** Between the true energy of a window and that energy plus the floor. */
  predicate Near(e: real, energy: real) {
    energy <= e <= energy + FLOOR
  }

  /** Entry i is near the energy of the window that lies minpitch + i before t, however long the recursion. */
  method CalcE1Inner(e1: array<real>, ltpbuf: seq<real>, t: nat, minpitch: nat, maxpitch: nat, lagSubfrlen: nat)
    requires minpitch <= maxpitch <= t && t - minpitch + lagSubfrlen <= |ltpbuf|
    requires maxpitch - minpitch + 1 <= e1.Length
    modifies e1
    ensures forall i :: 0 <= i <= maxpitch - minpitch ==> Near(e1[i], Energy(ltpbuf, t - minpitch - i, lagSubfrlen))
    ensures forall i :: maxpitch - minpitch < i < e1.Length ==> e1[i] == old(e1[i])
  {
    hide Square;
    var numlags := maxpitch - minpitch + 1;
    var reg0 := t - minpitch;
    var nrg := Nrg(ltpbuf, reg0, lagSubfrlen);
    e1[0] := Max(nrg, FLOOR);
    for i := 1 to numlags
      invariant forall j :: 0 <= j < i ==> Near(e1[j], Energy(ltpbuf, reg0 - j, lagSubfrlen))
      invariant forall j :: i <= j < e1.Length ==> e1[j] == old(e1[j])
    {
      WindowDown(ltpbuf, reg0 - i, lagSubfrlen);
      var rm := ltpbuf[reg0 - i];
      var rs := ltpbuf[reg0 + lagSubfrlen - i];
      e1[i] := Max(e1[i - 1] + Square(rm) - Square(rs), FLOOR);
    }
  }

  /** Where subframe sf starts when the subframes end the buffer. */
  function SubframeStart(ltpbufLen: nat, numsubfrs: nat, lagSubfrlen: nat, sf: nat): int {
    ltpbufLen - Times(numsubfrs - sf, lagSubfrlen)
  }

  function Times(a: int, b: int): int {
    a * b
  }

  lemma TimesNext(a: int, b: int)
    ensures Times(a + 1, b) == Times(a, b) + b && Times(0, b) == 0
  {
  }

  lemma TimesOrder(a: int, b: int, c: nat)
    requires a <= b
    ensures Times(a, c) <= Times(b, c)
  {
  }

  /** For every subframe and lag: the energy of the window that lies the lag before the subframe. */
  method CalcE1(e1: array<real>, ltpbuf: seq<real>, ltpbufLen: nat, numsubfrs: nat, minpitch: nat, maxpitch: nat,
                lagSubfrlen: nat)
    requires numsubfrs > 0 && ltpbufLen <= |ltpbuf| && minpitch <= maxpitch
    requires maxpitch + Times(numsubfrs, lagSubfrlen) <= ltpbufLen
    requires Times(numsubfrs, maxpitch - minpitch + 1) <= e1.Length
    modifies e1
    ensures forall sf: nat, i: nat :: sf < numsubfrs && i <= maxpitch - minpitch ==>
      Placed(e1[..], ltpbuf, ltpbufLen, numsubfrs, minpitch, maxpitch, lagSubfrlen, sf, i)
  {
    var numlags := maxpitch - minpitch + 1;
    var maxpitch' := maxpitch + (numsubfrs - 1) * lagSubfrlen;
    var numlags' := maxpitch' - minpitch + 1;
    var t := ltpbufLen - lagSubfrlen;
    TimesNext(numsubfrs - 1, lagSubfrlen);
    assert Times(numsubfrs - 1, lagSubfrlen) == (numsubfrs - 1) * lagSubfrlen;
    TimesOrder(0, numsubfrs - 1, lagSubfrlen);
    TimesNext(0, lagSubfrlen);
    TimesNext(0, numlags);
    var e1Ext := new real[numlags'](_ => 0.0);
    CalcE1Inner(e1Ext, ltpbuf, t, minpitch, maxpitch', lagSubfrlen);
    hide Times, Energy, Placed;
    ghost var ext := e1Ext[..];
    var offset: int := numlags' - numlags;
    for sf := 0 to numsubfrs
      invariant e1Ext[..] == ext && offset == Times(numsubfrs - 1 - sf, lagSubfrlen)
      invariant forall s: nat, i: nat :: s < sf && i < numlags ==>
        Placed(e1[..], ltpbuf, ltpbufLen, numsubfrs, minpitch, maxpitch, lagSubfrlen, s, i)
    {
      ghost var before := e1[..];
      RowFits(sf, numsubfrs, numlags);
      OffsetFits(sf, numsubfrs, lagSubfrlen);
      CopyRow(e1, Times(sf, numlags), e1Ext, offset, numlags);
      forall s: nat, i: nat | s < sf + 1 && i < numlags
        ensures Placed(e1[..], ltpbuf, ltpbufLen, numsubfrs, minpitch, maxpitch, lagSubfrlen, s, i)
      {
        if s < sf {
          RowBefore(s, sf, numlags);
          PlacedKept(before, e1[..], ltpbuf, ltpbufLen, numsubfrs, minpitch, maxpitch, lagSubfrlen, s, i);
        } else {
          OffsetIs(sf, numsubfrs, lagSubfrlen);
          assert ext[offset + i] == e1[..][Times(sf, numlags) + i];
          PlacedNow(e1[..], ltpbuf, ltpbufLen, numsubfrs, minpitch, maxpitch, lagSubfrlen, sf, i, offset);
        }
      }
      TimesNext(numsubfrs - 2 - sf, lagSubfrlen);
      offset := offset - lagSubfrlen;
    }
  }

  method CopyRow(e1: array<real>, at: nat, e1Ext: array<real>, offset: nat, numlags: nat)
    requires e1 != e1Ext && at + numlags <= e1.Length && offset + numlags <= e1Ext.Length
    modifies e1
    ensures forall j :: 0 <= j < e1.Length ==>
      e1[j] == if at <= j < at + numlags then e1Ext[offset + j - at] else old(e1[j])
  {
    for i := 0 to numlags
      invariant forall j :: 0 <= j < e1.Length ==>
        e1[j] == if at <= j < at + i then e1Ext[offset + j - at] else old(e1[j])
    {
      e1[at + i] := e1Ext[offset + i];
    }
  }

  lemma PlacedKept(before: seq<real>, after: seq<real>, ltpbuf: seq<real>, ltpbufLen: nat, numsubfrs: nat,
                   minpitch: nat, maxpitch: nat, lagSubfrlen: nat, s: nat, i: nat)
    requires minpitch <= maxpitch && i <= maxpitch - minpitch && |after| == |before|
    requires Placed(before, ltpbuf, ltpbufLen, numsubfrs, minpitch, maxpitch, lagSubfrlen, s, i)
    requires var at := Times(s, maxpitch - minpitch + 1) + i; 0 <= at < |after| ==> after[at] == before[at]
    ensures Placed(after, ltpbuf, ltpbufLen, numsubfrs, minpitch, maxpitch, lagSubfrlen, s, i)
  {
    hide Times, Energy;
  }

  lemma PlacedNow(e1: seq<real>, ltpbuf: seq<real>, ltpbufLen: nat, numsubfrs: nat, minpitch: nat, maxpitch: nat,
                  lagSubfrlen: nat, sf: nat, i: nat, offset: nat)
    requires minpitch <= maxpitch && i <= maxpitch - minpitch && lagSubfrlen <= ltpbufLen <= |ltpbuf| && sf < numsubfrs
    requires offset + lagSubfrlen == Times(numsubfrs - sf, lagSubfrlen)
    requires maxpitch + offset + lagSubfrlen <= ltpbufLen
    requires var at := Times(sf, maxpitch - minpitch + 1) + i;
      0 <= at < |e1| && Near(e1[at], Energy(ltpbuf, ltpbufLen - lagSubfrlen - minpitch - (offset + i), lagSubfrlen))
    ensures Placed(e1, ltpbuf, ltpbufLen, numsubfrs, minpitch, maxpitch, lagSubfrlen, sf, i)
  {
    hide Times, Energy;
  }

  ghost predicate Placed(e1: seq<real>, ltpbuf: seq<real>, ltpbufLen: nat, numsubfrs: nat, minpitch: nat, maxpitch: nat,
                         lagSubfrlen: nat, sf: nat, i: nat) {
    var at := Times(sf, maxpitch - minpitch + 1) + i;
    var start := SubframeStart(ltpbufLen, numsubfrs, lagSubfrlen, sf) - (minpitch + i);
    && 0 <= at < |e1| && 0 <= start && start + lagSubfrlen <= |ltpbuf|
    && Near(e1[at], Energy(ltpbuf, start, lagSubfrlen))
  }

  lemma RowFits(sf: nat, n: nat, numlags: nat)
    requires sf < n
    ensures 0 <= Times(sf, numlags) && Times(sf, numlags) + numlags <= Times(n, numlags)
  {
    TimesNext(sf, numlags);
    TimesOrder(sf + 1, n, numlags);
    TimesOrder(0, sf, numlags);
    TimesNext(0, numlags);
  }

  lemma RowBefore(s: nat, sf: nat, numlags: nat)
    requires s < sf
    ensures Times(s, numlags) + numlags <= Times(sf, numlags)
  {
    RowFits(s, sf, numlags);
  }

  lemma OffsetFits(sf: nat, n: nat, len: nat)
    requires sf < n
    ensures 0 <= Times(n - 1 - sf, len) <= Times(n - 1, len)
  {
    TimesOrder(0, n - 1 - sf, len);
    TimesOrder(n - 1 - sf, n - 1, len);
    TimesNext(0, len);
  }

  lemma OffsetIs(sf: nat, n: nat, len: nat)
    requires sf < n
    ensures Times(n - sf, len) == Times(n - 1 - sf, len) + len
  {
    TimesNext(n - 1 - sf, len);
  }
}
