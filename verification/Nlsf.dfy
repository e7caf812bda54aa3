/** Spacing repair of line spectral frequencies over the reals: margins are moved, never created or lost. */
module Nlsf {

  const ORDER := 16
  const PI: real := 3.1415927410125
  const EPS: real := 0.00000095367431640625
  const MAX_LOOP := 1000

  /** Gap i of the frequencies: from zero, between neighbours, and up to pi. */
  function Gap(nlsf: seq<real>, i: nat): real
    requires |nlsf| == ORDER && i <= ORDER
  {
    if i == 0 then nlsf[0] else if i < ORDER then nlsf[i] - nlsf[i - 1] else PI - nlsf[ORDER - 1]
  }

  ghost predicate Spaced(nlsf: seq<real>, spacing: seq<real>)
    requires |nlsf| == ORDER && |spacing| == ORDER + 1
  {
    forall i :: 0 <= i <= ORDER ==> Gap(nlsf, i) >= spacing[i]
  }

  function Sum(s: seq<real>): real {
    if s == [] then 0.0 else Sum(s[..|s| - 1]) + s[|s| - 1]
  }

  lemma SumPush(s: seq<real>, i: nat)
    requires i < |s|
    ensures Sum(s[..i + 1]) == Sum(s[..i]) + s[i]
  {
    assert s[..i + 1][..i] == s[..i];
  }

  lemma {:induction false} SumUpdate(s: seq<real>, i: nat, v: real)
    requires i < |s|
    ensures Sum(s[i := v]) == Sum(s) - s[i] + v
  {
    var init := s[..|s| - 1];
    if i == |s| - 1 {
      assert s[i := v][..|s| - 1] == init;
    } else {
      SumUpdate(init, i, v);
      assert s[i := v][..|s| - 1] == init[i := v];
    }
  }

  lemma {:induction false} GapsTelescope(nlsf: seq<real>, spacing: seq<real>, k: nat)
    requires |nlsf| == ORDER && |spacing| == ORDER + 1 && 1 <= k <= ORDER && Spaced(nlsf, spacing)
    ensures Sum(spacing[..k]) <= nlsf[k - 1]
  {
    SumPush(spacing, k - 1);
    assert Gap(nlsf, k - 1) >= spacing[k - 1];
    if k > 1 {
      GapsTelescope(nlsf, spacing, k - 1);
    } else {
      assert spacing[..0] == [];
    }
  }

  /** Only spacings that fit below pi can be met at all. */
  lemma SpacedFits(nlsf: seq<real>, spacing: seq<real>)
    requires |nlsf| == ORDER && |spacing| == ORDER + 1 && Spaced(nlsf, spacing)
    ensures Sum(spacing) <= PI
  {
    GapsTelescope(nlsf, spacing, ORDER);
    SumPush(spacing, ORDER);
    assert spacing[..ORDER + 1] == spacing;
    assert Gap(nlsf, ORDER) >= spacing[ORDER];
  }

  /** Spaced frequencies with positive spacings rise strictly between zero and pi. */
  lemma {:induction false} SpacedRises(nlsf: seq<real>, spacing: seq<real>, i: nat, j: nat)
    requires |nlsf| == ORDER && |spacing| == ORDER + 1 && Spaced(nlsf, spacing) && i < j < ORDER
    requires forall k :: 0 <= k <= ORDER ==> spacing[k] > 0.0
    ensures nlsf[i] < nlsf[j] && 0.0 < nlsf[0] && nlsf[ORDER - 1] < PI
  {
    assert Gap(nlsf, 0) >= spacing[0] && Gap(nlsf, ORDER) >= spacing[ORDER] && Gap(nlsf, j) >= spacing[j];
    if i < j - 1 {
      SpacedRises(nlsf, spacing, i, j - 1);
    }
  }

  lemma NoSum()
    ensures Sum([]) == 0.0
  {
  }

  method Margins(nlsf: array<real>, minSpacing: seq<real>) returns (marg: array<real>)
    requires nlsf.Length == ORDER && |minSpacing| == ORDER + 1
    ensures fresh(marg) && marg.Length == ORDER + 1
    ensures forall i :: 0 <= i <= ORDER ==> marg[i] == Gap(nlsf[..], i) - minSpacing[i]
    ensures Sum(marg[..]) == PI - Sum(minSpacing)
  {
    hide Sum;
    NoSum();
    marg := new real[ORDER + 1];
    marg[0] := nlsf[0] - minSpacing[0];
    assert marg[..1] == [marg[0]] && minSpacing[..1] == [minSpacing[0]];
    SumPush(minSpacing, 0);
    SumPush(marg[..], 0);
    assert marg[..][..1] == marg[..1] && marg[..][..0] == [] && minSpacing[..0] == [];
    for i := 1 to ORDER
      invariant forall j :: 0 <= j < i ==> marg[j] == Gap(nlsf[..], j) - minSpacing[j]
      invariant Sum(marg[..i]) == nlsf[i - 1] - Sum(minSpacing[..i])
    {
      ghost var before := marg[..i];
      marg[i] := nlsf[i] - nlsf[i - 1] - minSpacing[i];
      SumPush(minSpacing, i);
      SumPush(marg[..], i);
      assert marg[..][..i] == before && marg[..][..i + 1] == marg[..i + 1];
    }
    ghost var before := marg[..ORDER];
    marg[ORDER] := PI - nlsf[ORDER - 1] - minSpacing[ORDER];
    SumPush(minSpacing, ORDER);
    SumPush(marg[..], ORDER);
    assert marg[..][..ORDER] == before && marg[..][..ORDER + 1] == marg[..] && minSpacing[..ORDER + 1] == minSpacing;
  }

  /** The first smallest margin. */
  method ArgMin(marg: array<real>) returns (m: real, idx: nat)
    requires marg.Length == ORDER + 1
    ensures idx <= ORDER && m == marg[idx]
    ensures forall i :: 0 <= i <= ORDER ==> m <= marg[i]
    ensures forall i :: 0 <= i < idx ==> m < marg[i]
  {
    m, idx := marg[0], 0;
    for i := 1 to ORDER + 1
      invariant idx < i && m == marg[idx]
      invariant forall j :: 0 <= j < i ==> m <= marg[j]
      invariant forall j :: 0 <= j < idx ==> m < marg[j]
    {
      if marg[i] < m {
        m := marg[i];
        idx := i;
      }
    }
  }

  /** Raises one margin at its neighbours' expense. */
  method Move(marg: array<real>, sel: nat, d: real)
    requires marg.Length == ORDER + 1 && sel <= ORDER
    modifies marg
    ensures Sum(marg[..]) == old(Sum(marg[..]))
    ensures marg[sel] == old(marg[sel]) + d
    ensures forall i :: 0 <= i <= ORDER && !(sel - 1 <= i <= sel + 1) ==> marg[i] == old(marg[i])
    ensures 0 < sel < ORDER ==>
      marg[sel - 1] == old(marg[sel - 1]) - d * 0.5 && marg[sel + 1] == old(marg[sel + 1]) - d * 0.5
    ensures sel == 0 ==> marg[1] == old(marg[1]) - d
    ensures sel == ORDER ==> marg[ORDER - 1] == old(marg[ORDER - 1]) - d
  {
    if sel == 0 {
      Add(marg, 0, d);
      Add(marg, 1, -d);
    } else if sel == ORDER {
      Add(marg, ORDER, d);
      Add(marg, ORDER - 1, -d);
    } else {
      Add(marg, sel, d);
      var half := d * 0.5;
      Add(marg, sel - 1, -half);
      Add(marg, sel + 1, -half);
    }
  }

  method Add(marg: array<real>, i: nat, d: real)
    requires i < marg.Length
    modifies marg
    ensures marg[..] == old(marg[..])[i := old(marg[i]) + d]
    ensures Sum(marg[..]) == old(Sum(marg[..])) + d
  {
    SumUpdate(marg[..], i, marg[i] + d);
    marg[i] := marg[i] + d;
    assert marg[..] == old(marg[..])[i := old(marg[i]) + d];
  }

  // ---- One margin short ----

  /** How much of a lifted margin each neighbour pays: all of it at either end, half of it inside. */
  function Payment(s: nat): (p: real)
    requires s <= ORDER
    ensures 0.0 < p
  {
    if s == 0 || s == ORDER then 1.0 else 0.5
  }

  /** Margin s alone is negative and its neighbours can pay for it. */
  ghost predicate OneShort(m: seq<real>, s: nat)
    requires |m| == ORDER + 1 && s <= ORDER
  {
    && m[s] < 0.0
    && (forall i :: 0 <= i <= ORDER && i != s ==> m[i] >= 0.0)
    && (forall i :: 0 <= i <= ORDER && (i == s - 1 || i == s + 1) ==> m[i] + m[s] * Payment(s) >= 0.0)
  }

  /** Margin s stands at zero, its neighbours lost what it gained, and the others are as they were. */
  ghost predicate Lifted(was: seq<real>, now: seq<real>, s: nat)
    requires |was| == |now| == ORDER + 1 && s <= ORDER
  {
    && now[s] == 0.0
    && (forall i :: 0 <= i <= ORDER && !(s - 1 <= i <= s + 1) ==> now[i] == was[i])
    && (forall i :: 0 <= i <= ORDER && (i == s - 1 || i == s + 1) ==> now[i] == was[i] + was[s] * Payment(s))
  }

  lemma LiftedSettles(was: seq<real>, now: seq<real>, s: nat)
    requires |was| == |now| == ORDER + 1 && s <= ORDER && OneShort(was, s) && Lifted(was, now, s)
    ensures forall i :: 0 <= i <= ORDER ==> now[i] >= 0.0
  {
    forall i | 0 <= i <= ORDER
      ensures now[i] >= 0.0
    {
      if i == s - 1 || i == s + 1 {
        assert now[i] == was[i] + was[s] * Payment(s);
      } else if i != s {
        assert now[i] == was[i];
      }
    }
  }

  /**
   * Up to a thousand passes; settled when the last one left no margin negative. Pass p leaves the margin it
   * raised at p - 1 times the small step above zero, and only a run of all thousand passes gives up. A single
   * negative margin whose neighbours can pay is brought to exactly zero, in one pass.
   */
  method Repair(marg: array<real>) returns (settled: bool, ghost passes: nat, ghost raised: nat)
    requires marg.Length == ORDER + 1
    modifies marg
    ensures Sum(marg[..]) == old(Sum(marg[..]))
    ensures settled <==> forall i :: 0 <= i <= ORDER ==> marg[i] >= 0.0
    ensures passes == 0 <==> forall i :: 0 <= i <= ORDER ==> old(marg[i]) >= 0.0
    ensures passes == 0 ==> marg[..] == old(marg[..])
    ensures passes <= MAX_LOOP && (!settled ==> passes == MAX_LOOP)
    ensures passes > 0 ==> raised <= ORDER && marg[raised] == (passes - 1) as real * EPS
    ensures forall s :: 0 <= s <= ORDER && OneShort(old(marg[..]), s) ==>
      settled && passes == 1 && Lifted(old(marg[..]), marg[..], s)
  {
    hide Sum;
    ghost var was := marg[..];
    var min, sel := ArgMin(marg);
    var loopN := 0;
    passes, raised := 0, 0;
    while min < 0.0
      invariant 0 <= loopN < MAX_LOOP && 0 <= sel <= ORDER && min == marg[sel]
      invariant forall i :: 0 <= i <= ORDER ==> min <= marg[i]
      invariant Sum(marg[..]) == Sum(was)
      invariant passes == 0 ==> loopN == 0 && marg[..] == was
      invariant passes > 0 ==> !(forall i :: 0 <= i <= ORDER ==> was[i] >= 0.0)
      invariant passes == if min < 0.0 then loopN else if passes == 0 then 0 else loopN + 1
      invariant passes > 0 ==> raised <= ORDER && marg[raised] == (passes - 1) as real * EPS
      invariant passes > 0 ==> forall s :: 0 <= s <= ORDER && OneShort(was, s) ==>
        passes == 1 && min >= 0.0 && Lifted(was, marg[..], s)
      decreases MAX_LOOP - loopN, min < 0.0
    {
      ghost var before := marg[..];
      assert before[sel] < 0.0;
      var d := loopN as real * EPS - min;
      Move(marg, sel, d);
      passes, raised := passes + 1, sel;
      forall s | 0 <= s <= ORDER && OneShort(was, s)
        ensures passes == 1 && Lifted(was, marg[..], s)
      {
        assert before == was && sel == s;
      }
      min, sel := ArgMin(marg);
      forall s | 0 <= s <= ORDER && OneShort(was, s)
        ensures min >= 0.0
      {
        LiftedSettles(was, marg[..], s);
      }
      if min < 0.0 {
        loopN := loopN + 1;
        if loopN == MAX_LOOP {
          break;
        }
      }
    }
    settled := min >= 0.0;
  }

  /** Only gap s is below its minimum, and the gaps beside it can pay for it. */
  ghost predicate GapShort(nlsf: seq<real>, spacing: seq<real>, s: nat)
    requires |nlsf| == ORDER && |spacing| == ORDER + 1 && s <= ORDER
  {
    var need := spacing[s] - Gap(nlsf, s);
    && need > 0.0
    && (forall i :: 0 <= i <= ORDER && i != s ==> Gap(nlsf, i) >= spacing[i])
    && (forall i :: 0 <= i <= ORDER && (i == s - 1 || i == s + 1) ==> Gap(nlsf, i) - spacing[i] >= need * Payment(s))
  }

  /**
   * Gap s stands at exactly its minimum, and only the frequencies on its two sides moved: by the same amount
   * in opposite directions when there are two.
   */
  ghost predicate Opened(was: seq<real>, now: seq<real>, spacing: seq<real>, s: nat)
    requires |was| == |now| == ORDER && |spacing| == ORDER + 1 && s <= ORDER
  {
    && Gap(now, s) == spacing[s]
    && (forall i :: 0 <= i < ORDER && i != s - 1 && i != s ==> now[i] == was[i])
    && (0 < s < ORDER ==> now[s] - was[s] == was[s - 1] - now[s - 1])
  }

  lemma LiftedOpens(was: seq<real>, now: seq<real>, spacing: seq<real>, m: seq<real>, n: seq<real>, s: nat)
    requires |was| == |now| == ORDER && |spacing| == |m| == |n| == ORDER + 1 && s <= ORDER && Lifted(m, n, s)
    requires forall i :: 0 <= i <= ORDER ==> Gap(was, i) == spacing[i] + m[i] && Gap(now, i) == spacing[i] + n[i]
    ensures Opened(was, now, spacing, s)
  {
    assert Gap(now, s) == spacing[s];
    assert Gap(was, s) == spacing[s] + m[s];
    Shift(was, now, spacing, m, n, s, 0);
    forall i | 0 <= i < ORDER && i != s - 1 && i != s
      ensures now[i] == was[i]
    {
      Shift(was, now, spacing, m, n, s, i);
    }
    if s > 0 {
      Shift(was, now, spacing, m, n, s, s - 1);
    }
    if s < ORDER {
      Shift(was, now, spacing, m, n, s, s);
    }
  }

  /** How far each frequency moved. */
  lemma {:induction false} Shift(was: seq<real>, now: seq<real>, spacing: seq<real>, m: seq<real>, n: seq<real>,
                                 s: nat, i: nat)
    requires |was| == |now| == ORDER && |spacing| == |m| == |n| == ORDER + 1 && s <= ORDER && i < ORDER
    requires Lifted(m, n, s)
    requires forall j :: 0 <= j <= ORDER ==> Gap(was, j) == spacing[j] + m[j] && Gap(now, j) == spacing[j] + n[j]
    ensures s == 0 || s == ORDER ==> now[i] - was[i] == if i == s then -m[s] else if i == s - 1 then m[s] else 0.0
    ensures 0 < s < ORDER ==>
      now[i] - was[i] == if i == s - 1 then m[s] * 0.5 else if i == s then -(m[s] * 0.5) else 0.0
  {
    assert Gap(was, i) == spacing[i] + m[i] && Gap(now, i) == spacing[i] + n[i];
    if i > 0 {
      Shift(was, now, spacing, m, n, s, i - 1);
    }
  }

  /**
   * When the repair settles, every gap is at least its minimum, the ones at both ends included; it settles
   * exactly when the result is spaced; an input already spaced is unchanged; and a single short gap with room
   * on its sides is opened to exactly its minimum, evenly.
   */
  method StabilizeNLSF(nlsf: array<real>, minSpacing: seq<real>) returns (settled: bool)
    requires nlsf.Length == ORDER && |minSpacing| == ORDER + 1
    modifies nlsf
    ensures settled <==> Spaced(nlsf[..], minSpacing)
    ensures Spaced(old(nlsf[..]), minSpacing) ==> settled && nlsf[..] == old(nlsf[..])
    ensures forall s :: 0 <= s <= ORDER && GapShort(old(nlsf[..]), minSpacing, s) ==>
      settled && Opened(old(nlsf[..]), nlsf[..], minSpacing, s)
  {
    hide Sum;
    var marg := Margins(nlsf, minSpacing);
    ghost var was, first := nlsf[..], marg[..];
    ghost var passes, raised;
    settled, passes, raised := Repair(marg);
    Rebuild(nlsf, marg, minSpacing);
    if Spaced(was, minSpacing) {
      assert forall i :: 0 <= i <= ORDER ==> Gap(was, i) >= minSpacing[i];
      assert marg[..] == first;
      assert forall i :: 0 <= i <= ORDER ==> Gap(nlsf[..], i) == Gap(was, i);
      SameGaps(nlsf[..], was, ORDER - 1);
    }
    ghost var last := marg[..];
    forall s | 0 <= s <= ORDER && GapShort(was, minSpacing, s)
      ensures settled && Opened(was, nlsf[..], minSpacing, s)
    {
      ShortMargin(was, minSpacing, first, s);
      LiftedOpens(was, nlsf[..], minSpacing, first, last, s);
    }
  }

  lemma ShortMargin(nlsf: seq<real>, spacing: seq<real>, m: seq<real>, s: nat)
    requires |nlsf| == ORDER && |spacing| == |m| == ORDER + 1 && s <= ORDER && GapShort(nlsf, spacing, s)
    requires forall i :: 0 <= i <= ORDER ==> m[i] == Gap(nlsf, i) - spacing[i]
    ensures OneShort(m, s)
  {
    hide Payment;
    assert m[s] == -(spacing[s] - Gap(nlsf, s));
    forall i | 0 <= i <= ORDER && (i == s - 1 || i == s + 1)
      ensures m[i] + m[s] * Payment(s) >= 0.0
    {
      assert m[i] == Gap(nlsf, i) - spacing[i];
      assert m[s] * Payment(s) == -((spacing[s] - Gap(nlsf, s)) * Payment(s));
    }
    forall i | 0 <= i <= ORDER && i != s
      ensures m[i] >= 0.0
    {
      assert m[i] == Gap(nlsf, i) - spacing[i];
    }
  }

  lemma {:induction false} SameGaps(a: seq<real>, b: seq<real>, k: nat)
    requires |a| == |b| == ORDER && k < ORDER && forall i :: 0 <= i <= ORDER ==> Gap(a, i) == Gap(b, i)
    ensures a[..k + 1] == b[..k + 1]
  {
    assert Gap(a, k) == Gap(b, k);
    if k > 0 {
      SameGaps(a, b, k - 1);
      assert a[..k][k - 1] == b[..k][k - 1];
      assert a[..k + 1] == a[..k] + [a[k]] && b[..k + 1] == b[..k] + [b[k]];
    }
  }

  /** The frequencies whose gaps are the spacings plus the margins. */
  method Rebuild(nlsf: array<real>, marg: array<real>, minSpacing: seq<real>)
    requires nlsf != marg && nlsf.Length == ORDER && marg.Length == ORDER + 1 && |minSpacing| == ORDER + 1
    requires Sum(marg[..]) == PI - Sum(minSpacing)
    modifies nlsf
    ensures forall i :: 0 <= i <= ORDER ==> Gap(nlsf[..], i) == minSpacing[i] + marg[i]
  {
    nlsf[0] := minSpacing[0] + marg[0];
    var run := nlsf[0];
    ghost var m := marg[..];
    SumPush(m, 0);
    SumPush(minSpacing, 0);
    assert m[..0] == [] && minSpacing[..0] == [];
    for i := 1 to ORDER
      invariant marg[..] == m && run == nlsf[i - 1] == Sum(m[..i]) + Sum(minSpacing[..i])
      invariant forall j :: 0 <= j < i ==> Gap(nlsf[..], j) == minSpacing[j] + marg[j]
    {
      ghost var before := nlsf[..];
      SumPush(m, i);
      SumPush(minSpacing, i);
      run := run + marg[i] + minSpacing[i];
      nlsf[i] := run;
      assert forall j :: 0 <= j < i ==> Gap(nlsf[..], j) == Gap(before, j);
    }
    SumPush(m, ORDER);
    SumPush(minSpacing, ORDER);
    assert m[..ORDER + 1] == m && minSpacing[..ORDER + 1] == minSpacing;
  }
}
