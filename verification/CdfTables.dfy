/** The integer builders that turn weight lists into the cumulative tables the coder uses. */
module CdfTables {
  import opened Arith
  import opened RangeSpec

  const FULL: nat := 32767

  function Sum(ws: seq<nat>, k: nat): nat
    requires k <= |ws|
  {
    if k == 0 then 0 else Sum(ws, k - 1) + ws[k - 1]
  }

  /** floor(w * m / s), the builders' truncating division; NextEntry shows the product fits 32 bits. */
  function Share(w: nat, m: nat, s: nat): nat
    requires s > 0
  {
    DivAtMost(w * m, s);
    w * m / s
  }

  /** Entry k of the table for weights ws: each weight keeps its share of 32767 - n, plus one. */
  function Entry(ws: seq<nat>, k: nat): nat
    requires k <= |ws| < FULL && (ws != [] ==> Sum(ws, |ws|) > 0)
  {
    if k == 0 then 0 else Entry(ws, k - 1) + Share(ws[k - 1], FULL - |ws|, Sum(ws, |ws|)) + 1
  }

  lemma EntryZero(ws: seq<nat>)
    requires |ws| < FULL && (ws != [] ==> Sum(ws, |ws|) > 0)
    ensures Entry(ws, 0) == 0
  {
  }

  /** Each entry is its exact share of 32767 - n plus k, rounded down by less than k. */
  lemma {:induction false} EntryShare(ws: seq<nat>, k: nat)
    requires k <= |ws| < FULL && 0 < Sum(ws, |ws|)
    ensures Entry(ws, k) >= k
    ensures Sum(ws, |ws|) * (Entry(ws, k) - k) <= Sum(ws, k) * (FULL - |ws|)
    ensures Sum(ws, k) * (FULL - |ws|) <= Sum(ws, |ws|) * (Entry(ws, k) - k) + k * (Sum(ws, |ws|) - 1)
  {
    hide Share;
    if k > 0 {
      EntryShare(ws, k - 1);
      ShareStep(Sum(ws, |ws|), FULL - |ws|, Sum(ws, k - 1), ws[k - 1], Entry(ws, k - 1), k - 1);
    }
  }

  lemma ShareStep(s: nat, m: nat, p: nat, w: nat, e: nat, k: nat)
    requires s > 0 && e >= k
    requires s * (e - k) <= p * m <= s * (e - k) + k * (s - 1)
    ensures s * (e + Share(w, m, s) + 1 - (k + 1)) <= (p + w) * m
    ensures (p + w) * m <= s * (e + Share(w, m, s) + 1 - (k + 1)) + (k + 1) * (s - 1)
  {
    var q := Share(w, m, s);
    DivAtMost(w * m, s);
    assert (p + w) * m == p * m + w * m;
    assert s * (e - k + q) == s * (e - k) + q * s;
    assert (k + 1) * (s - 1) == k * (s - 1) + (s - 1);
  }

  lemma {:induction false} EntryGrows(ws: seq<nat>, i: nat, j: nat)
    requires i < j <= |ws| < FULL && 0 < Sum(ws, |ws|)
    ensures Entry(ws, i) < Entry(ws, j)
  {
    hide Share;
    if i < j - 1 {
      EntryGrows(ws, i, j - 1);
    }
  }

  /** The total lies within n of 32767, so every entry fits sixteen bits. */
  lemma EntryTotal(ws: seq<nat>)
    requires 0 < |ws| < FULL && 0 < Sum(ws, |ws|)
    ensures FULL - |ws| < Entry(ws, |ws|) <= FULL
  {
    EntryShare(ws, |ws|);
    TotalBound(Sum(ws, |ws|), FULL - |ws|, Entry(ws, |ws|), |ws|);
  }

  lemma TotalBound(s: nat, m: nat, e: nat, n: nat)
    requires s > 0 && n > 0 && e >= n
    requires s * (e - n) <= s * m <= s * (e - n) + n * (s - 1)
    ensures m < e <= m + n
  {
    assert n * (s - 1) == s * n - n;
    assert s * (e - n) == s * e - s * n;
    assert s * (m + 1) == s * m + s;
    if e <= m {
      MulOrder(s, e, m);
    }
    if e - n > m {
      MulOrder(s, m + 1, e - n);
    }
  }

  function Table(ws: seq<nat>): (t: seq<nat>)
    requires |ws| < FULL && (ws != [] ==> Sum(ws, |ws|) > 0)
  {
    seq(|ws| + 1, k requires 0 <= k <= |ws| => Entry(ws, k))
  }

  predicate Words(t: seq<nat>) {
    forall i :: 0 <= i < |t| ==> t[i] < 0x1_0000
  }

  /** Every table is a valid cumulative table of the range coder: from 0, strictly rising, at most 32767. */
  lemma TableShape(ws: seq<nat>)
    requires 0 < |ws| < FULL && Sum(ws, |ws|) > 0
    ensures var t := Table(ws);
            && t[0] == 0 && FULL - |ws| < t[|ws|] <= FULL
            && (forall i, j :: 0 <= i < j < |t| ==> t[i] < t[j])
            && Words(t) && Strict(t)
  {
    var t := Table(ws);
    forall i, j | 0 <= i < j < |t|
      ensures t[i] < t[j]
    {
      EntryGrows(ws, i, j);
    }
    EntryTotal(ws);
    forall i | 0 <= i < |t|
      ensures t[i] <= FULL
    {
      if i < |ws| {
        EntryGrows(ws, i, |ws|);
      }
    }
  }

  // ---- Delta-coded weights ----

  function Weight(b: byte): nat {
    Min((b + 1) * (b + 1), 65535)
  }

  /** A coded byte stands for the square of its successor: one unit more adds the next odd number, up to the cap. */
  lemma WeightGrows(b: byte)
    ensures Weight(0) == 1 && Weight(255) == 0xFFFF
    ensures b < 254 ==> Weight(b + 1) == Weight(b) + 2 * b + 3
  {
    if b < 254 {
      var next := b + 2;
      assert next * next == (b + 1) * (b + 1) + 2 * b + 3;
      MulOrder(next, next, 255);
      MulOrder(255, next, 255);
      MulOrder(b + 1, b + 1, 255);
      MulOrder(255, b + 1, 255);
    }
  }

  function Weights(dcmf: seq<byte>): (ws: seq<nat>)
    ensures |ws| == |dcmf|
    ensures forall i :: 0 <= i < |ws| ==> ws[i] == Weight(dcmf[i])
  {
    seq(|dcmf|, i requires 0 <= i < |dcmf| => Weight(dcmf[i]))
  }

  lemma WeightRange(b: byte)
    ensures 1 <= Weight(b) <= 65535
  {
    assert (b + 1) * (b + 1) >= 1;
  }

  lemma {:induction false} WeightSum(dcmf: seq<byte>, k: nat)
    requires k <= |dcmf|
    ensures k <= Sum(Weights(dcmf), k) <= 65535 * k
  {
    if k > 0 {
      WeightSum(dcmf, k - 1);
      WeightRange(dcmf[k - 1]);
    }
  }

  function DcmfTable(dcmf: seq<byte>): seq<nat>
    requires |dcmf| < FULL
  {
    WeightSum(dcmf, |dcmf|);
    Table(Weights(dcmf))
  }

  /** One step of any builder: nothing leaves 32 bits, and the entry fits sixteen. */
  lemma NextEntry(dcmf: seq<byte>, n: nat, w: nat, prev: nat, sum: nat)
    requires 1 <= n <= |dcmf| < FULL
    requires sum == Sum(Weights(dcmf), |dcmf|) && w == Weights(dcmf)[n - 1]
    requires sum > 0 && prev == Entry(Weights(dcmf), n - 1)
    ensures 0 <= w * (32767 - |dcmf|) < 0x8000_0000
    ensures prev + Share(w, 32767 - |dcmf|, sum) + 1 == Entry(Weights(dcmf), n) <= FULL
  {
    var ws := Weights(dcmf);
    WeightRange(dcmf[n - 1]);
    MulOrder(w, 0, FULL - |ws|);
    MulOrder(w, FULL - |ws|, FULL - 1);
    EntryTotal(ws);
    if n < |ws| {
      EntryGrows(ws, n, |ws|);
    }
  }

  /** The running sum of squares stays inside 32 bits. */
  lemma NextWeight(dcmf: seq<byte>, n: nat)
    requires n < |dcmf| < FULL
    ensures Sum(Weights(dcmf), n + 1) == Sum(Weights(dcmf), n) + Weight(dcmf[n]) < 0x8000_0000
    ensures 0 < (dcmf[n] as int + 1) * (dcmf[n] as int + 1) <= 65536
  {
    WeightSum(dcmf, n + 1);
    var b: int := dcmf[n];
    MulOrder(b + 1, 1, b + 1);
    MulOrder(b + 1, b + 1, 256);
  }

  lemma IsTable(dcmf: seq<byte>, t: seq<nat>)
    requires |dcmf| < FULL && |t| == |dcmf| + 1
    requires (dcmf != [] ==> Sum(Weights(dcmf), |dcmf|) > 0)
    requires forall j :: 0 <= j < |t| ==> t[j] == Entry(Weights(dcmf), j)
    ensures t == DcmfTable(dcmf)
  {
  }

  // ---- The three builders of delta-coded tables ----

  /** The first loop of the sixteen-bit builders: clipped weights one place up, and their sum in 32 bits. */
  method ExpandWeights(dcmf: seq<byte>, cmf: array<uint16>) returns (sum: int32)
    requires |dcmf| < FULL && cmf.Length >= |dcmf| + 1
    modifies cmf
    ensures sum == Sum(Weights(dcmf), |dcmf|)
    ensures forall j :: 1 <= j <= |dcmf| ==> cmf[j] == Weights(dcmf)[j - 1]
    ensures cmf[|dcmf| + 1..] == old(cmf[|dcmf| + 1..])
  {
    sum := 0;
    for n := 0 to |dcmf|
      invariant sum == Sum(Weights(dcmf), n) && cmf[|dcmf| + 1..] == old(cmf[|dcmf| + 1..])
      invariant forall j :: 0 <= j < n ==> cmf[j + 1] == Weight(dcmf[j])
    {
      NextWeight(dcmf, n);
      var tmp: int32 := dcmf[n] as int + 1;
      tmp := tmp * tmp;
      if tmp > 65535 {
        tmp := 65535;
      }
      cmf[n + 1] := tmp;
      sum := sum + tmp;
    }
  }

  /** The CELP builder: weights and table share the caller's sixteen-bit buffer, sums are 32-bit. */
  method CelpDcmfToCmf(dcmf: seq<byte>, cmf: array<uint16>)
    requires |dcmf| < FULL && cmf.Length >= |dcmf| + 1
    modifies cmf
    ensures cmf[..|dcmf| + 1] == DcmfTable(dcmf)
    ensures cmf[|dcmf| + 1..] == old(cmf[|dcmf| + 1..])
  {
    hide Entry, Sum, Weight, Share, DcmfTable;
    var len := |dcmf|;
    var sum := ExpandWeights(dcmf, cmf);
    ghost var ws := Weights(dcmf);
    WeightSum(dcmf, len);
    EntryZero(ws);
    cmf[0] := 0;
    for n := 1 to len + 1
      invariant cmf[len + 1..] == old(cmf[len + 1..])
      invariant forall j :: 0 <= j < n ==> cmf[j] == Entry(ws, j)
      invariant forall j :: n <= j <= len ==> cmf[j] == ws[j - 1]
    {
      NextEntry(dcmf, n, cmf[n], cmf[n - 1], sum);
      cmf[n] := cmf[n - 1] + Share(cmf[n], 32767 - len, sum) + 1;
    }
    IsTable(dcmf, cmf[..len + 1]);
  }

  method ExpandWide(dcmf: seq<byte>, cmf: array<uint32>) returns (sum: nat)
    requires |dcmf| < FULL && cmf.Length == |dcmf| + 1
    modifies cmf
    ensures sum == Sum(Weights(dcmf), |dcmf|)
    ensures forall j :: 1 <= j <= |dcmf| ==> cmf[j] == Weights(dcmf)[j - 1]
  {
    sum := 0;
    for i := 0 to |dcmf|
      invariant sum == Sum(Weights(dcmf), i)
      invariant forall j :: 0 <= j < i ==> cmf[j + 1] == Weight(dcmf[j])
    {
      NextWeight(dcmf, i);
      var tmp: int32 := dcmf[i] as int + 1;
      tmp := tmp * tmp;
      if tmp > 65535 {
        tmp := 65535;
      }
      cmf[i + 1] := tmp;
      sum := sum + tmp;
    }
  }

  /** The pitch builder: the same steps in fresh 32-bit entries. */
  method PitchDcmfToCmf(dcmf: seq<byte>) returns (cmf: array<uint32>)
    requires |dcmf| < FULL
    ensures fresh(cmf) && cmf[..] == DcmfTable(dcmf)
  {
    hide Entry, Sum, Weight, Share, DcmfTable;
    var n := |dcmf|;
    cmf := new uint32[n + 1];
    var sum := ExpandWide(dcmf, cmf);
    ghost var ws := Weights(dcmf);
    WeightSum(dcmf, n);
    EntryZero(ws);
    cmf[0] := 0;
    for i := 1 to n + 1
      invariant forall j :: 0 <= j < i ==> cmf[j] == Entry(ws, j)
      invariant forall j :: i <= j <= n ==> cmf[j] == ws[j - 1]
    {
      NextEntry(dcmf, i, cmf[i], cmf[i - 1], sum);
      var prev := cmf[i - 1];
      cmf[i] := prev + Share(cmf[i], 32767 - n, sum) + 1;
    }
    IsTable(dcmf, cmf[..]);
  }

  /** The LSF builder: fresh sixteen-bit entries. */
  method LsfDcmfToCmf(dcmf: seq<byte>) returns (cmf: array<uint16>)
    requires |dcmf| < FULL
    ensures fresh(cmf) && cmf[..] == DcmfTable(dcmf)
  {
    hide Entry, Sum, Weight, Share, DcmfTable;
    var n := |dcmf|;
    cmf := new uint16[n + 1];
    var sum := ExpandWeights(dcmf, cmf);
    ghost var ws := Weights(dcmf);
    WeightSum(dcmf, n);
    EntryZero(ws);
    cmf[0] := 0;
    for i := 1 to n + 1
      invariant forall j :: 0 <= j < i ==> cmf[j] == Entry(ws, j)
      invariant forall j :: i <= j <= n ==> cmf[j] == ws[j - 1]
    {
      NextEntry(dcmf, i, cmf[i], cmf[i - 1], sum);
      var prev := cmf[i - 1];
      cmf[i] := prev + Share(cmf[i], 32767 - n, sum) + 1;
    }
    IsTable(dcmf, cmf[..]);
  }

  // ---- Probability tables ----

  predicate NonNegative(pdf: seq<int32>) {
    forall i :: 0 <= i < |pdf| ==> pdf[i] >= 0
  }

  function Counts(pdf: seq<int32>): (ws: seq<nat>)
    requires NonNegative(pdf)
    ensures |ws| == |pdf| && forall i :: 0 <= i < |ws| ==> ws[i] == pdf[i]
  {
    seq(|pdf|, i requires 0 <= i < |pdf| => pdf[i] as nat)
  }

  /** The normalising builder for signed weights: for non-negative ones it is the same table. */
  method PdfToCmf(pdf: seq<int32>) returns (cmf: array<uint16>)
    requires |pdf| < FULL && NonNegative(pdf)
    requires pdf != [] ==> Sum(Counts(pdf), |pdf|) > 0
    ensures fresh(cmf) && cmf[..] == Table(Counts(pdf))
  {
    hide Entry, Sum, Share, Table, Counts;
    var sump := SumAll(pdf);
    EntryZero(Counts(pdf));
    cmf := new uint16[|pdf| + 1](_ => 0);
    for i := 0 to |pdf|
      invariant forall j :: 0 <= j <= i ==> cmf[j] == Entry(Counts(pdf), j)
    {
      NextCount(pdf, i);
      var p := Share(pdf[i], 32767 - |pdf|, sump) + 1;
      cmf[i + 1] := cmf[i] + p;
    }
    IsCountTable(pdf, cmf[..]);
  }

  method SumAll(pdf: seq<int32>) returns (sump: int)
    requires NonNegative(pdf)
    ensures sump == Sum(Counts(pdf), |pdf|)
  {
    sump := 0;
    for i := 0 to |pdf|
      invariant sump == Sum(Counts(pdf), i)
    {
      sump := sump + pdf[i] as int;
    }
  }

  lemma IsCountTable(pdf: seq<int32>, t: seq<nat>)
    requires |pdf| < FULL && NonNegative(pdf) && |t| == |pdf| + 1
    requires pdf != [] ==> Sum(Counts(pdf), |pdf|) > 0
    requires forall j :: 0 <= j < |t| ==> t[j] == Entry(Counts(pdf), j)
    ensures t == Table(Counts(pdf))
  {
  }

  lemma NextCount(pdf: seq<int32>, i: nat)
    requires i < |pdf| < FULL && NonNegative(pdf) && Sum(Counts(pdf), |pdf|) > 0
    ensures Entry(Counts(pdf), i) + Share(pdf[i], 32767 - |pdf|, Sum(Counts(pdf), |pdf|)) + 1
         == Entry(Counts(pdf), i + 1) <= FULL
  {
    var ws := Counts(pdf);
    EntryTotal(ws);
    if i + 1 < |ws| {
      EntryGrows(ws, i + 1, |ws|);
    }
  }

  /** A table cut out of a longer one is a valid table too, wherever the cut falls. */
  lemma StrictWindow(cdf: seq<uint16>, start: nat, n: nat)
    requires Strict(cdf) && n >= 2 && start + n <= |cdf|
    ensures Strict(cdf[start..start + n])
  {
    var w := cdf[start..start + n];
    forall i, j | 0 <= i < j < |w|
      ensures w[i] < w[j]
    {
      assert w[i] == cdf[start + i] && w[j] == cdf[start + j];
    }
    assert Cumulative(w);
  }
}
