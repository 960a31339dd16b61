/** The histogram of |E| over equal-width bins, and the centric/acentric call from
    ⟨|E² − 1|⟩ (about 0.968 for a centrosymmetric structure, 0.736 for a non-centrosymmetric one). */
module EHistogram {
  import opened Numbers
  import opened Hkl

  /** The default of `nBins = 20`. */
  const DefaultBins: int := 20

  /** `withE.map(r => Math.abs(r.E)).filter(Number.isFinite)`: the finite |E| values in input
      order. */
  function AbsE(refls: seq<Reflection>): (xs: seq<real>)
    ensures |xs| <= |refls|
    ensures forall i :: 0 <= i < |xs| ==> xs[i] >= 0.0
  {
    if |refls| == 0 then []
    else
      var a := AbsNum(refls[|refls| - 1].E);
      AbsE(refls[..|refls| - 1]) + if a.Fin? then [a.value] else []
  }

  /** The filter keeps every finite E and nothing else: with every E finite it is the map of
      |E|, with none finite it is empty. */
  lemma {:induction false} AbsEOfFinite(refls: seq<Reflection>)
    requires forall i :: 0 <= i < |refls| ==> refls[i].E.Fin?
    ensures |AbsE(refls)| == |refls|
    ensures forall i :: 0 <= i < |refls| ==> AbsE(refls)[i] == Abs(refls[i].E.value)
  {
    if |refls| > 0 {
      AbsEOfFinite(refls[..|refls| - 1]);
    }
  }

  lemma {:induction false} AbsEOfNonFinite(refls: seq<Reflection>)
    requires forall i :: 0 <= i < |refls| ==> !refls[i].E.Fin?
    ensures AbsE(refls) == []
  {
    if |refls| > 0 {
      AbsEOfNonFinite(refls[..|refls| - 1]);
    }
  }

  function Sq(x: real): real
  {
    x * x
  }

  /** `E2minus1`: |x² − 1| for each value. */
  function E2m1(xs: seq<real>): (d: seq<real>)
    ensures |d| == |xs| && forall i :: 0 <= i < |xs| ==> d[i] == Abs(Sq(xs[i]) - 1.0) && d[i] >= 0.0
  {
    seq(|xs|, i requires 0 <= i < |xs| => Abs(Sq(xs[i]) - 1.0))
  }

  /** `meanE2m1`: the mean of |x² − 1|, never negative. */
  function MeanE2m1(xs: seq<real>): (m: real)
    requires |xs| > 0
    ensures m >= 0.0
  {
    SumNonNegative(E2m1(xs));
    Sum(E2m1(xs)) / |xs| as real
  }

  datatype Likely = Acentric | Centric

  /** The `likely` strings. */
  function Label(l: Likely): string
  {
    match l
    case Acentric => "acentric（非セントロ）"
    case Centric => "centric（セントロ）"
  }

  /** `diffA < diffC ? "acentric" : "centric"` */
  function Classify(m: real): (l: Likely)
    ensures l == Acentric <==> Abs(m - 0.736) < Abs(m - 0.968)
  {
    if Abs(m - 0.736) < Abs(m - 0.968) then Acentric else Centric
  }

  /** The call is a cut at the midpoint 0.852 of the two ideal values; the midpoint itself (a tie)
      is called centric. */
  lemma ClassifyByMidpoint(m: real)
    ensures Classify(m) == Acentric <==> m < 0.852
    ensures Classify(0.852) == Centric
  {
  }

  /** `i * (Emax / nBins)`: the lower edge of bin i and the upper edge of bin i − 1. */
  function Edge(i: nat, emax: real, nBins: nat): (e: real)
    requires nBins > 0
  {
    i as real * (emax / nBins as real)
  }

  /** `x / Emax * nBins` for 0 <= x <= Emax lies in [0, nBins]. */
  function Position(x: real, emax: real, nBins: nat): (f: real)
    requires emax > 0.0 && nBins > 0 && 0.0 <= x <= emax
    ensures 0.0 <= f <= nBins as real
  {
    var q := x / emax;
    assert 0.0 <= q <= 1.0;
    assert q * nBins as real <= nBins as real by {
      assert (1.0 - q) * nBins as real >= 0.0;
    }
    q * nBins as real
  }

  /** The bin index `Math.floor(x / Emax * nBins)`, with the maximum (index nBins) clamped into
      the last bin. */
  function BinIndex(x: real, emax: real, nBins: nat): (idx: nat)
    requires emax > 0.0 && nBins > 0 && 0.0 <= x <= emax
    ensures idx < nBins
    ensures idx == nBins - 1 || idx == Position(x, emax, nBins).Floor
    ensures idx as real <= Position(x, emax, nBins) <= (idx + 1) as real
  {
    var f := Position(x, emax, nBins);
    var i := f.Floor;
    assert i as real <= f < (i + 1) as real;
    if i >= nBins then
      assert f == nBins as real;
      nBins - 1
    else i
  }

  /** The value lands in a bin whose edges enclose it. */
  lemma BinContains(x: real, emax: real, nBins: nat)
    requires emax > 0.0 && nBins > 0 && 0.0 <= x <= emax
    ensures var idx := BinIndex(x, emax, nBins);
      Edge(idx, emax, nBins) <= x <= Edge(idx + 1, emax, nBins)
  {
    var idx := BinIndex(x, emax, nBins);
    var f := Position(x, emax, nBins);
    var w := emax / nBins as real;
    PositionTimesWidth(x, emax, nBins);
    var lo, hi := idx as real, (idx + 1) as real;
    ScaleBetween(lo, f, hi, w, x);
    assert Edge(idx, emax, nBins) == lo * w;
    assert Edge(idx + 1, emax, nBins) == hi * w;
  }

  /** `x / Emax * nBins` times the bin width `Emax / nBins` is x again. */
  lemma PositionTimesWidth(x: real, emax: real, nBins: nat)
    requires emax > 0.0 && nBins > 0 && 0.0 <= x <= emax
    ensures emax / nBins as real > 0.0
    ensures Position(x, emax, nBins) * (emax / nBins as real) == x
  {
    var n := nBins as real;
    var q := x / emax;
    assert q * emax == x;
    assert (q * n) * (emax / n) == q * (n * (emax / n));
    assert n * (emax / n) == emax;
  }

  lemma ScaleBetween(lo: real, f: real, hi: real, w: real, x: real)
    requires lo <= f <= hi && w > 0.0 && f * w == x
    ensures lo * w <= x <= hi * w
  {
    assert (f - lo) * w >= 0.0;
    assert (hi - f) * w >= 0.0;
  }

  predicate InRange(xs: seq<real>, emax: real)
  {
    forall i :: 0 <= i < |xs| ==> 0.0 <= xs[i] <= emax
  }

  /** The count array after the second loop has seen `xs`: one `bins[idx].n++` per value. */
  function Counts(xs: seq<real>, emax: real, nBins: nat): (c: seq<nat>)
    requires emax > 0.0 && nBins > 0 && InRange(xs, emax)
    ensures |c| == nBins
  {
    if |xs| == 0 then seq(nBins, _ => 0)
    else
      var c := Counts(xs[..|xs| - 1], emax, nBins);
      var idx := BinIndex(xs[|xs| - 1], emax, nBins);
      c[idx := c[idx] + 1]
  }

  /** The number of values whose index is i. */
  function CountAt(xs: seq<real>, i: nat, emax: real, nBins: nat): nat
    requires emax > 0.0 && nBins > 0 && InRange(xs, emax)
  {
    if |xs| == 0 then 0
    else CountAt(xs[..|xs| - 1], i, emax, nBins) + if BinIndex(xs[|xs| - 1], emax, nBins) == i then 1 else 0
  }

  /** Bin i counts exactly the values placed in bin i. */
  lemma {:induction false} CountsAreCountAt(xs: seq<real>, emax: real, nBins: nat)
    requires emax > 0.0 && nBins > 0 && InRange(xs, emax)
    ensures forall i :: 0 <= i < nBins ==> Counts(xs, emax, nBins)[i] == CountAt(xs, i, emax, nBins)
  {
    if |xs| > 0 {
      CountsAreCountAt(xs[..|xs| - 1], emax, nBins);
    }
  }

  /** Every value is counted once: the counts add up to the number of values. */
  lemma {:induction false} CountsTotal(xs: seq<real>, emax: real, nBins: nat)
    requires emax > 0.0 && nBins > 0 && InRange(xs, emax)
    ensures Total(Counts(xs, emax, nBins)) == |xs|
  {
    if |xs| == 0 {
      TotalZeros(nBins);
    } else {
      CountsTotal(xs[..|xs| - 1], emax, nBins);
      var c := Counts(xs[..|xs| - 1], emax, nBins);
      TotalUpdate(c, BinIndex(xs[|xs| - 1], emax, nBins));
    }
  }

  /** `{ i, lo, hi, n }` */
  datatype Bin = Bin(i: nat, lo: real, hi: real, n: nat)

  /** `null` when no |E| is finite; a TypeError when every finite |E| is 0 (the index is NaN and
      `bins[idx]` is undefined) or when there is no bin to count into; otherwise the histogram. */
  datatype Outcome = NoData | Throws | Hist(bins: seq<Bin>, emax: real, meanE2m1: real, likely: Likely)

  /** `buildEHistogram` */
  method BuildEHistogram(refls: seq<Reflection>, nBins: int) returns (out: Outcome)
    ensures out.NoData? <==> |AbsE(refls)| == 0
    ensures out.Throws? <==> |AbsE(refls)| > 0 && (SeqMax(AbsE(refls)) == 0.0 || nBins <= 0)
    ensures out.Hist? ==>
              var xs := AbsE(refls);
              && |xs| > 0 && nBins > 0 && out.emax == SeqMax(xs) > 0.0 && InRange(xs, out.emax)
              && |out.bins| == nBins
              && (forall i :: 0 <= i < nBins ==>
                    out.bins[i] == Bin(i, Edge(i, out.emax, nBins), Edge(i + 1, out.emax, nBins),
                                       Counts(xs, out.emax, nBins)[i]))
              && Total(Counts(xs, out.emax, nBins)) == |xs|
              && out.meanE2m1 == MeanE2m1(xs) && out.likely == Classify(out.meanE2m1)
  {
    var xs := AbsE(refls);
    if |xs| == 0 {
      return NoData;
    }
    var emax := SeqMax(xs);
    if emax == 0.0 || nBins <= 0 {
      return Throws;
    }
    var bins: seq<Bin> := [];
    for i := 0 to nBins
      invariant |bins| == i && forall j :: 0 <= j < i ==> bins[j] == Bin(j, Edge(j, emax, nBins), Edge(j + 1, emax, nBins), 0)
    {
      bins := bins + [Bin(i, i as real * (emax / nBins as real), (i + 1) as real * (emax / nBins as real), 0)];
    }
    assert InRange(xs, emax);
    for j := 0 to |xs|
      invariant InRange(xs[..j], emax)
      invariant |bins| == nBins && forall i :: 0 <= i < nBins ==>
                  bins[i] == Bin(i, Edge(i, emax, nBins), Edge(i + 1, emax, nBins), Counts(xs[..j], emax, nBins)[i])
    {
      assert xs[..j + 1][..j] == xs[..j];
      var idx := BinIndex(xs[j], emax, nBins);
      bins := bins[idx := bins[idx].(n := bins[idx].n + 1)];
    }
    assert xs[..|xs|] == xs;
    CountsTotal(xs, emax, nBins);
    var m := MeanE2m1(xs);
    out := Hist(bins, emax, m, Classify(m));
  }
}
