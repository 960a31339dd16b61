/** Per-shell renormalisation: the mean F² of each shell, then E = F · (1 / sqrt(mean)) written
    into the reflections of that shell, in place. */
module ENormalizeBins {
  import opened Numbers
  import opened Hkl

  /** Every index a shell lists is below `n`. */
  predicate BinIn(bin: seq<nat>, n: nat)
  {
    forall t :: 0 <= t < |bin| ==> bin[t] < n
  }

  predicate IndicesIn(bins: seq<seq<nat>>, n: nat)
  {
    forall j :: 0 <= j < |bins| ==> BinIn(bins[j], n)
  }

  function BinSquares(refls: seq<Reflection>, bin: seq<nat>): (sq: seq<real>)
    requires BinIn(bin, |refls|)
    ensures |sq| == |bin|
    ensures forall t :: 0 <= t < |bin| ==> sq[t] == refls[bin[t]].F * refls[bin[t]].F && sq[t] >= 0.0
  {
    seq(|bin|, t requires 0 <= t < |bin| => Square(refls[bin[t]].F))
  }

  function Square(x: real): (y: real)
    ensures y == x * x && y >= 0.0
  {
    if x >= 0.0 then x * x else (assert x * x == (-x) * (-x); x * x)
  }

  /** The mean F² of one shell: 1 for an empty shell, and 1 again when the mean is 0, so it is
      always positive. */
  function BinMean(refls: seq<Reflection>, bin: seq<nat>): (m: real)
    requires BinIn(bin, |refls|)
    ensures m > 0.0
    ensures |bin| == 0 ==> m == 1.0
    ensures |bin| > 0 && Sum(BinSquares(refls, bin)) > 0.0 ==> m == Sum(BinSquares(refls, bin)) / |bin| as real
    ensures |bin| > 0 && Sum(BinSquares(refls, bin)) == 0.0 ==> m == 1.0
  {
    if |bin| == 0 then 1.0
    else
      var sq := BinSquares(refls, bin);
      SumNonNegative(sq);
      var m := Sum(sq) / |bin| as real;
      if m == 0.0 then 1.0 else m
  }

  /** `meanF2`: one entry per shell. */
  function MeanF2(refls: seq<Reflection>, bins: seq<seq<nat>>): (ms: seq<real>)
    requires IndicesIn(bins, |refls|)
    ensures |ms| == |bins|
    ensures forall j :: 0 <= j < |bins| ==> ms[j] == BinMean(refls, bins[j]) && ms[j] > 0.0
  {
    seq(|bins|, j requires 0 <= j < |bins| => BinMean(refls, bins[j]))
  }

  /** The scale 1 / sqrt(m) of each shell. */
  function Scales(ms: seq<real>, sqrt: real -> real): (cs: seq<real>)
    requires IsSqrt(sqrt) && forall j :: 0 <= j < |ms| ==> ms[j] > 0.0
    ensures |cs| == |ms|
    ensures forall j :: 0 <= j < |ms| ==> cs[j] * sqrt(ms[j]) == 1.0
  {
    ScaleFacts(ms, sqrt);
    seq(|ms|, j requires 0 <= j < |ms| => 1.0 / sqrt(ms[j]))
  }

  lemma ScaleFacts(ms: seq<real>, sqrt: real -> real)
    requires IsSqrt(sqrt) && forall j :: 0 <= j < |ms| ==> ms[j] > 0.0
    ensures forall j :: 0 <= j < |ms| ==> sqrt(ms[j]) > 0.0 && (1.0 / sqrt(ms[j])) * sqrt(ms[j]) == 1.0
  {
    forall j | 0 <= j < |ms| ensures sqrt(ms[j]) > 0.0 && (1.0 / sqrt(ms[j])) * sqrt(ms[j]) == 1.0 {
      SqrtOfPositive(sqrt, ms[j]);
    }
  }

  /** One record with E = F · c. */
  function Rescale(x: Reflection, c: real): Reflection
  {
    x.(E := Fin(x.F * c))
  }

  /** `reflections[i].E = reflections[i].F * scale` for each index of one shell, in order. */
  function ApplyBin(s: seq<Reflection>, bin: seq<nat>, c: real): (r: seq<Reflection>)
    requires BinIn(bin, |s|)
    ensures |r| == |s|
  {
    if |bin| == 0 then s
    else
      var prev := ApplyBin(s, bin[..|bin| - 1], c);
      var i := bin[|bin| - 1];
      prev[i := Rescale(prev[i], c)]
  }

  /** The shells applied one after another. */
  function ApplyBins(s: seq<Reflection>, bins: seq<seq<nat>>, cs: seq<real>): (r: seq<Reflection>)
    requires IndicesIn(bins, |s|) && |cs| == |bins|
    ensures |r| == |s|
  {
    if |bins| == 0 then s
    else ApplyBin(ApplyBins(s, bins[..|bins| - 1], cs[..|cs| - 1]), bins[|bins| - 1], cs[|cs| - 1])
  }

  /** One shell: its indices get E = F·c, every other record is unchanged, and no field but E
      changes anywhere. */
  lemma {:induction false} ApplyBinFacts(s: seq<Reflection>, bin: seq<nat>, c: real)
    requires BinIn(bin, |s|)
    ensures var r := ApplyBin(s, bin, c);
      && (forall i :: 0 <= i < |s| ==> r[i] == s[i].(E := r[i].E))
      && (forall i :: 0 <= i < |s| && i !in bin ==> r[i] == s[i])
      && (forall i :: 0 <= i < |s| && i in bin ==> r[i].E == Fin(s[i].F * c))
  {
    if |bin| > 0 {
      var front := bin[..|bin| - 1];
      ApplyBinFacts(s, front, c);
      assert forall i :: i in bin <==> i in front || i == bin[|bin| - 1];
    }
  }

  /** After all shells: no field but E changes; a reflection listed in no shell keeps its E; one
      whose last listing is in shell j gets E = F · (1 / sqrt(meanF2[j])). */
  lemma {:induction false} ApplyBinsFacts(s: seq<Reflection>, bins: seq<seq<nat>>, cs: seq<real>)
    requires IndicesIn(bins, |s|) && |cs| == |bins|
    ensures var r := ApplyBins(s, bins, cs);
      && (forall i :: 0 <= i < |s| ==> r[i] == s[i].(E := r[i].E))
      && (forall i :: 0 <= i < |s| && (forall j :: 0 <= j < |bins| ==> i !in bins[j]) ==> r[i] == s[i])
      && (forall i, j ::
            (0 <= i < |s| && 0 <= j < |bins| && i in bins[j] && (forall j' :: j < j' < |bins| ==> i !in bins[j']))
            ==> r[i].E == Fin(s[i].F * cs[j]))
  {
    if |bins| > 0 {
      var k := |bins| - 1;
      var front, cf := bins[..k], cs[..k];
      assert IndicesIn(front, |s|);
      ApplyBinsFacts(s, front, cf);
      var mid := ApplyBins(s, front, cf);
      ApplyBinFacts(mid, bins[k], cs[k]);
      var r := ApplyBins(s, bins, cs);
      forall i, j | 0 <= i < |s| && 0 <= j < |bins| && i in bins[j] && (forall j' :: j < j' < |bins| ==> i !in bins[j'])
        ensures r[i].E == Fin(s[i].F * cs[j])
      {
        if j < k {
          assert i !in bins[k];
          assert front[j] == bins[j];
          assert forall j' :: j < j' < |front| ==> front[j'] == bins[j'];
        }
      }
      forall i | 0 <= i < |s| && (forall j :: 0 <= j < |bins| ==> i !in bins[j]) ensures r[i] == s[i] {
        assert i !in bins[k];
        assert forall j :: 0 <= j < |front| ==> front[j] == bins[j];
      }
    }
  }

  lemma BinStep(s: seq<Reflection>, bin: seq<nat>, t: nat, c: real)
    requires t < |bin| && BinIn(bin, |s|)
    ensures BinIn(bin[..t], |s|) && BinIn(bin[..t + 1], |s|)
    ensures var r := ApplyBin(s, bin[..t], c);
      ApplyBin(s, bin[..t + 1], c) == r[bin[t] := Rescale(r[bin[t]], c)]
  {
    var b := bin[..t + 1];
    assert b[..|b| - 1] == bin[..t] && b[|b| - 1] == bin[t];
  }

  lemma BinsStep(s: seq<Reflection>, bins: seq<seq<nat>>, cs: seq<real>, j: nat)
    requires j < |bins| && IndicesIn(bins, |s|) && |cs| == |bins|
    ensures IndicesIn(bins[..j], |s|) && IndicesIn(bins[..j + 1], |s|)
    ensures var bin := bins[j];
      ApplyBins(s, bins[..j + 1], cs[..j + 1]) == ApplyBin(ApplyBins(s, bins[..j], cs[..j]), bin[..|bin|], cs[j])
  {
    var pre, post, cpost := bins[..j], bins[..j + 1], cs[..j + 1];
    assert IndicesIn(pre, |s|) && IndicesIn(post, |s|);
    assert post[..|post| - 1] == pre && cpost[..|cpost| - 1] == cs[..j];
    assert post[|post| - 1] == bins[j] && cpost[|cpost| - 1] == cs[j];
    assert bins[j][..|bins[j]|] == bins[j];
  }

  /** `renormalizeE_byBins`: computes the shell means from the reflections, then rewrites E of
      each shell's reflections in place; the same array is the result. An index outside the
      array makes the source fail, so indices must be in range. */
  method RenormalizeByBins(a: array<Reflection>, bins: seq<seq<nat>>, sqrt: real -> real)
    returns (meanF2: seq<real>)
    requires IsSqrt(sqrt) && IndicesIn(bins, a.Length)
    modifies a
    ensures meanF2 == MeanF2(old(a[..]), bins)
    ensures a[..] == ApplyBins(old(a[..]), bins, Scales(meanF2, sqrt))
  {
    meanF2 := MeanF2(a[..], bins);
    var cs := Scales(meanF2, sqrt);
    ghost var s0 := a[..];
    for j := 0 to |bins|
      invariant a.Length == |s0|
      invariant a[..] == ApplyBins(s0, bins[..j], cs[..j])
    {
      var scale := 1.0 / sqrt(meanF2[j]);
      assert scale == cs[j];
      ghost var start := a[..];
      var bin := bins[j];
      assert BinIn(bin, a.Length);
      for t := 0 to |bin|
        invariant a[..] == ApplyBin(start, bin[..t], scale)
      {
        var i := bin[t];
        BinStep(start, bin, t, scale);
        a[i] := Rescale(a[i], scale);
      }
      BinsStep(s0, bins, cs, j);
      assert bin[..|bin|] == bin;
    }
    assert bins[..|bins|] == bins && cs[..|cs|] == cs;
  }
}
