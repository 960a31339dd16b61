/** Present/absent masks after normalisation, and the winsorised median they threshold against. */
module Presence {
  import opened Numbers
  import opened Hkl
  import opened Sorting

  /** The defaults of `robustMedian(arr, frac = 0.05, eps = 1e-6)`. */
  const DefaultFrac: real := 0.05
  const DefaultEps: real := 0.000001

  /** The defaults of the two mask builders. */
  const DefaultThreshold: real := 0.6
  const DefaultFraction: real := 0.05

  /** The numeric comparator `(a, b) => a - b` as a sort key. */
  function Self(x: real): real
  {
    x
  }

  /** `Math.max(0, Math.floor(n * frac))`: an index of the sorted copy as long as frac < 1. */
  function LoIndex(n: nat, frac: real): (i: nat)
    requires n > 0 && frac < 1.0
    ensures i < n
    ensures i == 0 || i == (n as real * frac).Floor
  {
    assert n as real * frac < n as real by {
      assert n as real * (1.0 - frac) > 0.0;
    }
    var f := (n as real * frac).Floor;
    if f < 0 then 0 else f
  }

  /** `Math.min(n - 1, Math.floor(n * (1 - frac)))`: never negative as long as frac < 1. */
  function HiIndex(n: nat, frac: real): (i: nat)
    requires n > 0 && frac < 1.0
    ensures i < n
    ensures i == n - 1 || i == (n as real * (1.0 - frac)).Floor
  {
    assert n as real * (1.0 - frac) > 0.0;
    var f := (n as real * (1.0 - frac)).Floor;
    if f < n - 1 then f else n - 1
  }

  /** `Math.min(Math.max(x, lo), hi)`: always `x`, `lo` or `hi`, and inside [lo, hi] when
      lo <= hi (when lo > hi it is always hi). */
  function Clip(x: real, lo: real, hi: real): (r: real)
    ensures r == x || r == lo || r == hi
    ensures lo <= hi ==> lo <= r <= hi
    ensures lo > hi ==> r == hi
  {
    Min(Max(x, lo), hi)
  }

  function Clipped(arr: seq<real>, lo: real, hi: real): (c: seq<real>)
    ensures |c| == |arr| && forall i :: 0 <= i < |arr| ==> c[i] == Clip(arr[i], lo, hi)
  {
    seq(|arr|, i requires 0 <= i < |arr| => Clip(arr[i], lo, hi))
  }

  /** The middle element for odd length; the mean of the two middle elements for even length. */
  function MedianOfSorted(b: seq<real>): (m: real)
    requires |b| > 0
    ensures forall lo: real, hi: real {:trigger Between(b, lo, hi)} ::
              Between(b, lo, hi) ==> lo <= m <= hi
  {
    var k := |b| / 2;
    if |b| % 2 == 1 then b[k] else (b[k - 1] + b[k]) / 2.0
  }

  predicate Between(b: seq<real>, lo: real, hi: real)
  {
    forall i :: 0 <= i < |b| ==> lo <= b[i] <= hi
  }

  /** `robustMedian`: eps for an empty array; otherwise the median of the array clipped to the
      sorted elements at the two fractional positions, plus eps. The median then lies between
      the smallest and the largest element. An index past the end (frac >= 1) would make the
      source compare with `undefined`, so frac < 1 is required. */
  function RobustMedian(arr: seq<real>, frac: real, eps: real): (r: real)
    requires frac < 1.0
    ensures |arr| == 0 ==> r == eps
    ensures |arr| > 0 ==> SeqMin(arr) <= r - eps <= SeqMax(arr)
  {
    if |arr| == 0 then eps
    else
      var sorted := SortBy(arr, Self);
      var n := |sorted|;
      var lo := sorted[LoIndex(n, frac)];
      var hi := sorted[HiIndex(n, frac)];
      var clipped := SortBy(Clipped(arr, lo, hi), Self);
      SortByFacts(arr, Self);
      SortByFacts(Clipped(arr, lo, hi), Self);
      ClippedBetween(arr, sorted, lo, hi, clipped);
      MedianOfSorted(clipped) + eps
  }

  /** The clip bounds are elements of the array, so every clipped value, sorted or not, lies
      between its smallest and its largest element. */
  lemma ClippedBetween(arr: seq<real>, sorted: seq<real>, lo: real, hi: real, clipped: seq<real>)
    requires |arr| > 0 && multiset(sorted) == multiset(arr)
    requires lo in sorted && hi in sorted
    requires multiset(clipped) == multiset(Clipped(arr, lo, hi))
    ensures Between(clipped, SeqMin(arr), SeqMax(arr))
  {
    assert lo in multiset(arr) && hi in multiset(arr);
    var a, z := SeqMin(arr), SeqMax(arr);
    assert a <= lo <= z && a <= hi <= z;
    var c := Clipped(arr, lo, hi);
    forall i | 0 <= i < |clipped| ensures a <= clipped[i] <= z {
      assert clipped[i] in multiset(c);
      var j :| 0 <= j < |c| && c[j] == clipped[i];
      assert a <= arr[j] <= z;
    }
  }

  /** A threshold applied to a constant array gives that constant back. */
  lemma RobustMedianOfConstant(arr: seq<real>, frac: real, eps: real, v: real)
    requires frac < 1.0 && |arr| > 0 && forall i :: 0 <= i < |arr| ==> arr[i] == v
    ensures RobustMedian(arr, frac, eps) == v + eps
  {
    var a, z := SeqMin(arr), SeqMax(arr);
    assert a in arr && z in arr;
  }

  /** Over non-negative values (intensities, |E|) the median is at least eps. */
  lemma RobustMedianAtLeastEps(arr: seq<real>, frac: real, eps: real)
    requires frac < 1.0 && forall i :: 0 <= i < |arr| ==> arr[i] >= 0.0
    ensures RobustMedian(arr, frac, eps) >= eps
  {
    if |arr| > 0 {
      var a := SeqMin(arr);
      assert a in arr;
    }
  }

  lemma NonNegativeProduct(a: real, b: real)
    requires a >= 0.0 && b >= 0.0
    ensures a * b >= 0.0
  {
  }

  /** `buildPresentMaskE`: one flag per reflection, true iff E is finite and above the
      threshold. */
  function PresentMaskE(refls: seq<Reflection>, threshold: real): (m: seq<bool>)
    ensures |m| == |refls|
    ensures forall i :: 0 <= i < |refls| ==> (m[i] <==> refls[i].E.Fin? && refls[i].E.value > threshold)
  {
    seq(|refls|, i requires 0 <= i < |refls| => refls[i].E.Fin? && refls[i].E.value > threshold)
  }

  /** Raising the threshold can only turn present reflections absent. */
  lemma MaskEMonotone(refls: seq<Reflection>, t1: real, t2: real)
    requires t1 <= t2
    ensures forall i :: 0 <= i < |refls| && PresentMaskE(refls, t2)[i] ==> PresentMaskE(refls, t1)[i]
  {
  }

  function Intensities(refls: seq<Reflection>): (v: seq<real>)
    ensures |v| == |refls| && forall i :: 0 <= i < |refls| ==> v[i] == refls[i].I
  {
    seq(|refls|, i requires 0 <= i < |refls| => refls[i].I)
  }

  /** `buildPresentMaskI`: the threshold is fraction · robustMedian of the intensities (every
      intensity the parser accepts is finite, so the finiteness filter keeps them all); a flag is
      true iff I is above it. With non-negative intensities and fraction the threshold is
      non-negative, so only a positive intensity can be present. */
  function PresentMaskI(refls: seq<Reflection>, fraction: real): (m: seq<bool>)
    ensures |m| == |refls|
    ensures forall i :: 0 <= i < |refls| ==>
              (m[i] <==> refls[i].I > Threshold(RobustMedian(Intensities(refls), DefaultFrac, DefaultEps), fraction))
    ensures fraction >= 0.0 && (forall i :: 0 <= i < |refls| ==> refls[i].I >= 0.0) ==>
              forall i :: 0 <= i < |refls| && m[i] ==> refls[i].I > 0.0
  {
    var v := Intensities(refls);
    var thr := Threshold(RobustMedian(v, DefaultFrac, DefaultEps), fraction);
    assert fraction >= 0.0 && (forall i :: 0 <= i < |refls| ==> refls[i].I >= 0.0) ==> thr >= 0.0 by {
      if fraction >= 0.0 && (forall i :: 0 <= i < |refls| ==> refls[i].I >= 0.0) {
        RobustMedianAtLeastEps(v, DefaultFrac, DefaultEps);
      }
    }
    seq(|refls|, i requires 0 <= i < |refls| => refls[i].I > thr)
  }

  /** `medI * fraction`. */
  function Threshold(med: real, fraction: real): (thr: real)
    ensures med >= 0.0 && fraction >= 0.0 ==> thr >= 0.0
  {
    med * fraction
  }
}
