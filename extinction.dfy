/** Lattice-centering tests: for I, C and F the reflections are split by a parity rule into
    forbidden and allowed, the robust medians of the two sides are compared, and the four
    lattices are ranked by the ratio forbidden / allowed. */
module Extinction {
  import opened Wrappers
  import opened Numbers
  import opened Hkl
  import opened Sorting
  import Presence

  /** `(n & 1) === 0` */
  function IsEven(n: int): (b: bool)
    ensures b <==> n % 2 == 0
  {
    LowBits(n, 2) == 0
  }

  /** `(n & 1) !== 0` */
  function IsOdd(n: int): (b: bool)
    ensures b <==> n % 2 == 1
  {
    LowBits(n, 2) != 0
  }

  /** Every integer is exactly one of even and odd; this follows by unfolding the two tests. */
  lemma EvenOrOdd(n: int)
    ensures IsEven(n) != IsOdd(n)
  {
  }

  /** The private `robustMedian` of this analyser: eps for an empty array, else the median of
      the array winsorised at the sorted elements at floor(n·0.05) and min(n−1, floor(n·0.95)),
      plus eps. Over non-negative values it is at least eps. */
  function Median(arr: seq<real>, eps: real): (r: real)
    ensures |arr| == 0 ==> r == eps
    ensures (forall i :: 0 <= i < |arr| ==> arr[i] >= 0.0) ==> r >= eps
  {
    if |arr| == 0 then 0.0 + eps
    else
      var sorted := SortBy(arr, Presence.Self);
      var n := |sorted|;
      var lo := sorted[MaxInt(0, (n as real * 0.05).Floor)];
      var hi := sorted[MinInt(n - 1, (n as real * 0.95).Floor)];
      var b := SortBy(Presence.Clipped(arr, lo, hi), Presence.Self);
      SortByFacts(arr, Presence.Self);
      SortByFacts(Presence.Clipped(arr, lo, hi), Presence.Self);
      Presence.ClippedBetween(arr, sorted, lo, hi, b);
      Presence.MedianOfSorted(b) + eps
  }

  /** The private copy computes what `robustMedian` of utils/presence.js computes with
      frac = 0.05. */
  lemma MedianAgrees(arr: seq<real>, eps: real)
    ensures Median(arr, eps) == Presence.RobustMedian(arr, 0.05, eps)
  {
    if |arr| > 0 {
      var n := |arr|;
      assert 1.0 - 0.05 == 0.95;
      assert MaxInt(0, (n as real * 0.05).Floor) == Presence.LoIndex(n, 0.05);
      assert MinInt(n - 1, (n as real * 0.95).Floor) == Presence.HiIndex(n, 0.05);
    }
  }

  /** The default eps of the private median. */
  const MedianEps: real := 0.000001

  /** `getVal`: |E| when E is requested and finite, otherwise |I|; never negative. */
  function Value(r: Reflection, withE: bool): (v: real)
    ensures v >= 0.0
    ensures v == if withE && r.E.Fin? then Abs(r.E.value) else Abs(r.I)
  {
    if withE && r.E.Fin? then Abs(r.E.value) else Abs(r.I)
  }

  function Values(refls: seq<Reflection>, withE: bool): (vs: seq<real>)
    ensures |vs| == |refls| && forall i :: 0 <= i < |refls| ==> vs[i] == Value(refls[i], withE)
  {
    seq(|refls|, i requires 0 <= i < |refls| => Value(refls[i], withE))
  }

  datatype Lattice = LatI | LatC | LatF | LatP

  /** `allowedF`: all three indices even, or all three odd. */
  function AllowedF(h: int, k: int, l: int): (b: bool)
    ensures b <==> h % 2 == k % 2 && k % 2 == l % 2
  {
    var eH, eK, eL := IsEven(h), IsEven(k), IsEven(l);
    (eH && eK && eL) || (!eH && !eK && !eL)
  }

  /** The rule sending a reflection to the forbidden side: h+k+l odd for I, h+k odd for C,
      mixed parities for F. The primitive lattice forbids nothing. */
  predicate Forbidden(lat: Lattice, r: Reflection)
  {
    match lat
    case LatI => IsOdd(r.h + r.k + r.l)
    case LatC => IsOdd(r.h + r.k)
    case LatF => !AllowedF(r.h, r.k, r.l)
    case LatP => false
  }

  /** The values pushed onto one side (`forbidden` picks the forbidden side), in input order. */
  function Side(refls: seq<Reflection>, withE: bool, lat: Lattice, forbidden: bool): seq<real>
  {
    if |refls| == 0 then []
    else
      var last := refls[|refls| - 1];
      Side(refls[..|refls| - 1], withE, lat, forbidden)
        + (if Forbidden(lat, last) == forbidden then [Value(last, withE)] else [])
  }

  /** Every reflection goes to exactly one side: the two sides together are the values of all
      reflections, and each side holds only non-negative values. */
  lemma {:induction false} SidesPartition(refls: seq<Reflection>, withE: bool, lat: Lattice)
    ensures |Side(refls, withE, lat, true)| + |Side(refls, withE, lat, false)| == |refls|
    ensures multiset(Side(refls, withE, lat, true)) + multiset(Side(refls, withE, lat, false))
            == multiset(Values(refls, withE))
  {
    if |refls| > 0 {
      var front := refls[..|refls| - 1];
      SidesPartition(front, withE, lat);
      var v := Value(refls[|refls| - 1], withE);
      ValuesSnoc(refls, withE);
      var t, f := Side(front, withE, lat, true), Side(front, withE, lat, false);
      if Forbidden(lat, refls[|refls| - 1]) {
        assert multiset(t + [v]) == multiset(t) + multiset{v};
      } else {
        assert multiset(f + [v]) == multiset(f) + multiset{v};
      }
    }
  }

  lemma ValuesSnoc(refls: seq<Reflection>, withE: bool)
    requires |refls| > 0
    ensures multiset(Values(refls, withE))
            == multiset(Values(refls[..|refls| - 1], withE)) + multiset{Value(refls[|refls| - 1], withE)}
  {
    var vs, vf := Values(refls, withE), Values(refls[..|refls| - 1], withE);
    assert vs == vf + [vs[|vs| - 1]];
  }

  lemma {:induction false} SideNonNegative(refls: seq<Reflection>, withE: bool, lat: Lattice, forbidden: bool)
    ensures forall i :: 0 <= i < |Side(refls, withE, lat, forbidden)| ==> Side(refls, withE, lat, forbidden)[i] >= 0.0
  {
    if |refls| > 0 {
      SideNonNegative(refls[..|refls| - 1], withE, lat, forbidden);
    }
  }

  /** The primitive lattice forbids nothing, so its forbidden side is empty. */
  lemma {:induction false} PrimitiveForbidsNothing(refls: seq<Reflection>, withE: bool)
    ensures Side(refls, withE, LatP, true) == []
  {
    if |refls| > 0 {
      PrimitiveForbidsNothing(refls[..|refls| - 1], withE);
    }
  }

  /** One ranked entry: `{ type, ratio, forbid, allow }`. */
  datatype Score = Score(lattice: Lattice, ratio: real, forbid: real, allow: real)

  function Ratio(s: Score): real
  {
    s.ratio
  }

  /** `safeDiv(a, b) = a / (b + 1e-12)`; the denominators are medians, never negative. */
  function SafeDiv(a: real, b: real): (q: real)
    requires b >= 0.0
    ensures a > 0.0 ==> q > 0.0
  {
    var d := b + 1.0 / 1000000000000.0;
    assert a > 0.0 ==> a / d > 0.0 by {
      if a / d <= 0.0 {
        assert (a / d) * d <= 0.0;
      }
    }
    a / d
  }

  /** The entry for I, C or F. */
  function LatticeScore(refls: seq<Reflection>, withE: bool, lat: Lattice): (s: Score)
    ensures s.lattice == lat && s.forbid >= MedianEps && s.allow >= MedianEps && s.ratio > 0.0
    ensures s.forbid == Median(Side(refls, withE, lat, true), MedianEps)
    ensures s.allow == Median(Side(refls, withE, lat, false), MedianEps)
  {
    SideNonNegative(refls, withE, lat, true);
    SideNonNegative(refls, withE, lat, false);
    var f := Median(Side(refls, withE, lat, true), MedianEps);
    var a := Median(Side(refls, withE, lat, false), MedianEps);
    Score(lat, SafeDiv(f, a), f, a)
  }

  /** `scores` before sorting: I, C, F, then P with ratio 1, forbid 0 and the median of all
      values as allow. */
  function Scores(refls: seq<Reflection>, withE: bool): seq<Score>
  {
    [LatticeScore(refls, withE, LatI), LatticeScore(refls, withE, LatC), LatticeScore(refls, withE, LatF),
     Score(LatP, 1.0, 0.0, Median(Values(refls, withE), MedianEps))]
  }

  datatype Analysis = Analysis(scores: seq<Score>, best: Score)

  predicate HasLattice(s: seq<Score>, l: Lattice)
  {
    exists i :: 0 <= i < |s| && s[i].lattice == l
  }

  /** The ranked list has one entry per lattice, ordered by ratio, with the P baseline at 1 and
      every ratio positive; `best` has the smallest ratio. */
  lemma RankedFacts(refls: seq<Reflection>, withE: bool)
    ensures var ranked := SortBy(Scores(refls, withE), Ratio);
      && |ranked| == 4
      && multiset(ranked) == multiset(Scores(refls, withE))
      && SortedBy(ranked, Ratio)
      && (forall l: Lattice :: HasLattice(ranked, l))
      && (forall i :: 0 <= i < 4 && ranked[i].lattice == LatP ==> ranked[i].ratio == 1.0 && ranked[i].forbid == 0.0)
      && (forall i :: 0 <= i < 4 ==> ranked[i].ratio > 0.0)
      && (forall i :: 0 <= i < 4 ==> ranked[0].ratio <= ranked[i].ratio)
  {
    ScoresFacts(refls, withE);
    RankedOf(Scores(refls, withE));
  }

  lemma ScoresFacts(refls: seq<Reflection>, withE: bool)
    ensures var sc := Scores(refls, withE);
      && |sc| == 4
      && sc[0].lattice == LatI && sc[1].lattice == LatC && sc[2].lattice == LatF
      && sc[3] == Score(LatP, 1.0, 0.0, sc[3].allow)
      && sc[0].ratio > 0.0 && sc[1].ratio > 0.0 && sc[2].ratio > 0.0 && sc[3].ratio > 0.0
  {
    var a, b, c := LatticeScore(refls, withE, LatI), LatticeScore(refls, withE, LatC), LatticeScore(refls, withE, LatF);
    assert a.ratio > 0.0 && b.ratio > 0.0 && c.ratio > 0.0;
  }

  lemma RankedOf(sc: seq<Score>)
    requires |sc| == 4
    requires sc[0].lattice == LatI && sc[1].lattice == LatC && sc[2].lattice == LatF
    requires sc[3] == Score(LatP, 1.0, 0.0, sc[3].allow)
    requires sc[0].ratio > 0.0 && sc[1].ratio > 0.0 && sc[2].ratio > 0.0 && sc[3].ratio > 0.0
    ensures var ranked := SortBy(sc, Ratio);
      && |ranked| == 4
      && multiset(ranked) == multiset(sc)
      && SortedBy(ranked, Ratio)
      && (forall l: Lattice :: HasLattice(ranked, l))
      && (forall i :: 0 <= i < 4 && ranked[i].lattice == LatP ==> ranked[i].ratio == 1.0 && ranked[i].forbid == 0.0)
      && (forall i :: 0 <= i < 4 ==> ranked[i].ratio > 0.0)
      && (forall i :: 0 <= i < 4 ==> ranked[0].ratio <= ranked[i].ratio)
  {
    var ranked := SortBy(sc, Ratio);
    SortByFacts(sc, Ratio);
    SortByMembers(sc, Ratio);
    RankedLattices(sc, ranked);
    assert forall x :: x in sc ==> x.ratio > 0.0;
    assert forall i :: 0 <= i < 4 ==> ranked[i] in sc;
  }

  /** A reordering of I, C, F, P still names each lattice once, P keeping its baseline. */
  lemma RankedLattices(sc: seq<Score>, ranked: seq<Score>)
    requires |sc| == 4 && |ranked| == 4 && forall x :: x in ranked <==> x in sc
    requires sc[0].lattice == LatI && sc[1].lattice == LatC && sc[2].lattice == LatF
    requires sc[3] == Score(LatP, 1.0, 0.0, sc[3].allow)
    ensures forall l: Lattice :: HasLattice(ranked, l)
    ensures forall i :: 0 <= i < 4 && ranked[i].lattice == LatP ==> ranked[i].ratio == 1.0 && ranked[i].forbid == 0.0
  {
    forall i | 0 <= i < 4 && ranked[i].lattice == LatP ensures ranked[i] == sc[3] {
      assert ranked[i] in sc;
    }
    forall l: Lattice ensures HasLattice(ranked, l) {
      var j := match l case LatI => 0 case LatC => 1 case LatF => 2 case LatP => 3;
      assert sc[j].lattice == l && sc[j] in ranked;
    }
  }

  /** `analyzeExtinction`: null for empty input; otherwise the three partition loops, the
      scores, sorted by ratio, and the first of them as `best`. */
  method AnalyzeExtinction(refls: seq<Reflection>, withE: bool) returns (r: Option<Analysis>)
    ensures r.None? <==> |refls| == 0
    ensures r.Some? ==> r.value.scores == SortBy(Scores(refls, withE), Ratio)
    ensures r.Some? ==> |r.value.scores| == 4 && r.value.best == r.value.scores[0]
    ensures r.Some? ==> forall i :: 0 <= i < 4 ==> r.value.best.ratio <= r.value.scores[i].ratio
  {
    if |refls| == 0 {
      return None;
    }
    var pAll := Values(refls, withE);
    var pMean := Median(pAll, MedianEps);
    var iF, iA := Partition(refls, withE, LatI);
    var cF, cA := Partition(refls, withE, LatC);
    var fF, fA := Partition(refls, withE, LatF);
    SideNonNegative(refls, withE, LatI, false);
    SideNonNegative(refls, withE, LatC, false);
    SideNonNegative(refls, withE, LatF, false);
    var iForbid, iAllow := Median(iF, MedianEps), Median(iA, MedianEps);
    var cForbid, cAllow := Median(cF, MedianEps), Median(cA, MedianEps);
    var fForbid, fAllow := Median(fF, MedianEps), Median(fA, MedianEps);
    var scores := [Score(LatI, SafeDiv(iForbid, iAllow), iForbid, iAllow),
                   Score(LatC, SafeDiv(cForbid, cAllow), cForbid, cAllow),
                   Score(LatF, SafeDiv(fForbid, fAllow), fForbid, fAllow),
                   Score(LatP, 1.0, 0.0, pMean)];
    assert scores == Scores(refls, withE);
    scores := SortBy(scores, Ratio);
    RankedFacts(refls, withE);
    r := Some(Analysis(scores, scores[0]));
  }

  /** One of the `for (const r of reflections)` loops: pushes each value onto the forbidden or
      the allowed list. */
  method Partition(refls: seq<Reflection>, withE: bool, lat: Lattice) returns (forb: seq<real>, allow: seq<real>)
    ensures forb == Side(refls, withE, lat, true) && allow == Side(refls, withE, lat, false)
  {
    forb, allow := [], [];
    for i := 0 to |refls|
      invariant forb == Side(refls[..i], withE, lat, true)
      invariant allow == Side(refls[..i], withE, lat, false)
    {
      assert refls[..i + 1][..i] == refls[..i];
      var r := refls[i];
      if Forbidden(lat, r) {
        forb := forb + [Value(r, withE)];
      } else {
        allow := allow + [Value(r, withE)];
      }
    }
    assert refls[..|refls|] == refls;
  }
}
