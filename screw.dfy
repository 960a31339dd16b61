/** The 2₁ screw test along b: along the 0k0 axis, reflections with odd k should be absent
    while those with even k are present. */
module Screw {
  import opened Numbers
  import opened Hkl
  import opened Zones

  /** The default of `{ minCount = 20 }`. */
  const DefaultMinCount: int := 20

  /** One entry of `sel`: `{ k, present }`. */
  datatype Pick = Pick(k: int, present: bool)

  /** `sel`: the 0k0 reflections in input order. */
  function Selected(refls: seq<Reflection>, mask: seq<bool>): (sel: seq<Pick>)
    ensures var ix := Indices(refls, Axis0k0);
      |sel| == |ix| && forall j :: 0 <= j < |ix| ==>
        ix[j] < |refls| && sel[j] == Pick(refls[ix[j]].k, Present(mask, ix[j]))
  {
    var ix := Indices(refls, Axis0k0);
    IndicesExactly(refls, Axis0k0);
    seq(|ix|, j requires 0 <= j < |ix| => Pick(refls[ix[j]].k, Present(mask, ix[j])))
  }

  /** `{ total, present }` for one parity class. */
  datatype Tally = Tally(total: nat, present: nat)

  predicate Consistent(t: Tally)
  {
    t.present <= t.total
  }

  /** `(it.k & 1) === 0` */
  predicate EvenK(p: Pick)
  {
    LowBits(p.k, 2) == 0
  }

  /** The counts of the picks whose k has the requested parity. */
  function Count(sel: seq<Pick>, even: bool): (t: Tally)
    ensures Consistent(t)
  {
    if |sel| == 0 then Tally(0, 0)
    else
      var t := Count(sel[..|sel| - 1], even);
      var p := sel[|sel| - 1];
      if EvenK(p) == even then Tally(t.total + 1, t.present + if p.present then 1 else 0) else t
  }

  /** Every pick is counted in exactly one class: the two totals add up to |sel|. */
  lemma {:induction false} CountsCoverSelection(sel: seq<Pick>)
    ensures Count(sel, true).total + Count(sel, false).total == |sel|
  {
    if |sel| > 0 {
      CountsCoverSelection(sel[..|sel| - 1]);
    }
  }

  /** A reflection with odd k never adds to the even class, and the reverse. */
  lemma {:induction false} CountOnlyParity(sel: seq<Pick>, even: bool)
    requires forall j :: 0 <= j < |sel| ==> EvenK(sel[j]) != even
    ensures Count(sel, even) == Tally(0, 0)
  {
    if |sel| > 0 {
      CountOnlyParity(sel[..|sel| - 1], even);
    }
  }

  datatype Call = Insufficient | ScrewFound | NoScrew

  datatype Verdict = Verdict(call: Call, score: real)

  predicate Enough(even: Tally, odd: Tally, minCount: int)
  {
    even.total + odd.total >= minCount && even.total >= 5 && odd.total >= 5
  }

  /** `present / Math.max(total, 1)` */
  function TallyRate(t: Tally): (r: real)
    requires Consistent(t)
    ensures 0.0 <= r <= 1.0
  {
    Rate(t.present, if t.total >= 1 then t.total else 1)
  }

  /** The call and score: "insufficient data" with score 0 unless there are enough
      reflections; then the screw is called iff oddRate < 0.05 and evenRate > 0.2, with a score
      in (0, 1]; otherwise the score is 0. */
  function Decide(even: Tally, odd: Tally, minCount: int): (v: Verdict)
    requires Consistent(even) && Consistent(odd)
    ensures v.call == Insufficient <==> !Enough(even, odd, minCount)
    ensures v.call == ScrewFound <==>
              Enough(even, odd, minCount) && TallyRate(odd) < 0.05 && TallyRate(even) > 0.2
    ensures 0.0 <= v.score <= 1.0
    ensures v.score > 0.0 <==> v.call == ScrewFound
  {
    if Enough(even, odd, minCount) then
      var oddRate := TallyRate(odd);
      var evenRate := TallyRate(even);
      if oddRate < 0.05 && evenRate > 0.2 then
        var oddSuppression := Max(0.0, 0.05 - oddRate) / 0.05;
        var evenPresence := Max(0.0, evenRate - 0.2) / 0.8;
        Verdict(ScrewFound, Min(1.0, 0.5 * oddSuppression + 0.5 * evenPresence))
      else Verdict(NoScrew, 0.0)
    else Verdict(Insufficient, 0.0)
  }

  datatype ScrewResult = ScrewResult(even: Tally, odd: Tally, call: Call, score: real)

  /** `analyzeScrew_0k0`: selects the 0k0 reflections, counts them by the parity of k, and
      decides. */
  method AnalyzeScrew(refls: seq<Reflection>, mask: seq<bool>, minCount: int) returns (res: ScrewResult)
    ensures res.even == Count(Selected(refls, mask), true)
    ensures res.odd == Count(Selected(refls, mask), false)
    ensures res.even.total + res.odd.total == |Indices(refls, Axis0k0)|
    ensures Consistent(res.even) && Consistent(res.odd)
    ensures Verdict(res.call, res.score) == Decide(res.even, res.odd, minCount)
  {
    var sel := SelectZone(refls, mask);
    var even, odd := Tally(0, 0), Tally(0, 0);
    for j := 0 to |sel|
      invariant even == Count(sel[..j], true) && odd == Count(sel[..j], false)
    {
      assert sel[..j + 1][..j] == sel[..j];
      var it := sel[j];
      if LowBits(it.k, 2) == 0 {
        even := Tally(even.total + 1, even.present + if it.present then 1 else 0);
      } else {
        odd := Tally(odd.total + 1, odd.present + if it.present then 1 else 0);
      }
    }
    assert sel[..|sel|] == sel;
    CountsCoverSelection(sel);
    var v := Decide(even, odd, minCount);
    res := ScrewResult(even, odd, v.call, v.score);
  }

  /** The first loop: pushes `{ k, present }` for every reflection with h = 0 and l = 0. */
  method SelectZone(refls: seq<Reflection>, mask: seq<bool>) returns (sel: seq<Pick>)
    ensures sel == Selected(refls, mask)
  {
    sel := [];
    ghost var ix: seq<nat> := [];
    for i := 0 to |refls|
      invariant ix == Indices(refls[..i], Axis0k0)
      invariant |sel| == |ix| && forall j :: 0 <= j < |ix| ==>
                  ix[j] < i && sel[j] == Pick(refls[ix[j]].k, Present(mask, ix[j]))
    {
      assert refls[..i + 1][..i] == refls[..i];
      IndicesExactly(refls[..i], Axis0k0);
      var r := refls[i];
      if r.h == 0 && r.l == 0 {
        sel := sel + [Pick(r.k, Present(mask, i))];
        ix := ix + [i];
      }
    }
    assert refls[..|refls|] == refls;
  }
}
