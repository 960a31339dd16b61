/** The glide tests on the h0l plane: for each of the a, c, n and d glides, the h0l
    reflections are split into those the glide allows and those it forbids, and the presence
    rates of the two sides give a score. */
module Glide {
  import opened Numbers
  import opened Hkl
  import opened Sorting
  import opened Zones

  /** The default of `{ minCount = 30 }`. */
  const DefaultMinCount: int := 30

  /** One entry of `sel`: `{ h, l, present }`. */
  datatype Pick = Pick(h: int, l: int, present: bool)

  /** `sel`: the h0l reflections (k = 0) in input order. */
  function Selected(refls: seq<Reflection>, mask: seq<bool>): (sel: seq<Pick>)
    ensures var ix := Indices(refls, Planeh0l);
      |sel| == |ix| && forall j :: 0 <= j < |ix| ==>
        ix[j] < |refls| && sel[j] == Pick(refls[ix[j]].h, refls[ix[j]].l, Present(mask, ix[j]))
  {
    var ix := Indices(refls, Planeh0l);
    IndicesExactly(refls, Planeh0l);
    seq(|ix|, j requires 0 <= j < |ix| => Pick(refls[ix[j]].h, refls[ix[j]].l, Present(mask, ix[j])))
  }

  datatype Rule = AGlide | CGlide | NGlide | DGlide

  /** The test names, the keys of `tests`. */
  function Name(rule: Rule): string
  {
    match rule
    case AGlide => "a-glide (h=2n)"
    case CGlide => "c-glide (l=2n)"
    case NGlide => "n-glide (h+l=2n)"
    case DGlide => "d-glide (h+l≡0 mod 4)"
  }

  /** The tests in the order `Object.entries` visits them. */
  const Rules: seq<Rule> := [AGlide, CGlide, NGlide, DGlide]

  /** The allow rules, on the 32-bit patterns as `&` sees them: a allows h = 2n, c allows
      l = 2n, n allows h + l = 2n and d allows h + l = 4n. */
  function Allows(rule: Rule, h: int, l: int): (b: bool)
    ensures rule == AGlide ==> (b <==> h % 2 == 0)
    ensures rule == CGlide ==> (b <==> l % 2 == 0)
    ensures rule == NGlide ==> (b <==> (h + l) % 2 == 0)
    ensures rule == DGlide ==> (b <==> (h + l) % 4 == 0)
  {
    match rule
    case AGlide => LowBits(h, 2) == 0
    case CGlide => LowBits(l, 2) == 0
    case NGlide => LowBits(h + l, 2) == 0
    case DGlide => LowBits(h + l, 4) == 0
  }

  /** A d-glide allow is also an n-glide allow. */
  lemma DAllowsOnlyNAllowed(h: int, l: int)
    ensures Allows(DGlide, h, l) ==> Allows(NGlide, h, l)
  {
    var s := h + l;
    if s % 4 == 0 {
      assert s == (s / 4) * 4;
      assert s == (s / 4 * 2) * 2 + 0;
      ModOfMultiplePlus(s / 4 * 2, 2, 0);
    }
  }

  /** `{ totAllow, preAllow, totForb, preForb }` */
  datatype Counts = Counts(totAllow: nat, preAllow: nat, totForb: nat, preForb: nat)

  predicate Consistent(c: Counts)
  {
    c.preAllow <= c.totAllow && c.preForb <= c.totForb
  }

  /** The counts of one rule over the selection. */
  function CountRule(sel: seq<Pick>, rule: Rule): (c: Counts)
    ensures Consistent(c)
  {
    if |sel| == 0 then Counts(0, 0, 0, 0)
    else
      var c := CountRule(sel[..|sel| - 1], rule);
      var it := sel[|sel| - 1];
      var dp := if it.present then 1 else 0;
      if Allows(rule, it.h, it.l) then c.(totAllow := c.totAllow + 1, preAllow := c.preAllow + dp)
      else c.(totForb := c.totForb + 1, preForb := c.preForb + dp)
  }

  /** Under each rule every selected reflection is on exactly one side. */
  lemma {:induction false} CountsCoverSelection(sel: seq<Pick>, rule: Rule)
    ensures CountRule(sel, rule).totAllow + CountRule(sel, rule).totForb == |sel|
  {
    if |sel| > 0 {
      CountsCoverSelection(sel[..|sel| - 1], rule);
    }
  }

  /** `totForb ? preForb / totForb : 1` */
  function ForbRate(c: Counts): (r: real)
    requires Consistent(c)
    ensures 0.0 <= r <= 1.0 && (c.totForb == 0 ==> r == 1.0)
  {
    if c.totForb != 0 then Rate(c.preForb, c.totForb) else 1.0
  }

  /** `totAllow ? preAllow / totAllow : 0` */
  function AllowRate(c: Counts): (r: real)
    requires Consistent(c)
    ensures 0.0 <= r <= 1.0 && (c.totAllow == 0 ==> r == 0.0)
  {
    if c.totAllow != 0 then Rate(c.preAllow, c.totAllow) else 0.0
  }

  /** One pushed line. */
  datatype Line = Line(rule: Rule, forbRate: real, allowRate: real, score: real, counts: Counts)

  /** `score = max(0, 1 − (forbRate + 0.2·(1 − allowRate)))`: in [0, 1], and 1 exactly when no
      forbidden reflection is present and every allowed one is. */
  function LineFor(rule: Rule, c: Counts): (ln: Line)
    requires Consistent(c)
    ensures ln.rule == rule && ln.counts == c
    ensures ln.forbRate == ForbRate(c) && ln.allowRate == AllowRate(c)
    ensures 0.0 <= ln.score <= 1.0
    ensures ln.score == 1.0 <==> ln.forbRate == 0.0 && ln.allowRate == 1.0
  {
    var forbRate := ForbRate(c);
    var allowRate := AllowRate(c);
    var raw := forbRate + 0.2 * (1.0 - allowRate);
    Line(rule, forbRate, allowRate, Max(0.0, 1.0 - raw), c)
  }

  /** `lines` before sorting: one line per rule, in rule order. */
  function Lines(sel: seq<Pick>): (lines: seq<Line>)
    ensures |lines| == 4 && forall q :: 0 <= q < 4 ==> lines[q] == LineFor(Rules[q], CountRule(sel, Rules[q]))
  {
    seq(4, q requires 0 <= q < 4 => LineFor(Rules[q], CountRule(sel, Rules[q])))
  }

  function Score(ln: Line): real
  {
    ln.score
  }

  /** `lines.sort((a, b) => a.score - b.score)`: ascending by score, as written. */
  function RankAsWritten(lines: seq<Line>): seq<Line>
  {
    SortBy(lines, Score)
  }

  /** As written, `best = lines[0]` is the rule with the LOWEST score, that is the one whose
      forbidden reflections are the most present. */
  lemma AsWrittenBestIsLowest(lines: seq<Line>)
    requires |lines| > 0
    ensures forall ln :: ln in lines ==> RankAsWritten(lines)[0].score <= ln.score
  {
    FirstIsMinimum(lines, Score);
  }

  /** A single example: an a-glide that fits perfectly (score 1) loses `best` to a c-glide that
      does not fit at all (score 0). */
  lemma AsWrittenPrefersWorstFit()
    ensures var lines := [Line(AGlide, 0.0, 1.0, 1.0, Counts(10, 10, 10, 0)),
                          Line(CGlide, 1.0, 0.0, 0.0, Counts(10, 0, 10, 10))];
      RankAsWritten(lines)[0].rule == CGlide
  {
    var lines := [Line(AGlide, 0.0, 1.0, 1.0, Counts(10, 10, 10, 0)),
                  Line(CGlide, 1.0, 0.0, 0.0, Counts(10, 0, 10, 10))];
    assert SortBy(lines[1..], Score) == [lines[1]];
  }

  /** The evident intent: the top rule is the one with the highest score (the rank is by
      descending score, `(a, b) => b.score - a.score`). */
  function NegScore(ln: Line): real
  {
    -ln.score
  }

  function RankIntended(lines: seq<Line>): seq<Line>
  {
    SortBy(lines, NegScore)
  }

  /** With the intended order, `best` has the highest score and the ranking is descending. */
  lemma IntendedBestIsHighest(lines: seq<Line>)
    requires |lines| > 0
    ensures |RankIntended(lines)| == |lines|
    ensures forall ln :: ln in lines ==> ln.score <= RankIntended(lines)[0].score
    ensures forall i, j :: 0 <= i < j < |lines| ==> RankIntended(lines)[j].score <= RankIntended(lines)[i].score
  {
    FirstIsMinimum(lines, NegScore);
    SortByFacts(lines, NegScore);
  }

  /** The summary text: either "insufficient data" or headed by the best rule (the percentage
      formatting is not modelled). */
  datatype Summary = Undecidable | Top(rule: Rule)

  datatype GlideResult = GlideResult(summary: Summary, ranked: seq<Line>, best: Line, confidence: real)

  /** `enough`: total ≥ minCount and at least 5 reflections on each side of the best rule. */
  predicate Enough(c: Counts, minCount: int)
  {
    c.totAllow + c.totForb >= minCount && c.totAllow >= 5 && c.totForb >= 5
  }

  /** `confidence`: 0 without enough data, else max(0, 1 − min(1, 2·forbRate)), in [0, 1]. */
  function Confidence(best: Line, minCount: int): (conf: real)
    requires 0.0 <= best.forbRate <= 1.0
    ensures 0.0 <= conf <= 1.0
    ensures !Enough(best.counts, minCount) ==> conf == 0.0
    ensures Enough(best.counts, minCount) ==> (conf == 1.0 <==> best.forbRate == 0.0)
    ensures Enough(best.counts, minCount) && best.forbRate >= 0.5 ==> conf == 0.0
  {
    if Enough(best.counts, minCount) then Max(0.0, 1.0 - Min(1.0, best.forbRate * 2.0)) else 0.0
  }

  /** `analyzeGlide_h0l`, with the ascending sort as written. */
  method AnalyzeGlide(refls: seq<Reflection>, mask: seq<bool>, minCount: int) returns (res: GlideResult)
    ensures res.ranked == RankAsWritten(Lines(Selected(refls, mask)))
    ensures |res.ranked| == 4 && res.best == res.ranked[0]
    ensures forall q :: 0 <= q < 4 ==> res.best.score <= Lines(Selected(refls, mask))[q].score
    ensures res.summary == if Enough(res.best.counts, minCount) then Top(res.best.rule) else Undecidable
    ensures 0.0 <= res.best.forbRate <= 1.0 && res.confidence == Confidence(res.best, minCount)
  {
    var sel := SelectZone(refls, mask);
    var lines: seq<Line> := [];
    for q := 0 to 4
      invariant |lines| == q && forall p :: 0 <= p < q ==> lines[p] == LineFor(Rules[p], CountRule(sel, Rules[p]))
    {
      var c := CountLoop(sel, Rules[q]);
      lines := lines + [LineFor(Rules[q], c)];
    }
    assert lines == Lines(sel);
    lines := SortBy(lines, Score);
    AsWrittenBestIsLowest(Lines(sel));
    SortByMembers(Lines(sel), Score);
    var best := lines[0];
    assert best in Lines(sel);
    var enough := Enough(best.counts, minCount);
    var summary := if enough then Top(best.rule) else Undecidable;
    res := GlideResult(summary, lines, best, Confidence(best, minCount));
  }

  /** The inner loop for one rule. */
  method CountLoop(sel: seq<Pick>, rule: Rule) returns (c: Counts)
    ensures c == CountRule(sel, rule)
  {
    c := Counts(0, 0, 0, 0);
    for j := 0 to |sel|
      invariant c == CountRule(sel[..j], rule)
    {
      assert sel[..j + 1][..j] == sel[..j];
      var it := sel[j];
      if Allows(rule, it.h, it.l) {
        c := c.(totAllow := c.totAllow + 1);
        if it.present {
          c := c.(preAllow := c.preAllow + 1);
        }
      } else {
        c := c.(totForb := c.totForb + 1);
        if it.present {
          c := c.(preForb := c.preForb + 1);
        }
      }
    }
    assert sel[..|sel|] == sel;
  }

  /** The first loop: pushes `{ h, l, present }` for every reflection with k = 0. */
  method SelectZone(refls: seq<Reflection>, mask: seq<bool>) returns (sel: seq<Pick>)
    ensures sel == Selected(refls, mask)
  {
    sel := [];
    ghost var ix: seq<nat> := [];
    for i := 0 to |refls|
      invariant ix == Indices(refls[..i], Planeh0l)
      invariant |sel| == |ix| && forall j :: 0 <= j < |ix| ==>
                  ix[j] < i && sel[j] == Pick(refls[ix[j]].h, refls[ix[j]].l, Present(mask, ix[j]))
    {
      assert refls[..i + 1][..i] == refls[..i];
      var r := refls[i];
      if r.k == 0 {
        sel := sel + [Pick(r.h, r.l, Present(mask, i))];
        ix := ix + [i];
      }
    }
    assert refls[..|refls|] == refls;
  }
}
