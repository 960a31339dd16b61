/** The confidence stars and label the centering table shows for a forbidden/allowed ratio. */
module RenderExt {
  import Extinction
  import Hkl

  /** `{ stars, label }`, the label as `caption` */
  datatype Confidence = Confidence(stars: string, caption: string)

  /** `confidenceFromRatio` */
  function ConfidenceFromRatio(r: real): Confidence
  {
    if r < 0.05 then Confidence("★★★★★", "非常に強い証拠")
    else if r < 0.10 then Confidence("★★★★☆", "強い証拠")
    else if r < 0.20 then Confidence("★★★☆☆", "中程度")
    else if r < 0.30 then Confidence("★★☆☆☆", "弱い証拠")
    else if r < 0.50 then Confidence("★☆☆☆☆", "かなり弱い")
    else Confidence("☆☆☆☆☆", "ほぼ証拠なし")
  }

  /** The number of filled stars: one per threshold 0.05, 0.10, 0.20, 0.30, 0.50 the ratio is
      below. */
  function StarCount(r: real): (n: nat)
    ensures n <= 5
  {
    (if r < 0.05 then 1 else 0) + (if r < 0.10 then 1 else 0) + (if r < 0.20 then 1 else 0)
    + (if r < 0.30 then 1 else 0) + (if r < 0.50 then 1 else 0)
  }

  /** n filled stars followed by 5 − n empty ones. */
  function Stars(n: nat): (s: string)
    requires n <= 5
    ensures |s| == 5
    ensures forall i :: 0 <= i < 5 ==> s[i] == if i < n then '★' else '☆'
  {
    seq(5, i requires 0 <= i < 5 => if i < n then '★' else '☆')
  }

  /** The star string is always five characters, filled ones first, as many as the thresholds
      the ratio is below. */
  lemma StarsOfRatio(r: real)
    ensures ConfidenceFromRatio(r).stars == Stars(StarCount(r))
  {
    var s := ConfidenceFromRatio(r).stars;
    assert |s| == 5;
    forall i | 0 <= i < 5 ensures s[i] == Stars(StarCount(r))[i] {
    }
  }

  /** A larger ratio never shows more stars. */
  lemma StarsNonIncreasing(r1: real, r2: real)
    requires r1 <= r2
    ensures StarCount(r1) >= StarCount(r2)
  {
  }

  /** The primitive baseline, with ratio 1, always shows no star. */
  lemma BaselineHasNoStars(refls: seq<Hkl.Reflection>, withE: bool)
    ensures var p := Extinction.Scores(refls, withE)[3];
      p.lattice == Extinction.LatP && StarCount(p.ratio) == 0
      && ConfidenceFromRatio(p.ratio) == Confidence("☆☆☆☆☆", "ほぼ証拠なし")
  {
  }
}
