/** The moment summary of the finite |E| values: ⟨|E|⟩, ⟨|E|²⟩, ⟨|E|³⟩, ⟨|E|⁴⟩, |⟨|E|²⟩ − 1|
    and ⟨|E² − 1|⟩ with its centric/acentric call. */
module Stats {
  import opened Wrappers
  import opened Numbers
  import opened Hkl
  import opened EHistogram

  /** `arr.reduce((a, b) => a + b, 0) / arr.length` */
  function Mean(xs: seq<real>): real
    requires |xs| > 0
  {
    Sum(xs) / |xs| as real
  }

  /** Bounds on the elements bound the sum. */
  lemma {:induction false} SumBounds(xs: seq<real>, lo: real, hi: real)
    requires forall i :: 0 <= i < |xs| ==> lo <= xs[i] <= hi
    ensures Times(|xs| as real, lo) <= Sum(xs) <= Times(|xs| as real, hi)
  {
    if |xs| > 0 {
      SumBounds(xs[..|xs| - 1], lo, hi);
      assert Times((|xs| - 1) as real, lo) + lo == Times(|xs| as real, lo);
      assert Times((|xs| - 1) as real, hi) + hi == Times(|xs| as real, hi);
    }
  }

  /** A mean lies between the smallest and the largest value. */
  lemma MeanBetween(xs: seq<real>)
    requires |xs| > 0
    ensures SeqMin(xs) <= Mean(xs) <= SeqMax(xs)
  {
    var lo, hi := SeqMin(xs), SeqMax(xs);
    var n := |xs| as real;
    SumBounds(xs, lo, hi);
    DivBetween(Sum(xs), n, lo, hi);
  }

  lemma DivBetween(s: real, n: real, lo: real, hi: real)
    requires n > 0.0 && Times(n, lo) <= s <= Times(n, hi)
    ensures lo <= s / n <= hi
  {
    assert (s / n) * n == s;
  }

  lemma AbsDiv(s: real, n: real)
    requires n > 0.0
    ensures Abs(s / n) == Abs(s) / n
  {
    if s < 0.0 {
      assert -(s / n) == (-s) / n;
    }
  }

  lemma DivMonotone(a: real, b: real, n: real)
    requires n > 0.0 && a <= b
    ensures a / n <= b / n
  {
    assert Times(n, a / n) == a && Times(n, b / n) == b;
    DivBetween(a, n, a / n, b / n);
  }

  /** |Σ a| ≤ Σ |a|. */
  lemma {:induction false} SumAbsAtLeast(a: seq<real>, b: seq<real>)
    requires |a| == |b| && forall i :: 0 <= i < |a| ==> b[i] == Abs(a[i])
    ensures Abs(Sum(a)) <= Sum(b)
  {
    if |a| > 0 {
      SumAbsAtLeast(a[..|a| - 1], b[..|b| - 1]);
    }
  }

  /** `Math.pow(x, p)` for a whole exponent. */
  function Pow(x: real, p: nat): (r: real)
    ensures x >= 0.0 ==> r >= 0.0
  {
    if p == 0 then 1.0 else
      var q := Pow(x, p - 1);
      NonNegativeMul(x, q);
      x * q
  }

  lemma NonNegativeMul(a: real, b: real)
    ensures a >= 0.0 && b >= 0.0 ==> a * b >= 0.0
  {
  }

  function Powers(xs: seq<real>, p: nat): (ys: seq<real>)
    ensures |ys| == |xs| && forall i :: 0 <= i < |xs| ==> ys[i] == Pow(xs[i], p)
  {
    seq(|xs|, i requires 0 <= i < |xs| => Pow(xs[i], p))
  }

  /** `x * x` for each value. */
  function Squares(xs: seq<real>): (ys: seq<real>)
    ensures |ys| == |xs| && forall i :: 0 <= i < |xs| ==> ys[i] == Sq(xs[i])
  {
    seq(|xs|, i requires 0 <= i < |xs| => Sq(xs[i]))
  }

  /** `x * x - 1` for each value, before `Math.abs`. */
  function SquaresMinusOne(xs: seq<real>): (ys: seq<real>)
    ensures |ys| == |xs| && forall i :: 0 <= i < |xs| ==> ys[i] == Sq(xs[i]) - 1.0
  {
    seq(|xs|, i requires 0 <= i < |xs| => Sq(xs[i]) - 1.0)
  }

  datatype EStats = EStats(n: nat, e1: real, e2: real, e3: real, e4: real, e2m1: real,
                           e2minus1Abs: real, likely: Likely)

  /** `eStats` */
  function EStatsOf(refls: seq<Reflection>): (r: Option<EStats>)
    ensures r.None? <==> |AbsE(refls)| == 0
  {
    var xs := AbsE(refls);
    if |xs| == 0 then None
    else
      var e2 := Mean(Squares(xs));
      var e2minus1Abs := Mean(E2m1(xs));
      Some(EStats(|xs|, Mean(xs), e2, Mean(Powers(xs, 3)), Mean(Powers(xs, 4)), Abs(e2 - 1.0),
                  e2minus1Abs, Classify(e2minus1Abs)))
  }

  /** The summary counts the finite |E|; every moment is non-negative; ⟨|E|⟩ lies between the
      smallest and largest |E|; and |⟨|E|²⟩ − 1| never exceeds ⟨|E² − 1|⟩. */
  lemma EStatsFacts(refls: seq<Reflection>)
    requires EStatsOf(refls).Some?
    ensures var s := EStatsOf(refls).value; var xs := AbsE(refls);
      && s.n == |xs| > 0
      && s.e1 >= 0.0 && s.e2 >= 0.0 && s.e3 >= 0.0 && s.e4 >= 0.0
      && SeqMin(xs) <= s.e1 <= SeqMax(xs)
      && s.e2m1 <= s.e2minus1Abs
  {
    var xs := AbsE(refls);
    MeanBetween(xs);
    MomentsNonNegative(xs);
    SquareDeviation(xs);
  }

  lemma MeanNonNegative(xs: seq<real>)
    requires |xs| > 0 && forall i :: 0 <= i < |xs| ==> xs[i] >= 0.0
    ensures Mean(xs) >= 0.0
  {
    SumNonNegative(xs);
  }

  lemma MomentsNonNegative(xs: seq<real>)
    requires |xs| > 0 && forall i :: 0 <= i < |xs| ==> xs[i] >= 0.0
    ensures Mean(xs) >= 0.0 && Mean(Squares(xs)) >= 0.0
    ensures Mean(Powers(xs, 3)) >= 0.0 && Mean(Powers(xs, 4)) >= 0.0
  {
    MeanNonNegative(xs);
    var sq := Squares(xs);
    forall i | 0 <= i < |sq| ensures sq[i] >= 0.0 {
      NonNegativeMul(xs[i], xs[i]);
    }
    MeanNonNegative(sq);
    MeanNonNegative(Powers(xs, 3));
    MeanNonNegative(Powers(xs, 4));
  }

  /** |⟨x²⟩ − 1| ≤ ⟨|x² − 1|⟩. */
  lemma SquareDeviation(xs: seq<real>)
    requires |xs| > 0
    ensures Abs(Mean(Squares(xs)) - 1.0) <= Mean(E2m1(xs))
  {
    var n := |xs| as real;
    var d := SquaresMinusOne(xs);
    var sd, sq, se := Sum(d), Sum(Squares(xs)), Sum(E2m1(xs));
    SumAbsAtLeast(d, E2m1(xs));
    SumShift(Squares(xs), d);
    DivShift(sq, n);
    assert Mean(Squares(xs)) - 1.0 == sd / n;
    AbsDiv(sd, n);
    DivMonotone(Abs(sd), se, n);
  }

  lemma DivShift(s: real, n: real)
    requires n > 0.0
    ensures (s - n) / n == s / n - 1.0
  {
    var t := (s - n) / n - s / n + 1.0;
    assert t * n == 0.0;
  }

  /** Subtracting 1 from every element subtracts the length from the sum. */
  lemma {:induction false} SumShift(a: seq<real>, b: seq<real>)
    requires |a| == |b| && forall i :: 0 <= i < |a| ==> b[i] == a[i] - 1.0
    ensures Sum(b) == Sum(a) - |a| as real
  {
    if |a| > 0 {
      SumShift(a[..|a| - 1], b[..|b| - 1]);
    }
  }

  /** The summary's ⟨|E² − 1|⟩ and call are those of `buildEHistogram` on the same input. Both
      sides are built from the same `AbsE`, `E2m1` and `Classify`, so this follows by unfolding. */
  lemma AgreesWithHistogram(refls: seq<Reflection>)
    requires EStatsOf(refls).Some?
    ensures EStatsOf(refls).value.e2minus1Abs == MeanE2m1(AbsE(refls))
    ensures EStatsOf(refls).value.likely == Classify(MeanE2m1(AbsE(refls)))
  {
  }
}
