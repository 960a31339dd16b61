/** Global normalisation of amplitudes: E = F / sqrt(<F²>) with one mean over all reflections. */
module ENormalize {
  import opened Numbers
  import opened Hkl

  function Squares(refs: seq<Reflection>): (sq: seq<real>)
    ensures |sq| == |refs| && forall i :: 0 <= i < |refs| ==> sq[i] == refs[i].F * refs[i].F
  {
    seq(|refs|, i requires 0 <= i < |refs| => refs[i].F * refs[i].F)
  }

  /** The result of `computeE`: new records with E set, and the mean F² used. */
  datatype Normalized = Normalized(reflections: seq<Reflection>, meanF2: real)

  /** The denominator sqrt(meanF2 || 1e-12): positive, and its square is the mean, or 1e-12
      when the mean is 0. */
  function Denominator(meanF2: real, sqrt: real -> real): (d: real)
    requires IsSqrt(sqrt) && meanF2 >= 0.0
    ensures d > 0.0 && d * d == (if meanF2 == 0.0 then 1.0 / 1000000000000.0 else meanF2)
  {
    var x := if meanF2 == 0.0 then 1.0 / 1000000000000.0 else meanF2;
    SqrtOfPositive(sqrt, x);
    sqrt(x)
  }

  /** `computeE`: meanF2 = ΣF² / max(n, 1); every record is copied with E = F / sqrt(meanF2),
      the square root taken of 1e-12 instead when the mean is 0. The input is not changed,
      being a value. */
  function ComputeE(refs: seq<Reflection>, sqrt: real -> real): (r: Normalized)
    requires IsSqrt(sqrt)
    ensures r.meanF2 == Sum(Squares(refs)) / (if |refs| > 1 then |refs| else 1) as real
    ensures r.meanF2 >= 0.0 && (|refs| == 0 ==> r.meanF2 == 0.0)
    ensures |r.reflections| == |refs|
    ensures forall i :: 0 <= i < |refs| ==> r.reflections[i] == refs[i].(E := r.reflections[i].E)
    ensures forall i :: 0 <= i < |refs| ==>
              r.reflections[i].E.Fin? && r.reflections[i].E.value * Denominator(r.meanF2, sqrt) == refs[i].F
    ensures (forall i :: 0 <= i < |refs| ==> refs[i].F >= 0.0) ==>
              forall i :: 0 <= i < |refs| ==> r.reflections[i].E.Fin? && r.reflections[i].E.value >= 0.0
    ensures r.meanF2 > 0.0 ==> Sum(ESquares(r.reflections)) == |refs| as real
  {
    var meanF2 := MeanF2(refs);
    var denom := Denominator(meanF2, sqrt);
    var out := Rescale(refs, denom);
    MeanSquareIsOne(refs, out, denom, meanF2);
    Normalized(out, meanF2)
  }

  /** ΣF² / max(n, 1): never negative, and 0 for no reflections. */
  function MeanF2(refs: seq<Reflection>): (m: real)
    ensures m == Sum(Squares(refs)) / (if |refs| > 1 then |refs| else 1) as real
    ensures m >= 0.0 && (|refs| == 0 ==> m == 0.0)
  {
    var sq := Squares(refs);
    SquaresNonNegative(refs);
    SumNonNegative(sq);
    Sum(sq) / (if |refs| > 1 then |refs| else 1) as real
  }

  /** Every record copied with E = F / d: each new E times d gives back F, and keeps F's sign. */
  function Rescale(refs: seq<Reflection>, d: real): (out: seq<Reflection>)
    requires d > 0.0
    ensures |out| == |refs|
    ensures forall i :: 0 <= i < |refs| ==> out[i] == refs[i].(E := out[i].E) && out[i].E.Fin?
    ensures forall i :: 0 <= i < |refs| ==> out[i].E.value * d == refs[i].F
    ensures forall i :: 0 <= i < |refs| && refs[i].F >= 0.0 ==> out[i].E.value >= 0.0
  {
    var out := seq(|refs|, i requires 0 <= i < |refs| => refs[i].(E := Fin(refs[i].F / d)));
    Quotients(refs, out, d);
    out
  }

  lemma Quotients(refs: seq<Reflection>, out: seq<Reflection>, d: real)
    requires d > 0.0 && |out| == |refs|
    requires forall i :: 0 <= i < |refs| ==> out[i] == refs[i].(E := Fin(refs[i].F / d))
    ensures forall i :: 0 <= i < |refs| ==> out[i].E.value * d == refs[i].F
    ensures forall i :: 0 <= i < |refs| && refs[i].F >= 0.0 ==> out[i].E.value >= 0.0
  {
    forall i | 0 <= i < |refs|
      ensures out[i].E.value * d == refs[i].F
      ensures refs[i].F >= 0.0 ==> out[i].E.value >= 0.0
    {
      QuotientFacts(refs[i].F, d);
    }
  }

  lemma QuotientFacts(f: real, d: real)
    requires d > 0.0
    ensures (f / d) * d == f && (f >= 0.0 ==> f / d >= 0.0)
  {
  }

  lemma SquaresNonNegative(refs: seq<Reflection>)
    ensures forall i :: 0 <= i < |refs| ==> Squares(refs)[i] >= 0.0
  {
    forall i | 0 <= i < |refs| ensures Squares(refs)[i] >= 0.0 {
      var f := refs[i].F;
      if f < 0.0 {
        assert f * f == (-f) * (-f);
      }
    }
  }

  /** Squares of the finite E values (a non-finite E adds nothing). */
  function ESquares(refs: seq<Reflection>): (sq: seq<real>)
    ensures |sq| == |refs|
    ensures forall i :: 0 <= i < |refs| && refs[i].E.Fin? ==> sq[i] == refs[i].E.value * refs[i].E.value
  {
    seq(|refs|, i requires 0 <= i < |refs| => if refs[i].E.Fin? then refs[i].E.value * refs[i].E.value else 0.0)
  }

  /** With a non-zero mean, the normalised amplitudes have <E²> = 1. */
  lemma MeanSquareIsOne(refs: seq<Reflection>, out: seq<Reflection>, d: real, m: real)
    requires d > 0.0 && out == Rescale(refs, d) && (m > 0.0 ==> d * d == m)
    requires m == MeanF2(refs)
    ensures m > 0.0 ==> Sum(ESquares(out)) == |refs| as real
  {
    if m > 0.0 {
      ScaledSquares(refs, out, d, m);
      CountFromMean(Sum(Squares(refs)), |refs|, m);
    }
  }

  lemma ScaledSquares(refs: seq<Reflection>, out: seq<Reflection>, d: real, m: real)
    requires |out| == |refs| && m > 0.0 && d * d == m
    requires forall i :: 0 <= i < |refs| ==> out[i].E.Fin? && out[i].E.value * d == refs[i].F
    ensures Sum(ESquares(out)) == Sum(Squares(refs)) * (1.0 / m)
  {
    var e2, sq := ESquares(out), Squares(refs);
    forall i | 0 <= i < |refs| ensures e2[i] == sq[i] * (1.0 / m) {
      SquareOfProduct(out[i].E.value, d, refs[i].F, m);
    }
    SumScaled(e2, sq, 1.0 / m);
  }

  lemma SquareOfProduct(e: real, d: real, f: real, m: real)
    requires e * d == f && d * d == m && m > 0.0
    ensures e * e == f * f * (1.0 / m)
  {
    assert f * f == (e * e) * (d * d);
  }

  lemma CountFromMean(total: real, n: nat, m: real)
    requires m > 0.0 && (n == 0 ==> total == 0.0) && m == total / (if n > 1 then n else 1) as real
    ensures total * (1.0 / m) == n as real
  {
    assert n >= 1 by {
      assert n == 0 ==> m == 0.0;
    }
    MeanTimesCount(total, n as real, m);
  }

  lemma MeanTimesCount(total: real, n: real, m: real)
    requires n >= 1.0 && m > 0.0 && m == total / n
    ensures total * (1.0 / m) == n
  {
    assert total == m * n;
  }
}
