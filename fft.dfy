/** The 1-D inverse discrete Fourier transform used by the Patterson synthesis: a direct O(N²)
    sum over a table of N twiddle factors e^(−2πi·j/N), scaled by 1/N. */
module Fft {
  import opened Numbers

  /** `(k * n) % N`: the twiddle used for output k and input n. */
  function TwIndex(k: nat, j: nat, size: nat): (idx: nat)
    requires size > 0
    ensures idx < size
  {
    (k * j) % size
  }

  /** Input planes and twiddle tables of one common length. */
  predicate Shaped(xr: seq<real>, xi: seq<real>, tr: seq<real>, ti: seq<real>)
  {
    |xi| == |xr| && |tr| == |xr| && |ti| == |xr|
  }

  /** `wr = twiddleReal[idx]` */
  function Wr(tr: seq<real>, k: nat, j: nat): real
    requires |tr| > 0
  {
    tr[TwIndex(k, j, |tr|)]
  }

  /** `wi = -twiddleImag[idx]`: the conjugate twiddle of the inverse transform. */
  function Wi(ti: seq<real>, k: nat, j: nat): real
    requires |ti| > 0
  {
    -ti[TwIndex(k, j, |ti|)]
  }

  /** `sumR` after the first m terms: Σ_{n<m} (xr[n]·wr − xi[n]·wi). */
  function PartialRe(xr: seq<real>, xi: seq<real>, tr: seq<real>, ti: seq<real>, k: nat, m: nat): real
    requires Shaped(xr, xi, tr, ti) && m <= |xr|
  {
    if m == 0 then 0.0
    else PartialRe(xr, xi, tr, ti, k, m - 1) + (Times(xr[m - 1], Wr(tr, k, m - 1)) - Times(xi[m - 1], Wi(ti, k, m - 1)))
  }

  /** `sumI` after the first m terms: Σ_{n<m} (xr[n]·wi + xi[n]·wr). */
  function PartialIm(xr: seq<real>, xi: seq<real>, tr: seq<real>, ti: seq<real>, k: nat, m: nat): real
    requires Shaped(xr, xi, tr, ti) && m <= |xr|
  {
    if m == 0 then 0.0
    else PartialIm(xr, xi, tr, ti, k, m - 1) + (Times(xr[m - 1], Wi(ti, k, m - 1)) + Times(xi[m - 1], Wr(tr, k, m - 1)))
  }

  /** `outR`: outR[k] = (1/N)·Σ_n (xr[n]·wr − xi[n]·wi). */
  function OutRe(xr: seq<real>, xi: seq<real>, tr: seq<real>, ti: seq<real>): (o: seq<real>)
    requires Shaped(xr, xi, tr, ti)
    ensures |o| == |xr|
  {
    seq(|xr|, k requires 0 <= k < |xr| => PartialRe(xr, xi, tr, ti, k, |xr|) / |xr| as real)
  }

  /** `outI`: outI[k] = (1/N)·Σ_n (xr[n]·wi + xi[n]·wr). */
  function OutIm(xr: seq<real>, xi: seq<real>, tr: seq<real>, ti: seq<real>): (o: seq<real>)
    requires Shaped(xr, xi, tr, ti)
    ensures |o| == |xr|
  {
    seq(|xr|, k requires 0 <= k < |xr| => PartialIm(xr, xi, tr, ti, k, |xr|) / |xr| as real)
  }

  /** `-2 * Math.PI * i / N` */
  function Angle(i: nat, size: nat, pi: real): real
    requires size > 0
  {
    Times(-2.0 * pi, i as real) / size as real
  }

  /** A twiddle table: `f(angle)` for each of the N angles. Applied to `Math.cos` it is
      `twiddleReal`, applied to `Math.sin` it is `twiddleImag`; the trigonometric functions and π
      are parameters. */
  function Twiddle(size: nat, f: real -> real, pi: real): (t: seq<real>)
    ensures |t| == size
  {
    seq(size, i requires 0 <= i < size => f(Angle(i, size, pi)))
  }

  /** The first twiddle has angle 0, so it is (cos 0, sin 0). */
  lemma FirstTwiddle(size: nat, cos: real -> real, sin: real -> real, pi: real)
    requires size > 0
    ensures Twiddle(size, cos, pi)[0] == cos(0.0) && Twiddle(size, sin, pi)[0] == sin(0.0)
  {
    assert Angle(0, size, pi) == 0.0;
  }

  /** All-zero input gives all-zero output. */
  lemma ZeroInZeroOut(xr: seq<real>, xi: seq<real>, tr: seq<real>, ti: seq<real>)
    requires Shaped(xr, xi, tr, ti)
    requires forall j :: 0 <= j < |xr| ==> xr[j] == 0.0 && xi[j] == 0.0
    ensures forall k :: 0 <= k < |xr| ==> OutRe(xr, xi, tr, ti)[k] == 0.0 && OutIm(xr, xi, tr, ti)[k] == 0.0
  {
    forall k: nat | k < |xr|
      ensures PartialRe(xr, xi, tr, ti, k, |xr|) == 0.0 && PartialIm(xr, xi, tr, ti, k, |xr|) == 0.0
    {
      PartialOfZero(xr, xi, tr, ti, k, |xr|);
    }
  }

  lemma {:induction false} PartialOfZero(xr: seq<real>, xi: seq<real>, tr: seq<real>, ti: seq<real>, k: nat, m: nat)
    requires Shaped(xr, xi, tr, ti) && m <= |xr|
    requires forall j :: 0 <= j < |xr| ==> xr[j] == 0.0 && xi[j] == 0.0
    ensures PartialRe(xr, xi, tr, ti, k, m) == 0.0 && PartialIm(xr, xi, tr, ti, k, m) == 0.0
  {
    if m > 0 {
      PartialOfZero(xr, xi, tr, ti, k, m - 1);
    }
  }

  /** c·x + d·y, element by element. */
  function Combine(c: real, x: seq<real>, d: real, y: seq<real>): (z: seq<real>)
    requires |y| == |x|
    ensures |z| == |x|
  {
    seq(|x|, j requires 0 <= j < |x| => Times(c, x[j]) + Times(d, y[j]))
  }

  /** For a fixed twiddle table the transform is linear in (real, imag). */
  lemma Linear(c: real, d: real, xr: seq<real>, xi: seq<real>, yr: seq<real>, yi: seq<real>,
               tr: seq<real>, ti: seq<real>)
    requires Shaped(xr, xi, tr, ti) && Shaped(yr, yi, tr, ti)
    ensures OutRe(Combine(c, xr, d, yr), Combine(c, xi, d, yi), tr, ti)
            == Combine(c, OutRe(xr, xi, tr, ti), d, OutRe(yr, yi, tr, ti))
    ensures OutIm(Combine(c, xr, d, yr), Combine(c, xi, d, yi), tr, ti)
            == Combine(c, OutIm(xr, xi, tr, ti), d, OutIm(yr, yi, tr, ti))
  {
    var zr, zi := Combine(c, xr, d, yr), Combine(c, xi, d, yi);
    var n := |xr|;
    forall k: nat | k < n
      ensures OutRe(zr, zi, tr, ti)[k] == Combine(c, OutRe(xr, xi, tr, ti), d, OutRe(yr, yi, tr, ti))[k]
      ensures OutIm(zr, zi, tr, ti)[k] == Combine(c, OutIm(xr, xi, tr, ti), d, OutIm(yr, yi, tr, ti))[k]
    {
      PartialLinearRe(c, d, xr, xi, yr, yi, tr, ti, k, n);
      PartialLinearIm(c, d, xr, xi, yr, yi, tr, ti, k, n);
      DivLinear(c, d, PartialRe(xr, xi, tr, ti, k, n), PartialRe(yr, yi, tr, ti, k, n), n as real);
      DivLinear(c, d, PartialIm(xr, xi, tr, ti, k, n), PartialIm(yr, yi, tr, ti, k, n), n as real);
    }
  }

  lemma DivLinear(c: real, d: real, p: real, q: real, n: real)
    requires n > 0.0
    ensures (Times(c, p) + Times(d, q)) / n == Times(c, p / n) + Times(d, q / n)
  {
  }

  lemma Distribute(c: real, d: real, a: real, b: real, w: real)
    ensures Times(Times(c, a) + Times(d, b), w) == Times(c, Times(a, w)) + Times(d, Times(b, w))
  {
  }

  /** One step of the sums: the combined term is the combination of the terms. */
  lemma Step(c: real, d: real, p: real, q: real, a: real, b: real, a': real, b': real)
    ensures Times(c, p) + Times(d, q) + ((Times(c, a) + Times(d, a')) + (Times(c, b) + Times(d, b')))
            == Times(c, p + (a + b)) + Times(d, q + (a' + b'))
  {
  }

  lemma {:induction false} PartialLinearRe(c: real, d: real, xr: seq<real>, xi: seq<real>, yr: seq<real>,
                                           yi: seq<real>, tr: seq<real>, ti: seq<real>, k: nat, m: nat)
    requires Shaped(xr, xi, tr, ti) && Shaped(yr, yi, tr, ti) && m <= |xr|
    ensures PartialRe(Combine(c, xr, d, yr), Combine(c, xi, d, yi), tr, ti, k, m)
            == Times(c, PartialRe(xr, xi, tr, ti, k, m)) + Times(d, PartialRe(yr, yi, tr, ti, k, m))
  {
    if m > 0 {
      var zr, zi := Combine(c, xr, d, yr), Combine(c, xi, d, yi);
      PartialLinearRe(c, d, xr, xi, yr, yi, tr, ti, k, m - 1);
      var j := m - 1;
      var wr, wi := Wr(tr, k, j), Wi(ti, k, j);
      Distribute(c, d, xr[j], yr[j], wr);
      Distribute(c, d, xi[j], yi[j], -wi);
      assert Times(zr[j], wr) - Times(zi[j], wi) == Times(zr[j], wr) + Times(zi[j], -wi);
      assert Times(xr[j], wr) - Times(xi[j], wi) == Times(xr[j], wr) + Times(xi[j], -wi);
      assert Times(yr[j], wr) - Times(yi[j], wi) == Times(yr[j], wr) + Times(yi[j], -wi);
      Step(c, d, PartialRe(xr, xi, tr, ti, k, j), PartialRe(yr, yi, tr, ti, k, j),
           Times(xr[j], wr), Times(xi[j], -wi), Times(yr[j], wr), Times(yi[j], -wi));
    }
  }

  lemma {:induction false} PartialLinearIm(c: real, d: real, xr: seq<real>, xi: seq<real>, yr: seq<real>,
                                           yi: seq<real>, tr: seq<real>, ti: seq<real>, k: nat, m: nat)
    requires Shaped(xr, xi, tr, ti) && Shaped(yr, yi, tr, ti) && m <= |xr|
    ensures PartialIm(Combine(c, xr, d, yr), Combine(c, xi, d, yi), tr, ti, k, m)
            == Times(c, PartialIm(xr, xi, tr, ti, k, m)) + Times(d, PartialIm(yr, yi, tr, ti, k, m))
  {
    if m > 0 {
      var zr, zi := Combine(c, xr, d, yr), Combine(c, xi, d, yi);
      PartialLinearIm(c, d, xr, xi, yr, yi, tr, ti, k, m - 1);
      var j := m - 1;
      var wr, wi := Wr(tr, k, j), Wi(ti, k, j);
      Distribute(c, d, xr[j], yr[j], wi);
      Distribute(c, d, xi[j], yi[j], wr);
      Step(c, d, PartialIm(xr, xi, tr, ti, k, j), PartialIm(yr, yi, tr, ti, k, j),
           Times(xr[j], wi), Times(xi[j], wr), Times(yr[j], wi), Times(yi[j], wr));
    }
  }

  /** A scaled delta c at position 0 contributes only its first term: c·twiddle[0] to the real
      sum and −c·twiddleImag[0] to the imaginary one, for every k. */
  lemma {:induction false} PartialOfDelta(c: real, xr: seq<real>, xi: seq<real>, tr: seq<real>, ti: seq<real>, k: nat, m: nat)
    requires Shaped(xr, xi, tr, ti) && 0 < m <= |xr|
    requires xr[0] == c && forall j :: 0 < j < |xr| ==> xr[j] == 0.0
    requires forall j :: 0 <= j < |xi| ==> xi[j] == 0.0
    ensures PartialRe(xr, xi, tr, ti, k, m) == Times(c, tr[0])
    ensures PartialIm(xr, xi, tr, ti, k, m) == Times(c, -ti[0])
  {
    var j := m - 1;
    ZeroTimes(Wr(tr, k, j));
    ZeroTimes(Wi(ti, k, j));
    if m > 1 {
      PartialOfDelta(c, xr, xi, tr, ti, k, j);
    } else {
      assert TwIndex(k, 0, |tr|) == 0;
    }
  }

  lemma ZeroTimes(w: real)
    ensures Times(0.0, w) == 0.0
  {
  }

  /** A delta of height c at n = 0 gives the uniform output c·twiddleReal[0]/N and
      −c·twiddleImag[0]/N at every k. */
  lemma DeltaUniform(c: real, xr: seq<real>, xi: seq<real>, tr: seq<real>, ti: seq<real>)
    requires Shaped(xr, xi, tr, ti) && |xr| > 0
    requires xr[0] == c && forall j :: 0 < j < |xr| ==> xr[j] == 0.0
    requires forall j :: 0 <= j < |xi| ==> xi[j] == 0.0
    ensures forall k :: 0 <= k < |xr| ==>
              OutRe(xr, xi, tr, ti)[k] == Times(c, tr[0]) / |xr| as real
              && OutIm(xr, xi, tr, ti)[k] == Times(c, -ti[0]) / |xr| as real
  {
    forall k: nat | k < |xr|
      ensures PartialRe(xr, xi, tr, ti, k, |xr|) == Times(c, tr[0])
      ensures PartialIm(xr, xi, tr, ti, k, |xr|) == Times(c, -ti[0])
    {
      PartialOfDelta(c, xr, xi, tr, ti, k, |xr|);
    }
  }

  /** A line that is a delta of height c or, when `hit` is false, all zero: the output at k is
      c·twiddleReal[0]/N or 0, and the imaginary output is 0 when twiddleImag[0] is. */
  lemma DeltaOrZero(c: real, hit: bool, xr: seq<real>, xi: seq<real>, tr: seq<real>, ti: seq<real>, k: nat)
    requires Shaped(xr, xi, tr, ti) && k < |xr| && ti[0] == 0.0
    requires forall j :: 0 <= j < |xr| ==> xr[j] == if j == 0 && hit then c else 0.0
    requires forall j :: 0 <= j < |xi| ==> xi[j] == 0.0
    ensures OutRe(xr, xi, tr, ti)[k] == if hit then Times(c, tr[0]) / |xr| as real else 0.0
    ensures OutIm(xr, xi, tr, ti)[k] == 0.0
  {
    if hit {
      DeltaUniform(c, xr, xi, tr, ti);
    } else {
      ZeroInZeroOut(xr, xi, tr, ti);
    }
  }

  /** The unit impulse [1, 0, …, 0] with the table built from cos 0 = 1 and sin 0 = 0 gives
      1/N in every real output and 0 in every imaginary one. */
  lemma UnitImpulse(size: nat, cos: real -> real, sin: real -> real, pi: real)
    requires size > 0 && cos(0.0) == 1.0 && sin(0.0) == 0.0
    ensures var xr := seq(size, j requires 0 <= j < size => if j == 0 then 1.0 else 0.0);
      var tr, ti := Twiddle(size, cos, pi), Twiddle(size, sin, pi);
      && OutRe(xr, Zeros(size), tr, ti) == seq(size, _ => 1.0 / size as real)
      && OutIm(xr, Zeros(size), tr, ti) == Zeros(size)
  {
    var xr := seq(size, j requires 0 <= j < size => if j == 0 then 1.0 else 0.0);
    var tr, ti := Twiddle(size, cos, pi), Twiddle(size, sin, pi);
    FirstTwiddle(size, cos, sin, pi);
    DeltaUniform(1.0, xr, Zeros(size), tr, ti);
  }

  /** `class FFT`: the two planes being transformed and the twiddle tables. */
  class FFT {
    var size: nat
    var re: array<real>
    var im: array<real>
    var twiddleReal: array<real>
    var twiddleImag: array<real>

    /** Every array has length `size`, and the planes are separate from each other and from the
        tables, so writing one never changes another. */
    predicate Valid()
      reads this
    {
      && re.Length == size && im.Length == size
      && twiddleReal.Length == size && twiddleImag.Length == size
      && re != im && re != twiddleReal && re != twiddleImag && im != twiddleReal && im != twiddleImag
    }

    /** `constructor(size)`: zeroed planes and the twiddle tables of that size. */
    constructor (size: nat, cos: real -> real, sin: real -> real, pi: real)
      ensures Valid() && this.size == size
      ensures fresh(re) && fresh(im) && fresh(twiddleReal) && fresh(twiddleImag)
      ensures re[..] == Zeros(size) && im[..] == Zeros(size)
      ensures twiddleReal[..] == Twiddle(size, cos, pi) && twiddleImag[..] == Twiddle(size, sin, pi)
    {
      this.size := size;
      re := new real[size](_ => 0.0);
      im := new real[size](_ => 0.0);
      new;
      assert re[..] == Zeros(size) && im[..] == Zeros(size);
      BuildTwiddles(cos, sin, pi);
    }

    /** `_buildTwiddles`: fresh tables, filled in one loop. */
    method BuildTwiddles(cos: real -> real, sin: real -> real, pi: real)
      modifies this
      ensures size == old(size) && re == old(re) && im == old(im)
      ensures fresh(twiddleReal) && fresh(twiddleImag)
      ensures twiddleReal.Length == size && twiddleImag.Length == size
      ensures twiddleReal[..] == Twiddle(size, cos, pi) && twiddleImag[..] == Twiddle(size, sin, pi)
    {
      var N := size;
      var tr := new real[N];
      var ti := new real[N];
      for i := 0 to N
        modifies tr, ti
        invariant forall j :: 0 <= j < i ==> tr[j] == cos(Angle(j, N, pi)) && ti[j] == sin(Angle(j, N, pi))
      {
        var angle := Times(-2.0 * pi, i as real) / N as real;
        tr[i] := cos(angle);
        ti[i] := sin(angle);
      }
      twiddleReal, twiddleImag := tr, ti;
    }

    /** `inverseTransform`: replaces `real` and `imag` by fresh arrays holding outR and outI of
        the old planes; the size and the twiddle tables are untouched. */
    method InverseTransform()
      requires Valid()
      modifies this
      ensures Valid()
      ensures size == old(size) && twiddleReal == old(twiddleReal) && twiddleImag == old(twiddleImag)
      ensures fresh(re) && fresh(im)
      ensures re[..] == OutRe(old(re[..]), old(im[..]), twiddleReal[..], twiddleImag[..])
      ensures im[..] == OutIm(old(re[..]), old(im[..]), twiddleReal[..], twiddleImag[..])
    {
      var N := size;
      ghost var xr, xi, tr, ti := re[..], im[..], twiddleReal[..], twiddleImag[..];
      var outR := new real[N];
      var outI := new real[N];
      for k := 0 to N
        modifies outR, outI
        invariant forall k' :: 0 <= k' < k ==>
                    outR[k'] == PartialRe(xr, xi, tr, ti, k', N) / N as real
                    && outI[k'] == PartialIm(xr, xi, tr, ti, k', N) / N as real
      {
        var sumR := 0.0;
        var sumI := 0.0;
        for n := 0 to N
          modifies {}
          invariant sumR == PartialRe(xr, xi, tr, ti, k, n) && sumI == PartialIm(xr, xi, tr, ti, k, n)
        {
          var idx := (k * n) % N;
          var wr := twiddleReal[idx];
          var wi := -twiddleImag[idx];
          var xr' := re[n];
          var xi' := im[n];
          sumR := sumR + (Times(xr', wr) - Times(xi', wi));
          sumI := sumI + (Times(xr', wi) + Times(xi', wr));
        }
        outR[k] := sumR / N as real;
        outI[k] := sumI / N as real;
      }
      re := outR;
      im := outI;
    }
  }
}
