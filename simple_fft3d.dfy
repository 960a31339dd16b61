/** The second separable 3-D inverse transform: the inputs are copied into new planes with cell
    (x, y, z) at z·N² + y·N + x, then 1-D transforms run along x (contiguous slices), y and z,
    each through a fresh FFT object; only the real plane is returned. */
module SimpleFft3d {
  import opened Numbers
  import opened GridIndex
  import opened Fft
  import opened Fft3d

  /** `ifft1D`: a fresh FFT of the input's length, loaded with the two planes, inverse
      transformed, and both planes copied out. */
  method Ifft1D(r: seq<real>, i: seq<real>, cos: real -> real, sin: real -> real, pi: real)
    returns (outRe: seq<real>, outIm: seq<real>)
    requires |i| == |r|
    ensures outRe == OutRe(r, i, Twiddle(|r|, cos, pi), Twiddle(|r|, sin, pi))
    ensures outIm == OutIm(r, i, Twiddle(|r|, cos, pi), Twiddle(|r|, sin, pi))
  {
    var fft := new FFT(|r|, cos, sin, pi);
    ghost var tr, ti := fft.twiddleReal[..], fft.twiddleImag[..];
    assert tr == Twiddle(|r|, cos, pi) && ti == Twiddle(|r|, sin, pi);
    forall k | 0 <= k < |r| {
      fft.re[k] := r[k];
    }
    forall k | 0 <= k < |i| {
      fft.im[k] := i[k];
    }
    assert fft.re[..] == r && fft.im[..] == i;
    assert fft.twiddleReal[..] == tr && fft.twiddleImag[..] == ti;
    fft.InverseTransform();
    outRe, outIm := fft.re[..], fft.im[..];
    assert outRe == OutRe(r, i, tr, ti) && outIm == OutIm(r, i, tr, ti);
  }

  /** The x line (z, y) is the contiguous run of N cells starting at `base = z*N*N + y*N`. */
  lemma SliceIsLine(s: seq<real>, z: nat, y: nat, n: nat)
    requires |s| == Cube(n) && z < n && y < n
    ensures RowMajor(z, y, 0, n) + n <= Cube(n)
    ensures s[RowMajor(z, y, 0, n)..RowMajor(z, y, 0, n) + n] == Line(s, Slot2, z, y, n)
  {
    var base := RowMajor(z, y, 0, n);
    assert RowMajor(z, y, n - 1, n) == base + n - 1;
    forall p | 0 <= p < n
      ensures LineCell(Slot2, p, z, y, n) == base + p
    {
      assert RowMajor(z, y, p, n) == base + p;
    }
  }

  /** A cell lies on x line (z, y) exactly when it is in that line's slice. */
  lemma OnSlice(i: nat, z: nat, y: nat, n: nat)
    requires i < Cube(n) && z < n && y < n
    ensures OnLine(Slot2, i, z, y, n) <==> RowMajor(z, y, 0, n) <= i < RowMajor(z, y, 0, n) + n
  {
    var base := RowMajor(z, y, 0, n);
    var q := LineOf(Slot2, i, n);
    assert i == RowMajor(q.u, q.v, q.p, n);
    if base <= i < base + n {
      var p := i - base;
      assert RowMajor(z, y, p, n) == i;
      LineOfCell(Slot2, p, z, y, n);
    }
  }

  /** One step of the x pass: `real.slice(base, base + N)`, `ifft1D`, and `real.set(out.real,
      base)`; only that slice changes. */
  method SliceLine(re: array<real>, im: array<real>, z: nat, y: nat, n: nat, cos: real -> real, sin: real -> real, pi: real)
    requires re != im && re.Length == Cube(n) && im.Length == Cube(n) && z < n && y < n
    modifies re, im
    ensures forall i :: 0 <= i < Cube(n) && !OnLine(Slot2, i, z, y, n) ==> re[i] == old(re[i]) && im[i] == old(im[i])
    ensures Line(re[..], Slot2, z, y, n) == OutRe(Line(old(re[..]), Slot2, z, y, n), Line(old(im[..]), Slot2, z, y, n), Twiddle(n, cos, pi), Twiddle(n, sin, pi))
    ensures Line(im[..], Slot2, z, y, n) == OutIm(Line(old(re[..]), Slot2, z, y, n), Line(old(im[..]), Slot2, z, y, n), Twiddle(n, cos, pi), Twiddle(n, sin, pi))
  {
    ghost var lr, li := Line(re[..], Slot2, z, y, n), Line(im[..], Slot2, z, y, n);
    var r, i := SliceOut(re, im, z, y, n);
    var outRe, outIm := Ifft1D(r, i, cos, sin, pi);
    assert outRe == OutRe(lr, li, Twiddle(n, cos, pi), Twiddle(n, sin, pi));
    assert outIm == OutIm(lr, li, Twiddle(n, cos, pi), Twiddle(n, sin, pi));
    SliceIn(re, im, z, y, n, outRe, outIm);
  }

  /** `real.slice(base, base + N)` and `imag.slice(base, base + N)` with `base = z*N*N + y*N`:
      the x line (z, y) of each plane. */
  method SliceOut(re: array<real>, im: array<real>, z: nat, y: nat, n: nat) returns (r: seq<real>, i: seq<real>)
    requires re.Length == Cube(n) && im.Length == Cube(n) && z < n && y < n
    ensures r == Line(re[..], Slot2, z, y, n) && i == Line(im[..], Slot2, z, y, n)
  {
    SliceIsLine(re[..], z, y, n);
    SliceIsLine(im[..], z, y, n);
    var base := RowMajor(z, y, 0, n);
    r := re[base..base + n];
    i := im[base..base + n];
  }

  /** `real.set(out.real, base)` and `imag.set(out.imag, base)`: the x line (z, y) of each plane
      takes the new values, and no other cell changes. */
  method SliceIn(re: array<real>, im: array<real>, z: nat, y: nat, n: nat, outRe: seq<real>, outIm: seq<real>)
    requires re != im && re.Length == Cube(n) && im.Length == Cube(n) && z < n && y < n
    requires |outRe| == n && |outIm| == n
    modifies re, im
    ensures Line(re[..], Slot2, z, y, n) == outRe && Line(im[..], Slot2, z, y, n) == outIm
    ensures forall i :: 0 <= i < Cube(n) && !OnLine(Slot2, i, z, y, n) ==> re[i] == old(re[i]) && im[i] == old(im[i])
  {
    SliceIsLine(re[..], z, y, n);
    var base := RowMajor(z, y, 0, n);
    ghost var re0, im0 := re[..], im[..];
    SetAt(re, outRe, base);
    SetAt(im, outIm, base);
    SetSlice(re0, re[..], outRe, z, y, n);
    SetSlice(im0, im[..], outIm, z, y, n);
  }

  /** `a.set(xs, base)`: the cells from base on take the values of xs; the others stay. */
  method SetAt(a: array<real>, xs: seq<real>, base: nat)
    requires base + |xs| <= a.Length
    modifies a
    ensures forall j :: 0 <= j < a.Length ==> a[j] == if base <= j < base + |xs| then xs[j - base] else old(a[j])
  {
    forall k | 0 <= k < |xs| {
      a[base + k] := xs[k];
    }
  }

  /** Setting the slice of x line (z, y) to xs sets that line to xs and leaves every cell off
      the line alone. */
  lemma SetSlice(before: seq<real>, after: seq<real>, xs: seq<real>, z: nat, y: nat, n: nat)
    requires |before| == Cube(n) && |after| == Cube(n) && z < n && y < n && |xs| == n
    requires RowMajor(z, y, 0, n) + n <= Cube(n)
    requires forall j :: 0 <= j < |after| ==>
               after[j] == if RowMajor(z, y, 0, n) <= j < RowMajor(z, y, 0, n) + n then xs[j - RowMajor(z, y, 0, n)] else before[j]
    ensures Line(after, Slot2, z, y, n) == xs
    ensures forall i :: 0 <= i < Cube(n) && !OnLine(Slot2, i, z, y, n) ==> after[i] == before[i]
  {
    SliceIsLine(after, z, y, n);
    var base := RowMajor(z, y, 0, n);
    assert after[base..base + n] == xs;
    forall i | 0 <= i < Cube(n) && !OnLine(Slot2, i, z, y, n)
      ensures after[i] == before[i]
    {
      OnSlice(i, z, y, n);
    }
  }

  /** One step of the y or z pass: gather line (u, v) into new arrays, `ifft1D`, and scatter
      the result back; only that line changes. */
  method GatherLine(re: array<real>, im: array<real>, a: Axis, u: nat, v: nat, n: nat, cos: real -> real, sin: real -> real, pi: real)
    requires re != im && re.Length == Cube(n) && im.Length == Cube(n) && u < n && v < n
    modifies re, im
    ensures forall i :: 0 <= i < Cube(n) && !OnLine(a, i, u, v, n) ==> re[i] == old(re[i]) && im[i] == old(im[i])
    ensures Line(re[..], a, u, v, n) == OutRe(Line(old(re[..]), a, u, v, n), Line(old(im[..]), a, u, v, n), Twiddle(n, cos, pi), Twiddle(n, sin, pi))
    ensures Line(im[..], a, u, v, n) == OutIm(Line(old(re[..]), a, u, v, n), Line(old(im[..]), a, u, v, n), Twiddle(n, cos, pi), Twiddle(n, sin, pi))
  {
    ghost var lr, li := Line(re[..], a, u, v, n), Line(im[..], a, u, v, n);
    var r := new real[n](_ => 0.0);
    var i := new real[n](_ => 0.0);
    for p := 0 to n
      modifies r, i
      invariant forall q :: 0 <= q < p ==> r[q] == re[LineCell(a, q, u, v, n)] && i[q] == im[LineCell(a, q, u, v, n)]
    {
      var idx := LineCell(a, p, u, v, n);
      r[p] := re[idx];
      i[p] := im[idx];
    }
    assert r[..] == lr && i[..] == li;
    var outRe, outIm := Ifft1D(r[..], i[..], cos, sin, pi);
    assert outRe == OutRe(lr, li, Twiddle(n, cos, pi), Twiddle(n, sin, pi));
    assert outIm == OutIm(lr, li, Twiddle(n, cos, pi), Twiddle(n, sin, pi));
    Scatter(re, im, a, u, v, n, outRe, outIm);
  }

  /** The scatter loop: `real[idx] = out.real[p]` and `imag[idx] = out.imag[p]` along the line;
      no other cell changes. */
  method Scatter(re: array<real>, im: array<real>, a: Axis, u: nat, v: nat, n: nat, outRe: seq<real>, outIm: seq<real>)
    requires re != im && re.Length == Cube(n) && im.Length == Cube(n) && u < n && v < n
    requires |outRe| == n && |outIm| == n
    modifies re, im
    ensures Line(re[..], a, u, v, n) == outRe && Line(im[..], a, u, v, n) == outIm
    ensures forall i :: 0 <= i < Cube(n) && !OnLine(a, i, u, v, n) ==> re[i] == old(re[i]) && im[i] == old(im[i])
  {
    ghost var cells: set<nat> := {};
    for p := 0 to n
      invariant cells == set q | 0 <= q < p :: LineCell(a, q, u, v, n)
      invariant forall q :: 0 <= q < p ==> re[LineCell(a, q, u, v, n)] == outRe[q] && im[LineCell(a, q, u, v, n)] == outIm[q]
      invariant forall i :: 0 <= i < Cube(n) && i !in cells ==> re[i] == old(re[i]) && im[i] == old(im[i])
    {
      var idx := LineCell(a, p, u, v, n);
      forall q | 0 <= q < p
        ensures LineCell(a, q, u, v, n) != idx
      {
        LineOfCell(a, q, u, v, n);
        LineOfCell(a, p, u, v, n);
      }
      re[idx] := outRe[p];
      im[idx] := outIm[p];
      cells := cells + {idx};
    }
    assert Line(re[..], a, u, v, n) == outRe;
    assert Line(im[..], a, u, v, n) == outIm;
    forall i | 0 <= i < Cube(n) && i in cells
      ensures OnLine(a, i, u, v, n)
    {
      var q :| 0 <= q < n && i == LineCell(a, q, u, v, n);
      LineOfCell(a, q, u, v, n);
    }
  }

  /** One axis pass of `ifft3D`: the outer loop over u, the inner over v, one line each; the x
      pass (along the last slot) works on slices, the others gather and scatter. */
  method AxisPass(re: array<real>, im: array<real>, a: Axis, n: nat, cos: real -> real, sin: real -> real, pi: real)
    requires re != im && re.Length == Cube(n) && im.Length == Cube(n)
    modifies re, im
    ensures Grid(re[..], im[..]) == Pass(old(Grid(re[..], im[..])), a, n, Twiddle(n, cos, pi), Twiddle(n, sin, pi))
  {
    ghost var g := Grid(re[..], im[..]);
    ghost var tr, ti := Twiddle(n, cos, pi), Twiddle(n, sin, pi);
    for u := 0 to n
      invariant Partial(re[..], im[..], g, a, n, tr, ti, u, 0)
    {
      for v := 0 to n
        invariant Partial(re[..], im[..], g, a, n, tr, ti, u, v)
      {
        ghost var before := Grid(re[..], im[..]);
        forall p | 0 <= p < n
          ensures before.re[LineCell(a, p, u, v, n)] == g.re[LineCell(a, p, u, v, n)]
          ensures before.im[LineCell(a, p, u, v, n)] == g.im[LineCell(a, p, u, v, n)]
        {
          LineOfCell(a, p, u, v, n);
        }
        assert Line(before.re, a, u, v, n) == Line(g.re, a, u, v, n);
        assert Line(before.im, a, u, v, n) == Line(g.im, a, u, v, n);
        if a == Slot2 {
          SliceLine(re, im, u, v, n, cos, sin, pi);
        } else {
          GatherLine(re, im, a, u, v, n, cos, sin, pi);
        }
        StepPartial(before, re[..], im[..], g, a, n, tr, ti, u, v);
      }
      NextRow(re[..], im[..], g, a, n, tr, ti, u);
    }
    assert Grid(re[..], im[..]) == Pass(g, a, n, tr, ti) by {
      forall i | 0 <= i < Cube(n)
        ensures re[i] == PassRe(g, a, n, tr, ti, i) && im[i] == PassIm(g, a, n, tr, ti, i)
      {
        assert Before(LineOf(a, i, n), n, 0);
      }
    }
  }

  /** `ifft3D`: copies of the inputs are transformed along x, then y, then z (the last, middle
      and first slot of z·N² + y·N + x); the caller's planes are left alone and the real plane
      of the result is returned. */
  method IFFT3D(real3D: seq<real>, imag3D: seq<real>, n: nat, cos: real -> real, sin: real -> real, pi: real)
    returns (res: array<real>)
    requires |real3D| == Cube(n) && |imag3D| == Cube(n)
    ensures fresh(res) && res.Length == Cube(n)
    ensures res[..] == XYZ(Grid(real3D, imag3D), n, Twiddle(n, cos, pi), Twiddle(n, sin, pi)).re
  {
    var re := new real[|real3D|](k requires 0 <= k < |real3D| => real3D[k]);
    var im := new real[|imag3D|](k requires 0 <= k < |imag3D| => imag3D[k]);
    assert re[..] == real3D && im[..] == imag3D;
    AxisPass(re, im, Slot2, n, cos, sin, pi);
    AxisPass(re, im, Slot1, n, cos, sin, pi);
    AxisPass(re, im, Slot0, n, cos, sin, pi);
    res := re;
  }

  /** The x, y and z passes in that order. */
  function XYZ(g: Grid, n: nat, tr: seq<real>, ti: seq<real>): (h: Grid)
    requires Sized(g, n) && |tr| == n && |ti| == n
    ensures Sized(h, n)
  {
    Pass(Pass(Pass(g, Slot2, n, tr, ti), Slot1, n, tr, ti), Slot0, n, tr, ti)
  }

  /** The delta [1, 0, …, 0] at cell 0 becomes twiddleReal[0]³/N³ in every cell after the x, y
      and z passes, when twiddleImag[0] = 0: the same flat result as `inverseFFT3D` gives. */
  lemma DeltaThroughXYZ(n: nat, tr: seq<real>, ti: seq<real>)
    requires n > 0 && |tr| == n && |ti| == n && ti[0] == 0.0
    ensures var t := Times(Times(tr[0], tr[0]), tr[0]) / Times(Times(n as real, n as real), n as real);
            var d := Grid(seq(Cube(n), i requires 0 <= i < Cube(n) => if i == 0 then 1.0 else 0.0), Zeros(Cube(n)));
      XYZ(d, n, tr, ti) == Grid(seq(Cube(n), _ => t), Zeros(Cube(n)))
  {
    var N := n as real;
    var c1 := Times(1.0, tr[0]) / N;
    var c2 := Times(c1, tr[0]) / N;
    var c3 := Times(c2, tr[0]) / N;
    SlabEnds(1.0, n);
    SlabEnds(c3, n);
    PassSlab({Slot0, Slot1, Slot2}, 1.0, Slot2, n, tr, ti);
    assert {Slot0, Slot1, Slot2} - {Slot2} == {Slot0, Slot1};
    PassSlab({Slot0, Slot1}, c1, Slot1, n, tr, ti);
    assert {Slot0, Slot1} - {Slot1} == {Slot0};
    PassSlab({Slot0}, c2, Slot0, n, tr, ti);
    assert {Slot0} - {Slot0} == {};
    Scale3(tr[0], N);
  }
}
