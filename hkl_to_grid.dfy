/** Structure factors with phases placed into the real and imaginary N×N×N grids of a Fourier
    synthesis, at the row-major cell of the wrapped (h, k, l). */
module HklToGrid {
  import opened Wrappers
  import opened Numbers
  import opened GridIndex
  import Hkl
  import Patterson

  /** `{ h, k, l, F, phase }` */
  datatype Coefficient = Coefficient(h: int, k: int, l: int, F: real, phase: real)

  /** `idx = hh*N*N + kk*N + ll` for the wrapped indices. */
  function Cell(c: Coefficient, n: nat): (i: nat)
    requires n > 0
    ensures i < Cube(n)
  {
    LinearBound(Wrap(c.l, n), Wrap(c.k, n), Wrap(c.h, n), n);
    RowMajor(Wrap(c.h, n), Wrap(c.k, n), Wrap(c.l, n), n)
  }

  /** The axes are swapped with respect to the Patterson grid: the cell of (h, k, l) here is the
      Patterson cell of (l, k, h). */
  lemma AxisSwap(c: Coefficient, r: Hkl.Reflection, n: nat)
    requires n > 0 && r.h == c.l && r.k == c.k && r.l == c.h
    ensures Cell(c, n) == Patterson.Cell(r, n)
  {
  }

  /** The two grids after the loop has seen `cs`: `real[idx] = F*cos(phase)` and
      `imag[idx] = F*sin(phase)`, each write replacing what was there. */
  function Placed(cs: seq<Coefficient>, n: nat, cos: real -> real, sin: real -> real): (p: Grid)
    requires n > 0
    ensures Sized(p, n)
  {
    if |cs| == 0 then Grid(Zeros(Cube(n)), Zeros(Cube(n)))
    else
      var p := Placed(cs[..|cs| - 1], n, cos, sin);
      var c := cs[|cs| - 1];
      Grid(p.re[Cell(c, n) := Times(c.F, cos(c.phase))], p.im[Cell(c, n) := Times(c.F, sin(c.phase))])
  }

  /** The position of the last coefficient whose cell is i, if any. */
  function LastAt(cs: seq<Coefficient>, i: nat, n: nat): (j: Option<nat>)
    requires n > 0
    ensures j.Some? ==> j.value < |cs| && Cell(cs[j.value], n) == i
    ensures j.Some? ==> forall m :: j.value < m < |cs| ==> Cell(cs[m], n) != i
    ensures j.None? ==> forall m :: 0 <= m < |cs| ==> Cell(cs[m], n) != i
  {
    if |cs| == 0 then None
    else if Cell(cs[|cs| - 1], n) == i then Some(|cs| - 1)
    else LastAt(cs[..|cs| - 1], i, n)
  }

  /** On a collision the later coefficient wins, and a cell no coefficient reaches stays 0. */
  lemma {:induction false} LastWriteWins(cs: seq<Coefficient>, n: nat, cos: real -> real, sin: real -> real)
    requires n > 0
    ensures forall i :: 0 <= i < Cube(n) ==>
              var p := Placed(cs, n, cos, sin);
              match LastAt(cs, i, n)
              case None => p.re[i] == 0.0 && p.im[i] == 0.0
              case Some(j) => p.re[i] == Times(cs[j].F, cos(cs[j].phase)) && p.im[i] == Times(cs[j].F, sin(cs[j].phase))
  {
    if |cs| > 0 {
      var init := cs[..|cs| - 1];
      LastWriteWins(init, n, cos, sin);
      forall i | 0 <= i < Cube(n) && Cell(cs[|cs| - 1], n) != i
        ensures LastAt(cs, i, n) == LastAt(init, i, n)
      {
      }
    }
  }

  /** `hklToGrid`; N = 0 makes empty grids. */
  method HklToGrid(cs: seq<Coefficient>, n: nat, cos: real -> real, sin: real -> real)
    returns (re: array<real>, im: array<real>)
    ensures fresh(re) && fresh(im)
    ensures re.Length == Cube(n) && im.Length == Cube(n)
    ensures n > 0 ==> re[..] == Placed(cs, n, cos, sin).re && im[..] == Placed(cs, n, cos, sin).im
  {
    if n == 0 {
      // Every index is NaN, and a typed array ignores a write at NaN.
      re, im := new real[0], new real[0];
      return;
    }
    re := new real[n * n * n](_ => 0.0);
    im := new real[n * n * n](_ => 0.0);
    assert re[..] == Zeros(Cube(n)) && im[..] == Zeros(Cube(n));
    for j := 0 to |cs|
      invariant re.Length == Cube(n) && im.Length == Cube(n)
      invariant re[..] == Placed(cs[..j], n, cos, sin).re && im[..] == Placed(cs[..j], n, cos, sin).im
    {
      assert cs[..j + 1][..j] == cs[..j];
      var c := cs[j];
      var hh := JsRem(JsRem(c.h, n) + n, n);
      var kk := JsRem(JsRem(c.k, n) + n, n);
      var ll := JsRem(JsRem(c.l, n) + n, n);
      var idx := hh * n * n + kk * n + ll;
      assert idx == Cell(c, n);
      re[idx] := Times(c.F, cos(c.phase));
      im[idx] := Times(c.F, sin(c.phase));
    }
    assert cs[..|cs|] == cs;
  }
}
