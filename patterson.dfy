/** The Patterson synthesis input: |F|² of every reflection, with zero phase, accumulated into
    an N×N×N grid at its wrapped (h, k, l), then handed to the 3-D inverse transform. */
module Patterson {
  import opened Numbers
  import opened Hkl
  import opened GridIndex

  /** The default of `gridSize = 64`. */
  const DefaultGridSize: nat := 64

  /** `idx = h + N*(k + N*l)` for the wrapped indices. */
  function Cell(r: Reflection, n: nat): (i: nat)
    requires n > 0
    ensures i < Cube(n)
  {
    LinearBound(Wrap(r.h, n), Wrap(r.k, n), Wrap(r.l, n), n);
    Linear(Wrap(r.h, n), Wrap(r.k, n), Wrap(r.l, n), n)
  }

  /** Two reflections share a cell exactly when their indices agree modulo N. */
  lemma SameCell(r: Reflection, s: Reflection, n: nat)
    requires n > 0
    ensures Cell(r, n) == Cell(s, n) <==> r.h % n == s.h % n && r.k % n == s.k % n && r.l % n == s.l % n
  {
    LinearDigits(Wrap(r.h, n), Wrap(r.k, n), Wrap(r.l, n), n);
    LinearDigits(Wrap(s.h, n), Wrap(s.k, n), Wrap(s.l, n), n);
  }

  /** The `real` array after the loop has seen `refls`: `real[idx] += F*F` per reflection. */
  function Accumulated(refls: seq<Reflection>, n: nat): (g: seq<real>)
    requires n > 0
    ensures |g| == Cube(n)
  {
    if |refls| == 0 then Zeros(Cube(n))
    else
      var g := Accumulated(refls[..|refls| - 1], n);
      var r := refls[|refls| - 1];
      g[Cell(r, n) := g[Cell(r, n)] + Times(r.F, r.F)]
  }

  /** The F² of the reflections whose cell is i. */
  function CellSum(refls: seq<Reflection>, i: nat, n: nat): real
    requires n > 0
  {
    if |refls| == 0 then 0.0
    else
      var r := refls[|refls| - 1];
      CellSum(refls[..|refls| - 1], i, n) + if Cell(r, n) == i then Times(r.F, r.F) else 0.0
  }

  /** Reflections that collide add up: every cell holds the F² sum of the reflections wrapping
      to it, and a cell no reflection reaches holds 0. */
  lemma {:induction false} AccumulatedIsCellSum(refls: seq<Reflection>, n: nat)
    requires n > 0
    ensures forall i :: 0 <= i < Cube(n) ==> Accumulated(refls, n)[i] == CellSum(refls, i, n)
  {
    if |refls| > 0 {
      AccumulatedIsCellSum(refls[..|refls| - 1], n);
    }
  }

  function F2Sum(refls: seq<Reflection>): real
  {
    if |refls| == 0 then 0.0 else F2Sum(refls[..|refls| - 1]) + Times(refls[|refls| - 1].F, refls[|refls| - 1].F)
  }

  /** Nothing is lost: the grid adds up to the total F². */
  lemma {:induction false} AccumulatedTotal(refls: seq<Reflection>, n: nat)
    requires n > 0
    ensures Sum(Accumulated(refls, n)) == F2Sum(refls)
  {
    if |refls| == 0 {
      SumZeros(Cube(n));
    } else {
      var r := refls[|refls| - 1];
      AccumulatedTotal(refls[..|refls| - 1], n);
      SumUpdate(Accumulated(refls[..|refls| - 1], n), Cell(r, n), Times(r.F, r.F));
    }
  }

  /** The first loop of `buildPattersonGrid`: zero-filled `real` and `imag` (here `re`, `im`) of length N³, then
      `real[idx] += F2` for each reflection; `imag` stays zero. */
  method FillGrid(refls: seq<Reflection>, n: nat) returns (re: array<real>, im: array<real>)
    ensures fresh(re) && fresh(im)
    ensures re.Length == Cube(n) && im.Length == Cube(n)
    ensures n > 0 ==> re[..] == Accumulated(refls, n)
    ensures im[..] == Zeros(Cube(n))
  {
    if n == 0 {
      // Every index is NaN, and a typed array ignores a write at NaN.
      re, im := new real[0], new real[0];
      return;
    }
    re := new real[n * n * n](_ => 0.0);
    im := new real[n * n * n](_ => 0.0);
    assert re[..] == Zeros(Cube(n));
    for j := 0 to |refls|
      invariant re[..] == Accumulated(refls[..j], n)
      invariant im[..] == Zeros(Cube(n))
    {
      assert refls[..j + 1][..j] == refls[..j];
      var r := refls[j];
      var h := JsRem(JsRem(r.h, n) + n, n);
      var k := JsRem(JsRem(r.k, n) + n, n);
      var l := JsRem(JsRem(r.l, n) + n, n);
      var idx := h + n * (k + n * l);
      assert idx == Cell(r, n);
      var f2 := Times(r.F, r.F);
      re[idx] := re[idx] + f2;
    }
    assert refls[..|refls|] == refls;
  }

  /** `{ gridSize, data }` */
  datatype Map = Map(gridSize: nat, data: seq<real>)

  /** `buildPattersonGrid`, with `ifft3D` as a parameter: the transform of the accumulated F²
      grid and the zero imaginary part; a grid size of 0 makes empty grids. */
  method BuildPattersonGrid(refls: seq<Reflection>, gridSize: nat, ifft3d: (seq<real>, seq<real>, nat) -> seq<real>)
    returns (m: Map)
    ensures gridSize > 0 ==> m == Map(gridSize, ifft3d(Accumulated(refls, gridSize), Zeros(Cube(gridSize)), gridSize))
    ensures gridSize == 0 ==> m == Map(0, ifft3d([], [], 0))
  {
    var re, im := FillGrid(refls, gridSize);
    m := Map(gridSize, ifft3d(re[..], im[..], gridSize));
  }
}
