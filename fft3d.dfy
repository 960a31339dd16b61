/** The separable 3-D inverse transform: one pass of 1-D transforms along each axis. A pass runs
    over the N² lines parallel to its axis; each line is copied out, transformed and written
    back in place. */
module Fft3d {
  import opened Numbers
  import opened GridIndex
  import opened Fft

  /** A coordinate position of the row-major index RowMajor(s0, s1, s2): Slot0 varies slowest,
      Slot2 fastest. */
  datatype Axis = Slot0 | Slot1 | Slot2

  /** The cell at position p of the line along `a` whose other two coordinates, in slot order,
      are u and v. */
  function LineCell(a: Axis, p: nat, u: nat, v: nat, n: nat): (i: nat)
    requires p < n && u < n && v < n
    ensures i < Cube(n)
  {
    match a
    case Slot0 => RowMajor(p, u, v, n)
    case Slot1 => RowMajor(u, p, v, n)
    case Slot2 => RowMajor(u, v, p, n)
  }

  lemma PositiveSize(i: nat, n: nat)
    requires i < Cube(n)
    ensures n > 0
  {
  }

  /** The slot coordinates (s0, s1, s2) of a cell. */
  function At(i: nat, n: nat): (x: Coords)
    requires i < Cube(n)
    ensures x.a < n && x.b < n && x.c < n && RowMajor(x.a, x.b, x.c, n) == i
  {
    PositiveSize(i, n);
    DigitsLinear(i, n);
    var d := Digits(i, n);
    Coords(d.c, d.b, d.a)
  }

  lemma AtRowMajor(x: nat, y: nat, z: nat, n: nat)
    requires x < n && y < n && z < n
    ensures At(RowMajor(x, y, z, n), n) == Coords(x, y, z)
  {
    LinearDigits(z, y, x, n);
  }

  /** Where a cell sits among the lines along `a`: its position p on the line and the line's
      coordinates (u, v). */
  datatype Place = Place(p: nat, u: nat, v: nat)

  function LineOf(a: Axis, i: nat, n: nat): (q: Place)
    requires i < Cube(n)
    ensures q.p < n && q.u < n && q.v < n && LineCell(a, q.p, q.u, q.v, n) == i
  {
    var x := At(i, n);
    match a
    case Slot0 => Place(x.a, x.b, x.c)
    case Slot1 => Place(x.b, x.a, x.c)
    case Slot2 => Place(x.c, x.a, x.b)
  }

  /** LineOf inverts LineCell, so the lines along an axis partition the grid: N² lines of N
      cells each, every cell on exactly one line at exactly one position. */
  lemma LineOfCell(a: Axis, p: nat, u: nat, v: nat, n: nat)
    requires p < n && u < n && v < n
    ensures LineOf(a, LineCell(a, p, u, v, n), n) == Place(p, u, v)
  {
    match a
    case Slot0 => AtRowMajor(p, u, v, n);
    case Slot1 => AtRowMajor(u, p, v, n);
    case Slot2 => AtRowMajor(u, v, p, n);
  }

  predicate OnLine(a: Axis, i: nat, u: nat, v: nat, n: nat)
    requires i < Cube(n)
  {
    LineOf(a, i, n).u == u && LineOf(a, i, n).v == v
  }

  /** The N values of plane s on the line (u, v) along `a`. */
  function Line(s: seq<real>, a: Axis, u: nat, v: nat, n: nat): (l: seq<real>)
    requires |s| == Cube(n) && u < n && v < n
    ensures |l| == n
  {
    seq(n, p requires 0 <= p < n => s[LineCell(a, p, u, v, n)])
  }

  /** Cell i after its line along `a` has been transformed. */
  function PassRe(g: Grid, a: Axis, n: nat, tr: seq<real>, ti: seq<real>, i: nat): real
    requires Sized(g, n) && |tr| == n && |ti| == n && i < Cube(n)
  {
    var q := LineOf(a, i, n);
    OutRe(Line(g.re, a, q.u, q.v, n), Line(g.im, a, q.u, q.v, n), tr, ti)[q.p]
  }

  function PassIm(g: Grid, a: Axis, n: nat, tr: seq<real>, ti: seq<real>, i: nat): real
    requires Sized(g, n) && |tr| == n && |ti| == n && i < Cube(n)
  {
    var q := LineOf(a, i, n);
    OutIm(Line(g.re, a, q.u, q.v, n), Line(g.im, a, q.u, q.v, n), tr, ti)[q.p]
  }

  /** One pass: every line along `a` replaced by its 1-D inverse transform. */
  function Pass(g: Grid, a: Axis, n: nat, tr: seq<real>, ti: seq<real>): (h: Grid)
    requires Sized(g, n) && |tr| == n && |ti| == n
    ensures Sized(h, n)
  {
    Grid(seq(Cube(n), i requires 0 <= i < Cube(n) => PassRe(g, a, n, tr, ti, i)),
         seq(Cube(n), i requires 0 <= i < Cube(n) => PassIm(g, a, n, tr, ti, i)))
  }

  /** Each line of a pass's result is the transform of the same line of its input. */
  lemma PassLines(g: Grid, a: Axis, n: nat, tr: seq<real>, ti: seq<real>, u: nat, v: nat)
    requires Sized(g, n) && |tr| == n && |ti| == n && u < n && v < n
    ensures var h := Pass(g, a, n, tr, ti);
      && Line(h.re, a, u, v, n) == OutRe(Line(g.re, a, u, v, n), Line(g.im, a, u, v, n), tr, ti)
      && Line(h.im, a, u, v, n) == OutIm(Line(g.re, a, u, v, n), Line(g.im, a, u, v, n), tr, ti)
  {
    forall p | 0 <= p < n
      ensures LineOf(a, LineCell(a, p, u, v, n), n) == Place(p, u, v)
    {
      LineOfCell(a, p, u, v, n);
    }
  }

  /** The three-dimensional grid that is c on the cells whose coordinates in every slot of
      `zero` are 0, and 0 elsewhere, with a zero imaginary plane. */
  predicate ZeroIn(i: nat, zero: set<Axis>, n: nat)
    requires i < Cube(n)
  {
    var x := At(i, n);
    && (Slot0 in zero ==> x.a == 0) && (Slot1 in zero ==> x.b == 0) && (Slot2 in zero ==> x.c == 0)
  }

  function Slab(zero: set<Axis>, c: real, n: nat): (g: Grid)
    ensures Sized(g, n)
  {
    Grid(seq(Cube(n), i requires 0 <= i < Cube(n) => if ZeroIn(i, zero, n) then c else 0.0), Zeros(Cube(n)))
  }

  /** A slab that is zero along `a` is a delta of height c on each line along `a` that meets it:
      the pass spreads it evenly along the line, to the height c·twiddleReal[0]/N. */
  lemma PassSlab(zero: set<Axis>, c: real, a: Axis, n: nat, tr: seq<real>, ti: seq<real>)
    requires a in zero && n > 0 && |tr| == n && |ti| == n && ti[0] == 0.0
    ensures Pass(Slab(zero, c, n), a, n, tr, ti) == Slab(zero - {a}, Times(c, tr[0]) / n as real, n)
  {
    var g, h := Slab(zero, c, n), Slab(zero - {a}, Times(c, tr[0]) / n as real, n);
    var p := Pass(g, a, n, tr, ti);
    forall i | 0 <= i < Cube(n)
      ensures p.re[i] == h.re[i] && p.im[i] == h.im[i]
    {
      PassSlabAt(zero, c, a, n, tr, ti, i);
    }
  }

  lemma PassSlabAt(zero: set<Axis>, c: real, a: Axis, n: nat, tr: seq<real>, ti: seq<real>, i: nat)
    requires a in zero && n > 0 && |tr| == n && |ti| == n && ti[0] == 0.0 && i < Cube(n)
    ensures PassRe(Slab(zero, c, n), a, n, tr, ti, i) == if ZeroIn(i, zero - {a}, n) then Times(c, tr[0]) / n as real else 0.0
    ensures PassIm(Slab(zero, c, n), a, n, tr, ti, i) == 0.0
  {
    var g := Slab(zero, c, n);
    var q := LineOf(a, i, n);
    var lr, li := Line(g.re, a, q.u, q.v, n), Line(g.im, a, q.u, q.v, n);
    SlabLineValues(zero, c, a, n, i);
    DeltaOrZero(c, ZeroIn(i, zero - {a}, n), lr, li, tr, ti, q.p);
  }

  /** The line through i along `a` of a slab zero along `a`: a delta of height c when i's other
      coordinates lie in the slab, and 0 otherwise. */
  lemma SlabLineValues(zero: set<Axis>, c: real, a: Axis, n: nat, i: nat)
    requires a in zero && i < Cube(n)
    ensures var q := LineOf(a, i, n);
      var lr, li := Line(Slab(zero, c, n).re, a, q.u, q.v, n), Line(Slab(zero, c, n).im, a, q.u, q.v, n);
      && (forall j :: 0 <= j < n ==> lr[j] == if j == 0 && ZeroIn(i, zero - {a}, n) then c else 0.0)
      && (forall j :: 0 <= j < n ==> li[j] == 0.0)
  {
    forall j | 0 <= j < n
      ensures var q := LineOf(a, i, n);
        ZeroIn(LineCell(a, j, q.u, q.v, n), zero, n) <==> j == 0 && ZeroIn(i, zero - {a}, n)
    {
      SlabLine(zero, a, i, j, n);
    }
  }

  /** The cell at position j of the line through i along `a` lies in the slab exactly when
      j = 0 and i's other coordinates lie in it. */
  lemma SlabLine(zero: set<Axis>, a: Axis, i: nat, j: nat, n: nat)
    requires a in zero && i < Cube(n) && j < n
    ensures var q := LineOf(a, i, n);
      ZeroIn(LineCell(a, j, q.u, q.v, n), zero, n) <==> j == 0 && ZeroIn(i, zero - {a}, n)
  {
    var q := LineOf(a, i, n);
    match a
    case Slot0 => AtRowMajor(j, q.u, q.v, n);
    case Slot1 => AtRowMajor(q.u, j, q.v, n);
    case Slot2 => AtRowMajor(q.u, q.v, j, n);
  }

  /** The slab with every slot zero is the delta at cell 0; the slab with none is constant. */
  lemma SlabEnds(c: real, n: nat)
    ensures Slab({Slot0, Slot1, Slot2}, c, n).re == seq(Cube(n), i requires 0 <= i < Cube(n) => if i == 0 then c else 0.0)
    ensures Slab({}, c, n).re == seq(Cube(n), _ => c)
  {
    forall i | 0 <= i < Cube(n)
      ensures ZeroIn(i, {Slot0, Slot1, Slot2}, n) <==> i == 0
    {
      var x := At(i, n);
      assert RowMajor(x.a, x.b, x.c, n) == i;
    }
  }

  lemma Scale3(t: real, n: real)
    requires n > 0.0
    ensures Times(Times(n, n), n) > 0.0
    ensures Times(Times(Times(1.0, t) / n, t) / n, t) / n == Times(Times(t, t), t) / Times(Times(n, n), n)
  {
    var a := Times(1.0, t) / n;
    var b := Times(a, t) / n;
    var c := Times(b, t) / n;
    assert a * n == t && b * n == a * t && c * n == b * t;
    assert n * n > 0.0;
    var n3 := Times(Times(n, n), n);
    assert c * n3 == ((c * n) * n) * n;
    assert c * n3 == Times(Times(t, t), t);
  }

  /** The delta [1, 0, …, 0] at cell 0 becomes twiddleReal[0]³/N³ in every cell after the
      three passes of `inverseFFT3D`, when twiddleImag[0] = 0. */
  lemma DeltaThroughPasses(n: nat, tr: seq<real>, ti: seq<real>)
    requires n > 0 && |tr| == n && |ti| == n && ti[0] == 0.0
    ensures var t := Times(Times(tr[0], tr[0]), tr[0]) / Times(Times(n as real, n as real), n as real);
            var d := Grid(seq(Cube(n), i requires 0 <= i < Cube(n) => if i == 0 then 1.0 else 0.0), Zeros(Cube(n)));
      Pass(Pass(Pass(d, Slot0, n, tr, ti), Slot1, n, tr, ti), Slot2, n, tr, ti) == Grid(seq(Cube(n), _ => t), Zeros(Cube(n)))
  {
    var N := n as real;
    var c1 := Times(1.0, tr[0]) / N;
    var c2 := Times(c1, tr[0]) / N;
    var c3 := Times(c2, tr[0]) / N;
    SlabEnds(1.0, n);
    SlabEnds(c3, n);
    PassSlab({Slot0, Slot1, Slot2}, 1.0, Slot0, n, tr, ti);
    assert {Slot0, Slot1, Slot2} - {Slot0} == {Slot1, Slot2};
    PassSlab({Slot1, Slot2}, c1, Slot1, n, tr, ti);
    assert {Slot1, Slot2} - {Slot1} == {Slot2};
    PassSlab({Slot2}, c2, Slot2, n, tr, ti);
    assert {Slot2} - {Slot2} == {};
    Scale3(tr[0], N);
  }

  /** The driver's arrays are separate from each other and from the FFT's arrays. */
  predicate Apart(re: array<real>, im: array<real>, fft: FFT)
    reads fft
  {
    && fft.Valid() && re != im
    && re != fft.re && re != fft.im && re != fft.twiddleReal && re != fft.twiddleImag
    && im != fft.re && im != fft.im && im != fft.twiddleReal && im != fft.twiddleImag
  }

  /** The loop body of a pass: copy line (u, v) into the FFT buffers, transform, copy back.
      Only the N cells of that line change. */
  method TransformLine(re: array<real>, im: array<real>, fft: FFT, a: Axis, u: nat, v: nat, n: nat)
    requires Apart(re, im, fft) && fft.size == n && re.Length == Cube(n) && im.Length == Cube(n)
    requires u < n && v < n
    modifies re, im, fft, fft.re, fft.im
    ensures Apart(re, im, fft) && fft.size == n && fresh(fft.re) && fresh(fft.im)
    ensures fft.twiddleReal == old(fft.twiddleReal) && fft.twiddleImag == old(fft.twiddleImag)
    ensures forall i :: 0 <= i < Cube(n) && !OnLine(a, i, u, v, n) ==> re[i] == old(re[i]) && im[i] == old(im[i])
    ensures var tr, ti := fft.twiddleReal[..], fft.twiddleImag[..];
      && Line(re[..], a, u, v, n) == OutRe(Line(old(re[..]), a, u, v, n), Line(old(im[..]), a, u, v, n), tr, ti)
      && Line(im[..], a, u, v, n) == OutIm(Line(old(re[..]), a, u, v, n), Line(old(im[..]), a, u, v, n), tr, ti)
  {
    LoadLine(re, im, fft, a, u, v, n);
    fft.InverseTransform();
    StoreLine(re, im, fft, a, u, v, n);
  }

  /** The first copy loop: `fft.real[p] = real[idx]` and `fft.imag[p] = imag[idx]` along the
      line. */
  method LoadLine(re: array<real>, im: array<real>, fft: FFT, a: Axis, u: nat, v: nat, n: nat)
    requires Apart(re, im, fft) && fft.size == n && re.Length == Cube(n) && im.Length == Cube(n)
    requires u < n && v < n
    modifies fft.re, fft.im
    ensures fft.re[..] == Line(re[..], a, u, v, n) && fft.im[..] == Line(im[..], a, u, v, n)
  {
    for p := 0 to n
      invariant forall q :: 0 <= q < p ==> fft.re[q] == re[LineCell(a, q, u, v, n)] && fft.im[q] == im[LineCell(a, q, u, v, n)]
    {
      var idx := LineCell(a, p, u, v, n);
      fft.re[p] := re[idx];
      fft.im[p] := im[idx];
    }
  }

  /** The second copy loop: `real[idx] = fft.real[p]` and `imag[idx] = fft.imag[p]` along the
      line; no other cell changes. */
  method StoreLine(re: array<real>, im: array<real>, fft: FFT, a: Axis, u: nat, v: nat, n: nat)
    requires Apart(re, im, fft) && fft.size == n && re.Length == Cube(n) && im.Length == Cube(n)
    requires u < n && v < n
    modifies re, im
    ensures Line(re[..], a, u, v, n) == fft.re[..] && Line(im[..], a, u, v, n) == fft.im[..]
    ensures forall i :: 0 <= i < Cube(n) && !OnLine(a, i, u, v, n) ==> re[i] == old(re[i]) && im[i] == old(im[i])
  {
    ghost var cells: set<nat> := {};
    for p := 0 to n
      invariant cells == set q | 0 <= q < p :: LineCell(a, q, u, v, n)
      invariant forall q :: 0 <= q < p ==> re[LineCell(a, q, u, v, n)] == fft.re[q] && im[LineCell(a, q, u, v, n)] == fft.im[q]
      invariant forall i :: 0 <= i < Cube(n) && i !in cells ==> re[i] == old(re[i]) && im[i] == old(im[i])
    {
      var idx := LineCell(a, p, u, v, n);
      forall q | 0 <= q < p
        ensures LineCell(a, q, u, v, n) != idx
      {
        LineOfCell(a, q, u, v, n);
        LineOfCell(a, p, u, v, n);
      }
      re[idx] := fft.re[p];
      im[idx] := fft.im[p];
      cells := cells + {idx};
    }
    assert Line(re[..], a, u, v, n) == fft.re[..];
    assert Line(im[..], a, u, v, n) == fft.im[..];
    forall i | 0 <= i < Cube(n) && i in cells
      ensures OnLine(a, i, u, v, n)
    {
      var q :| 0 <= q < n && i == LineCell(a, q, u, v, n);
      LineOfCell(a, q, u, v, n);
    }
  }

  /** Line (u, v) comes before line (u', v') in the loop order: u in the outer loop. */
  predicate Before(q: Place, u: nat, v: nat)
  {
    q.u < u || (q.u == u && q.v < v)
  }

  /** The lines already visited hold the pass's result; the others are as they were. */
  predicate Partial(re: seq<real>, im: seq<real>, g: Grid, a: Axis, n: nat, tr: seq<real>, ti: seq<real>, u: nat, v: nat)
    requires Sized(g, n) && |re| == Cube(n) && |im| == Cube(n) && |tr| == n && |ti| == n
  {
    forall i :: 0 <= i < Cube(n) ==>
      if Before(LineOf(a, i, n), u, v) then re[i] == PassRe(g, a, n, tr, ti, i) && im[i] == PassIm(g, a, n, tr, ti, i)
      else re[i] == g.re[i] && im[i] == g.im[i]
  }

  /** One axis pass of `inverseFFT3D`: every line along `a`, u in the outer and v in the inner
      loop, transformed in place. */
  method PassInPlace(re: array<real>, im: array<real>, fft: FFT, a: Axis, n: nat)
    requires Apart(re, im, fft) && fft.size == n && re.Length == Cube(n) && im.Length == Cube(n)
    modifies re, im, fft, fft.re, fft.im
    ensures Apart(re, im, fft) && fft.size == n
    ensures fft.twiddleReal == old(fft.twiddleReal) && fft.twiddleImag == old(fft.twiddleImag)
    ensures (fft.re == old(fft.re) || fresh(fft.re)) && (fft.im == old(fft.im) || fresh(fft.im))
    ensures Grid(re[..], im[..]) == Pass(old(Grid(re[..], im[..])), a, n, fft.twiddleReal[..], fft.twiddleImag[..])
  {
    ghost var g := Grid(re[..], im[..]);
    ghost var tr, ti := fft.twiddleReal[..], fft.twiddleImag[..];
    for u := 0 to n
      invariant Apart(re, im, fft) && fft.size == n
      invariant fft.twiddleReal == old(fft.twiddleReal) && fft.twiddleImag == old(fft.twiddleImag)
      invariant fft.twiddleReal[..] == tr && fft.twiddleImag[..] == ti
      invariant fft.re == old(fft.re) || fresh(fft.re)
      invariant fft.im == old(fft.im) || fresh(fft.im)
      invariant Partial(re[..], im[..], g, a, n, tr, ti, u, 0)
    {
      for v := 0 to n
        invariant Apart(re, im, fft) && fft.size == n
        invariant fft.twiddleReal == old(fft.twiddleReal) && fft.twiddleImag == old(fft.twiddleImag)
        invariant fft.twiddleReal[..] == tr && fft.twiddleImag[..] == ti
        invariant fft.re == old(fft.re) || fresh(fft.re)
        invariant fft.im == old(fft.im) || fresh(fft.im)
        invariant Partial(re[..], im[..], g, a, n, tr, ti, u, v)
      {
        ghost var before := Grid(re[..], im[..]);
        forall p | 0 <= p < n
          ensures before.re[LineCell(a, p, u, v, n)] == g.re[LineCell(a, p, u, v, n)]
          ensures before.im[LineCell(a, p, u, v, n)] == g.im[LineCell(a, p, u, v, n)]
        {
          LineOfCell(a, p, u, v, n);
        }
        assert Line(before.re, a, u, v, n) == Line(g.re, a, u, v, n);
        assert Line(before.im, a, u, v, n) == Line(g.im, a, u, v, n);
        TransformLine(re, im, fft, a, u, v, n);
        StepPartial(before, re[..], im[..], g, a, n, tr, ti, u, v);
      }
      NextRow(re[..], im[..], g, a, n, tr, ti, u);
    }
    assert Grid(re[..], im[..]) == Pass(g, a, n, tr, ti) by {
      forall i | 0 <= i < Cube(n)
        ensures re[i] == PassRe(g, a, n, tr, ti, i) && im[i] == PassIm(g, a, n, tr, ti, i)
      {
        assert Before(LineOf(a, i, n), n, 0);
      }
    }
  }

  /** Transforming line (u, v) extends the visited region by that line. */
  lemma StepPartial(before: Grid, re: seq<real>, im: seq<real>, g: Grid, a: Axis, n: nat, tr: seq<real>, ti: seq<real>, u: nat, v: nat)
    requires Sized(g, n) && Sized(before, n) && |re| == Cube(n) && |im| == Cube(n) && |tr| == n && |ti| == n
    requires u < n && v < n
    requires Partial(before.re, before.im, g, a, n, tr, ti, u, v)
    requires Line(before.re, a, u, v, n) == Line(g.re, a, u, v, n) && Line(before.im, a, u, v, n) == Line(g.im, a, u, v, n)
    requires forall i :: 0 <= i < Cube(n) && !OnLine(a, i, u, v, n) ==> re[i] == before.re[i] && im[i] == before.im[i]
    requires Line(re, a, u, v, n) == OutRe(Line(before.re, a, u, v, n), Line(before.im, a, u, v, n), tr, ti)
    requires Line(im, a, u, v, n) == OutIm(Line(before.re, a, u, v, n), Line(before.im, a, u, v, n), tr, ti)
    ensures Partial(re, im, g, a, n, tr, ti, u, v + 1)
  {
    forall i | 0 <= i < Cube(n) && OnLine(a, i, u, v, n)
      ensures re[i] == PassRe(g, a, n, tr, ti, i) && im[i] == PassIm(g, a, n, tr, ti, i)
    {
      var q := LineOf(a, i, n);
      assert re[i] == Line(re, a, u, v, n)[q.p];
      assert im[i] == Line(im, a, u, v, n)[q.p];
    }
  }

  /** After the last v of row u, the visited region is every line with coordinate u' ≤ u. */
  lemma NextRow(re: seq<real>, im: seq<real>, g: Grid, a: Axis, n: nat, tr: seq<real>, ti: seq<real>, u: nat)
    requires Sized(g, n) && |re| == Cube(n) && |im| == Cube(n) && |tr| == n && |ti| == n
    requires Partial(re, im, g, a, n, tr, ti, u, n)
    ensures Partial(re, im, g, a, n, tr, ti, u + 1, 0)
  {
    forall i | 0 <= i < Cube(n)
      ensures Before(LineOf(a, i, n), u, n) <==> Before(LineOf(a, i, n), u + 1, 0)
    {
    }
  }

  /** `inverseFFT3D`: the x, y and z passes over the layout x·N² + y·N + z, mutating the
      given planes in place and returning the real one. */
  method InverseFFT3D(re: array<real>, im: array<real>, n: nat, cos: real -> real, sin: real -> real, pi: real)
    returns (r: array<real>)
    requires re != im && re.Length == Cube(n) && im.Length == Cube(n)
    modifies re, im
    ensures r == re
    ensures var tr, ti := Twiddle(n, cos, pi), Twiddle(n, sin, pi);
      Grid(re[..], im[..]) == Pass(Pass(Pass(old(Grid(re[..], im[..])), Slot0, n, tr, ti), Slot1, n, tr, ti), Slot2, n, tr, ti)
  {
    var fft := new FFT(n, cos, sin, pi);
    PassInPlace(re, im, fft, Slot0, n);
    PassInPlace(re, im, fft, Slot1, n);
    PassInPlace(re, im, fft, Slot2, n);
    r := re;
  }
}
