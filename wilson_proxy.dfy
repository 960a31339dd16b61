/** The Wilson-like plot: reflections are split into equal-width shells of R = h² + k² + l², each
    non-empty shell gives a point (shell centre, log ⟨F²⟩), and a straight line is fitted by least
    squares. */
module WilsonProxy {
  import opened Wrappers
  import opened Numbers
  import opened Hkl
  import PseudoResolution

  /** The default of `nBins = 10`. */
  const DefaultBins: int := 10

  /** `1e-12`: the padding of the last shell's upper edge and the regression's singularity cut. */
  const Tiny: real := 0.000000000001

  /** `{ R, F2 }`. R is an integer and F a finite number, so the finiteness filter keeps every
      reflection. */
  datatype Row = Row(r: real, f2: real)

  function Rows(refls: seq<Reflection>): (rows: seq<Row>)
    ensures |rows| == |refls| && forall i :: 0 <= i < |refls| ==>
              rows[i] == Row(PseudoResolution.R(refls[i].h, refls[i].k, refls[i].l) as real, Times(refls[i].F, refls[i].F))
  {
    seq(|refls|, i requires 0 <= i < |refls| =>
      Row(PseudoResolution.R(refls[i].h, refls[i].k, refls[i].l) as real, Times(refls[i].F, refls[i].F)))
  }

  function RValues(rows: seq<Row>): (rs: seq<real>)
    ensures |rs| == |rows| && forall i :: 0 <= i < |rows| ==> rs[i] == rows[i].r
  {
    seq(|rows|, i requires 0 <= i < |rows| => rows[i].r)
  }

  function F2Values(rows: seq<Row>): (fs: seq<real>)
    ensures |fs| == |rows| && forall i :: 0 <= i < |rows| ==> fs[i] == rows[i].f2
  {
    seq(|rows|, i requires 0 <= i < |rows| => rows[i].f2)
  }

  /** `(Rmax - Rmin) / nBins` */
  function Step(rmin: real, rmax: real, nBins: nat): (step: real)
    requires rmax > rmin && nBins > 0
    ensures step > 0.0
  {
    (rmax - rmin) / nBins as real
  }

  /** nBins steps span [Rmin, Rmax]; this follows by unfolding `Step`. */
  lemma StepsSpan(rmin: real, rmax: real, nBins: nat)
    requires rmax > rmin && nBins > 0
    ensures Times(nBins as real, Step(rmin, rmax, nBins)) == rmax - rmin
  {
  }

  /** `Rmin + i*step` */
  function Lower(i: nat, rmin: real, step: real): real
  {
    rmin + Times(i as real, step)
  }

  /** The last shell ends at `Rmax + 1e-12`, every other one at `Rmin + (i+1)*step`. */
  function Upper(i: nat, rmin: real, rmax: real, step: real, nBins: nat): real
  {
    if i == nBins - 1 then rmax + Tiny else rmin + Times((i + 1) as real, step)
  }

  /** `Math.floor((R - Rmin) / step)` clamped into [0, nBins − 1]. */
  function Index(r: real, rmin: real, step: real, nBins: nat): (idx: nat)
    requires step > 0.0 && nBins > 0
    ensures idx < nBins
  {
    var f := ((r - rmin) / step).Floor;
    var g := if f < 0 then 0 else f;
    if g >= nBins then nBins - 1 else g
  }

  /** For R >= Rmin the clamp at 0 never fires. */
  lemma LowClampIdle(r: real, rmin: real, step: real)
    requires step > 0.0 && r >= rmin
    ensures ((r - rmin) / step).Floor >= 0
  {
  }

  /** Every R in [Rmin, Rmax] lands in a shell with lo <= R < hi. */
  lemma ShellContains(r: real, rmin: real, rmax: real, nBins: nat)
    requires rmax > rmin && nBins > 0 && rmin <= r <= rmax
    ensures var step := Step(rmin, rmax, nBins); var idx := Index(r, rmin, step, nBins);
      Lower(idx, rmin, step) <= r < Upper(idx, rmin, rmax, step, nBins)
  {
    var step := Step(rmin, rmax, nBins);
    var q := (r - rmin) / step;
    var idx := Index(r, rmin, step, nBins);
    QuotientTimes(r - rmin, step);
    assert q <= nBins as real by {
      StepsSpan(rmin, rmax, nBins);
      TimesMonotone(nBins as real, q, step);
    }
    TimesMonotone(idx as real, q, step);
    if idx != nBins - 1 {
      TimesMonotone(q, (idx + 1) as real, step);
    }
  }

  /** (s / d)·d == s for d > 0. */
  lemma QuotientTimes(s: real, d: real)
    requires d > 0.0
    ensures Times(s / d, d) == s
  {
  }

  /** Multiplying by a positive number keeps the order, strict or not. */
  lemma TimesMonotone(a: real, b: real, c: real)
    requires c > 0.0
    ensures a <= b ==> Times(a, c) <= Times(b, c)
    ensures a < b ==> Times(a, c) < Times(b, c)
  {
    var d := b - a;
    assert Times(b, c) - Times(a, c) == d * c;
  }

  /** The `n` counters after the binning loop has seen `rows`. */
  function FillN(rows: seq<Row>, rmin: real, step: real, nBins: nat): (c: seq<nat>)
    requires step > 0.0 && nBins > 0
    ensures |c| == nBins
  {
    if |rows| == 0 then seq(nBins, _ => 0)
    else
      var c := FillN(rows[..|rows| - 1], rmin, step, nBins);
      var idx := Index(rows[|rows| - 1].r, rmin, step, nBins);
      c[idx := c[idx] + 1]
  }

  /** The `sumF2` accumulators after the binning loop has seen `rows`. */
  function FillF2(rows: seq<Row>, rmin: real, step: real, nBins: nat): (s: seq<real>)
    requires step > 0.0 && nBins > 0
    ensures |s| == nBins
  {
    if |rows| == 0 then Zeros(nBins)
    else
      var s := FillF2(rows[..|rows| - 1], rmin, step, nBins);
      var idx := Index(rows[|rows| - 1].r, rmin, step, nBins);
      s[idx := s[idx] + rows[|rows| - 1].f2]
  }

  /** Every row is counted in exactly one shell: the counts add up to the number of rows. */
  lemma {:induction false} FillNTotal(rows: seq<Row>, rmin: real, step: real, nBins: nat)
    requires step > 0.0 && nBins > 0
    ensures Total(FillN(rows, rmin, step, nBins)) == |rows|
  {
    if |rows| == 0 {
      TotalZeros(nBins);
    } else {
      FillNTotal(rows[..|rows| - 1], rmin, step, nBins);
      TotalUpdate(FillN(rows[..|rows| - 1], rmin, step, nBins), Index(rows[|rows| - 1].r, rmin, step, nBins));
    }
  }

  /** No F² is lost or counted twice: the shell sums add up to the total F². */
  lemma {:induction false} FillF2Total(rows: seq<Row>, rmin: real, step: real, nBins: nat)
    requires step > 0.0 && nBins > 0
    ensures Sum(FillF2(rows, rmin, step, nBins)) == Sum(F2Values(rows))
  {
    if |rows| == 0 {
      SumZeros(nBins);
    } else {
      var front := rows[..|rows| - 1];
      FillF2Total(front, rmin, step, nBins);
      SumUpdate(FillF2(front, rmin, step, nBins), Index(rows[|rows| - 1].r, rmin, step, nBins), rows[|rows| - 1].f2);
      assert F2Values(rows)[..|rows| - 1] == F2Values(front);
    }
  }

  /** `{ i, lo, hi, sumF2, n }` */
  datatype Shell = Shell(i: nat, lo: real, hi: real, sumF2: real, n: nat)

  /** `{ x, y, n }`; the regression reads only x and y. */
  datatype Point = Point(x: real, y: real, n: nat)

  /** The point of a shell with n > 0 and sumF2 > 0: the centre of the shell and the log of its
      mean F², with `log` standing for `Math.log`. */
  function PointOf(b: Shell, log: real -> real): Point
    requires b.n > 0
  {
    Point(0.5 * (b.lo + b.hi), log(b.sumF2 / b.n as real), b.n)
  }

  predicate Plotted(b: Shell)
  {
    b.n > 0 && b.sumF2 > 0.0
  }

  /** The third loop: one point per plotted shell, in shell order. */
  function Points(bins: seq<Shell>, log: real -> real): (ps: seq<Point>)
    ensures |ps| <= |bins|
  {
    if |bins| == 0 then []
    else
      var b := bins[|bins| - 1];
      Points(bins[..|bins| - 1], log) + if Plotted(b) then [PointOf(b, log)] else []
  }

  /** Every point comes from a plotted shell, and every plotted shell gives a point. */
  lemma {:induction false} PointsFromPlottedShells(bins: seq<Shell>, log: real -> real)
    ensures forall p :: p in Points(bins, log) ==> exists j :: 0 <= j < |bins| && Plotted(bins[j]) && p == PointOf(bins[j], log)
    ensures forall j :: 0 <= j < |bins| && Plotted(bins[j]) ==> PointOf(bins[j], log) in Points(bins, log)
  {
    if |bins| > 0 {
      var front := bins[..|bins| - 1];
      PointsFromPlottedShells(front, log);
      forall p | p in Points(bins, log)
        ensures exists j :: 0 <= j < |bins| && Plotted(bins[j]) && p == PointOf(bins[j], log)
      {
        if p in Points(front, log) {
          var j :| 0 <= j < |front| && Plotted(front[j]) && p == PointOf(front[j], log);
          assert bins[j] == front[j];
        } else {
          assert p == PointOf(bins[|bins| - 1], log);
        }
      }
      forall j | 0 <= j < |bins| && Plotted(bins[j]) ensures PointOf(bins[j], log) in Points(bins, log) {
        if j < |front| {
          assert front[j] == bins[j];
        }
      }
    }
  }

  /** `{ bins: [], points: [] }`, a TypeError when there is no shell to count into (nBins <= 0),
      or the full result. */
  datatype Outcome = Empty | Throws | Proxy(bins: seq<Shell>, points: seq<Point>, rmin: real, rmax: real)

  /** `buildWilsonProxy` */
  method BuildWilsonProxy(refls: seq<Reflection>, nBins: int, log: real -> real) returns (out: Outcome)
    ensures out.Empty? <==> |refls| == 0 || SeqMax(RValues(Rows(refls))) <= SeqMin(RValues(Rows(refls)))
    ensures out.Throws? <==> |refls| > 0 && SeqMax(RValues(Rows(refls))) > SeqMin(RValues(Rows(refls))) && nBins <= 0
    ensures out.Proxy? ==>
              var rows := Rows(refls);
              && |rows| > 0 && nBins > 0
              && out.rmin == SeqMin(RValues(rows)) && out.rmax == SeqMax(RValues(rows)) && out.rmax > out.rmin
              && out.bins == Shells(rows, out.rmin, out.rmax, nBins)
              && Total(FillN(rows, out.rmin, Step(out.rmin, out.rmax, nBins), nBins)) == |refls|
              && out.points == Points(out.bins, log)
  {
    if |refls| == 0 {
      return Empty;
    }
    var rows := MakeRows(refls);
    var lo, hi := Extrema(rows);
    if hi <= lo {
      return Empty;
    }
    if nBins <= 0 {
      return Throws;
    }
    var step := (hi - lo) / nBins as real;
    var bins := EmptyShells(lo, hi, step, nBins);
    bins := FillShells(rows, bins, lo, hi, nBins);
    FillNTotal(rows, lo, step, nBins);
    var points := PlotPoints(bins, log);
    out := Proxy(bins, points, lo, hi);
  }

  /** The first loop: one row per reflection. */
  method MakeRows(refls: seq<Reflection>) returns (rows: seq<Row>)
    ensures rows == Rows(refls)
  {
    rows := [];
    for j := 0 to |refls|
      invariant rows == Rows(refls[..j])
    {
      var r := refls[j];
      rows := rows + [Row(PseudoResolution.R(r.h, r.k, r.l) as real, Times(r.F, r.F))];
    }
    assert refls[..|refls|] == refls;
  }

  /** The Rmin/Rmax loop, starting from +Infinity and -Infinity (here: no value yet). */
  method Extrema(rows: seq<Row>) returns (lo: real, hi: real)
    requires |rows| > 0
    ensures lo == SeqMin(RValues(rows)) && hi == SeqMax(RValues(rows))
  {
    ghost var rs := RValues(rows);
    var rmin: Option<real> := None;
    var rmax: Option<real> := None;
    for j := 0 to |rows|
      invariant j == 0 ==> rmin.None? && rmax.None?
      invariant j > 0 ==> rmin == Some(SeqMin(rs[..j])) && rmax == Some(SeqMax(rs[..j]))
    {
      assert j > 0 ==> rs[..j + 1][..j] == rs[..j];
      var x := rows[j];
      if rmin.None? || x.r < rmin.value {
        rmin := Some(x.r);
      }
      if rmax.None? || x.r > rmax.value {
        rmax := Some(x.r);
      }
    }
    assert rs[..|rows|] == rs;
    lo, hi := rmin.value, rmax.value;
  }

  /** The shells before binning. */
  function Blank(lo: real, hi: real, step: real, nBins: nat): seq<Shell>
  {
    seq(nBins, t requires 0 <= t < nBins => Shell(t, Lower(t, lo, step), Upper(t, lo, hi, step, nBins), 0.0, 0))
  }

  /** The shells after binning: shell t spans [Lower t, Upper t) and holds the F² sum and count of
      the rows placed in it. */
  function Shells(rows: seq<Row>, rmin: real, rmax: real, nBins: nat): (bins: seq<Shell>)
    requires rmax > rmin && nBins > 0
    ensures |bins| == nBins
  {
    var step := Step(rmin, rmax, nBins);
    var sums, counts := FillF2(rows, rmin, step, nBins), FillN(rows, rmin, step, nBins);
    seq(nBins, t requires 0 <= t < nBins =>
      Shell(t, Lower(t, rmin, step), Upper(t, rmin, rmax, step, nBins), sums[t], counts[t]))
  }

  /** The first shell starts at Rmin and the last ends just above Rmax, so every R is covered. */
  lemma ShellsEnds(rows: seq<Row>, rmin: real, rmax: real, nBins: nat)
    requires rmax > rmin && nBins > 0
    ensures Shells(rows, rmin, rmax, nBins)[0].lo == rmin
    ensures Shells(rows, rmin, rmax, nBins)[nBins - 1].hi == rmax + Tiny
  {
  }

  /** The shell-boundary loop. */
  method EmptyShells(lo: real, hi: real, step: real, nBins: nat) returns (bins: seq<Shell>)
    ensures bins == Blank(lo, hi, step, nBins)
  {
    bins := [];
    for i := 0 to nBins
      invariant |bins| == i && forall t :: 0 <= t < i ==>
                  bins[t] == Shell(t, Lower(t, lo, step), Upper(t, lo, hi, step, nBins), 0.0, 0)
    {
      bins := bins + [Shell(i, lo + Times(i as real, step),
                            if i == nBins - 1 then hi + Tiny else lo + Times((i + 1) as real, step), 0.0, 0)];
    }
  }

  /** The binning loop: `bins[idx].sumF2 += F2; bins[idx].n += 1`. */
  method FillShells(rows: seq<Row>, empty: seq<Shell>, lo: real, hi: real, nBins: nat)
    returns (bins: seq<Shell>)
    requires hi > lo && nBins > 0 && empty == Blank(lo, hi, Step(lo, hi, nBins), nBins)
    ensures bins == Shells(rows, lo, hi, nBins)
  {
    var step := Step(lo, hi, nBins);
    bins := empty;
    for j := 0 to |rows|
      invariant |bins| == nBins && forall t :: 0 <= t < nBins ==>
                  bins[t] == Shell(t, Lower(t, lo, step), Upper(t, lo, hi, step, nBins),
                                   FillF2(rows[..j], lo, step, nBins)[t], FillN(rows[..j], lo, step, nBins)[t])
    {
      assert rows[..j + 1][..j] == rows[..j];
      var x := rows[j];
      var idx := Index(x.r, lo, step, nBins);
      bins := bins[idx := bins[idx].(sumF2 := bins[idx].sumF2 + x.f2, n := bins[idx].n + 1)];
    }
    assert rows[..|rows|] == rows;
  }

  /** The points loop. */
  method PlotPoints(bins: seq<Shell>, log: real -> real) returns (points: seq<Point>)
    ensures points == Points(bins, log)
  {
    points := [];
    for i := 0 to |bins|
      invariant points == Points(bins[..i], log)
    {
      assert bins[..i + 1][..i] == bins[..i];
      var b := bins[i];
      if b.n > 0 && b.sumF2 > 0.0 {
        var meanF2 := b.sumF2 / b.n as real;
        points := points + [Point(0.5 * (b.lo + b.hi), log(meanF2), b.n)];
      }
    }
    assert bins[..|bins|] == bins;
  }

  datatype Fit = Fit(a: real, b: real)

  function SumX(ps: seq<Point>): real
  {
    if |ps| == 0 then 0.0 else SumX(ps[..|ps| - 1]) + ps[|ps| - 1].x
  }

  function SumY(ps: seq<Point>): real
  {
    if |ps| == 0 then 0.0 else SumY(ps[..|ps| - 1]) + ps[|ps| - 1].y
  }

  function SumXX(ps: seq<Point>): real
  {
    if |ps| == 0 then 0.0 else SumXX(ps[..|ps| - 1]) + Times(ps[|ps| - 1].x, ps[|ps| - 1].x)
  }

  function SumXY(ps: seq<Point>): real
  {
    if |ps| == 0 then 0.0 else SumXY(ps[..|ps| - 1]) + Times(ps[|ps| - 1].x, ps[|ps| - 1].y)
  }

  /** `n·Σx² − (Σx)²` */
  function Denom(ps: seq<Point>): real
  {
    Times(|ps| as real, SumXX(ps)) - Times(SumX(ps), SumX(ps))
  }

  /** The least-squares line y = a·x + b; none for fewer than two points or a (near-)singular
      system. */
  function Regression(ps: seq<Point>): (r: Option<Fit>)
    ensures r.None? <==> |ps| < 2 || Abs(Denom(ps)) < Tiny
  {
    if |ps| < 2 then None
    else
      var n := |ps| as real;
      var denom := Denom(ps);
      if Abs(denom) < Tiny then None
      else
        var a := (Times(n, SumXY(ps)) - Times(SumX(ps), SumY(ps))) / denom;
        Some(Fit(a, (SumY(ps) - Times(a, SumX(ps))) / n))
  }

  /** `linearRegressionXY`: the accumulation loop computes the regression. */
  method LinearRegressionXY(ps: seq<Point>) returns (r: Option<Fit>)
    ensures r == Regression(ps)
  {
    var n := |ps|;
    if n < 2 {
      return None;
    }
    var sx, sy, sxx, sxy := 0.0, 0.0, 0.0, 0.0;
    for j := 0 to n
      invariant sx == SumX(ps[..j]) && sy == SumY(ps[..j])
      invariant sxx == SumXX(ps[..j]) && sxy == SumXY(ps[..j])
    {
      assert ps[..j + 1][..j] == ps[..j];
      var p := ps[j];
      sx := sx + p.x;
      sy := sy + p.y;
      sxx := sxx + Times(p.x, p.x);
      sxy := sxy + Times(p.x, p.y);
    }
    assert ps[..n] == ps;
    var denom := Times(n as real, sxx) - Times(sx, sx);
    if Abs(denom) < Tiny {
      return None;
    }
    var a := (Times(n as real, sxy) - Times(sx, sy)) / denom;
    var b := (sy - Times(a, sx)) / n as real;
    r := Some(Fit(a, b));
  }

  predicate OnLine(ps: seq<Point>, a: real, b: real)
  {
    forall i :: 0 <= i < |ps| ==> ps[i].y == Times(a, ps[i].x) + b
  }

  lemma {:induction false} SumYOnLine(ps: seq<Point>, a: real, b: real)
    requires OnLine(ps, a, b)
    ensures SumY(ps) == Times(a, SumX(ps)) + Times(|ps| as real, b)
  {
    if |ps| > 0 {
      SumYOnLine(ps[..|ps| - 1], a, b);
    }
  }

  lemma {:induction false} SumXYOnLine(ps: seq<Point>, a: real, b: real)
    requires OnLine(ps, a, b)
    ensures SumXY(ps) == Times(a, SumXX(ps)) + Times(b, SumX(ps))
  {
    if |ps| > 0 {
      var init, x, y := ps[..|ps| - 1], ps[|ps| - 1].x, ps[|ps| - 1].y;
      SumXYOnLine(init, a, b);
      assert y == Times(a, x) + b;
      assert SumXY(ps) == SumXY(init) + Times(x, y);
      LineProduct(x, a, b);
      LineStep(SumXX(init), SumX(init), Times(x, x), x, a, b);
    }
  }

  lemma LineProduct(x: real, a: real, b: real)
    ensures Times(x, Times(a, x) + b) == Times(a, Times(x, x)) + Times(b, x)
  {
    assert x * (a * x + b) == a * (x * x) + b * x;
  }

  lemma LineStep(sxx: real, sx: real, xx: real, x: real, a: real, b: real)
    ensures Times(a, sxx + xx) + Times(b, sx + x) == (Times(a, sxx) + Times(b, sx)) + (Times(a, xx) + Times(b, x))
  {
    assert a * (sxx + xx) == a * sxx + a * xx;
    assert b * (sx + x) == b * sx + b * x;
  }

  /** With Σy = a·Σx + n·b and Σxy = a·Σx² + b·Σx the slope's numerator is a times the
      denominator. */
  lemma NumeratorOnLine(n: real, sx: real, sxx: real, sy: real, sxy: real, a: real, b: real)
    requires sy == Times(a, sx) + Times(n, b) && sxy == Times(a, sxx) + Times(b, sx)
    ensures Times(n, sxy) - Times(sx, sy) == Times(a, Times(n, sxx) - Times(sx, sx))
  {
    assert n * (a * sxx + b * sx) - sx * (a * sx + n * b) == a * (n * sxx - sx * sx);
  }

  /** Points exactly on a line, and spread enough for the fit to be made, give that line back. */
  lemma RegressionOfCollinear(ps: seq<Point>, a: real, b: real)
    requires |ps| >= 2 && OnLine(ps, a, b) && Abs(Denom(ps)) >= Tiny
    ensures Regression(ps) == Some(Fit(a, b))
  {
    var n := |ps| as real;
    var sx, sy, sxx, sxy := SumX(ps), SumY(ps), SumXX(ps), SumXY(ps);
    var d := Denom(ps);
    SumYOnLine(ps, a, b);
    SumXYOnLine(ps, a, b);
    NumeratorOnLine(n, sx, sxx, sy, sxy, a, b);
    QuotientOf(a, d);
    QuotientOf(b, n);
  }

  /** (c·d) / d == c for d ≠ 0. */
  lemma QuotientOf(c: real, d: real)
    requires d != 0.0
    ensures Times(c, d) / d == c && Times(d, c) / d == c
  {
    var t := Times(c, d) / d - c;
    assert t * d == 0.0;
  }

  /** Points that all share one x make the system singular, so no line is returned. */
  lemma {:induction false} SameXSums(ps: seq<Point>, c: real)
    requires forall i :: 0 <= i < |ps| ==> ps[i].x == c
    ensures SumX(ps) == Times(|ps| as real, c) && SumXX(ps) == Times(|ps| as real, Times(c, c))
  {
    if |ps| > 0 {
      SameXSums(ps[..|ps| - 1], c);
    }
  }

  lemma RegressionOfSameX(ps: seq<Point>, c: real)
    requires forall i :: 0 <= i < |ps| ==> ps[i].x == c
    ensures Regression(ps) == None
  {
    var n := |ps| as real;
    SameXSums(ps, c);
    assert Times(n, Times(n, Times(c, c))) == Times(Times(n, c), Times(n, c));
    assert Denom(ps) == 0.0;
  }
}
