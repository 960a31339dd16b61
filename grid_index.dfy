/** Integer index arithmetic of the N×N×N Fourier grids: the wrap of a Miller index into
    [0, N) and the flat positions of a cell in the two memory layouts the grids use. */
module GridIndex {
  import opened Numbers

  /** `((a % N) + N) % N`: the residue of a modulo N. */
  function Wrap(a: int, n: int): (w: int)
    requires n > 0
    ensures 0 <= w < n && w == a % n
  {
    WrapIsResidue(a, n);
    JsRem(JsRem(a, n) + n, n)
  }

  /** Indices that differ by a multiple of N land in the same place. */
  lemma WrapPeriodic(a: int, q: int, n: int)
    requires n > 0
    ensures Wrap(a + q * n, n) == Wrap(a, n)
  {
    var r := a % n;
    assert a == (a / n) * n + r;
    assert a + q * n == (a / n + q) * n + r;
    ModOfMultiplePlus(a / n + q, n, r);
  }

  /** Wrapping an index already in [0, N) leaves it alone, so wrapping twice is wrapping once. */
  lemma WrapInRange(a: int, n: int)
    requires n > 0 && 0 <= a < n
    ensures Wrap(a, n) == a
  {
    ModOfMultiplePlus(0, n, a);
  }

  function Cube(n: nat): nat
  {
    n * n * n
  }

  /** `a + N*(b + N*c)`: the layout whose first coordinate varies fastest. */
  function Linear(a: nat, b: nat, c: nat, n: nat): nat
  {
    a + n * (b + n * c)
  }

  /** `x*N*N + y*N + z`: the row-major layout, whose last coordinate varies fastest; it is the
      linear layout with the coordinates reversed. */
  function RowMajor(x: nat, y: nat, z: nat, n: nat): (i: nat)
    ensures i == Linear(z, y, x, n)
    ensures x < n && y < n && z < n ==> i < Cube(n)
  {
    Reversed(x, y, z, n);
    assert x < n && y < n && z < n ==> Linear(z, y, x, n) < Cube(n) by {
      if x < n && y < n && z < n {
        LinearBound(z, y, x, n);
      }
    }
    x * n * n + y * n + z
  }

  lemma Reversed(x: nat, y: nat, z: nat, n: nat)
    ensures x * n * n + y * n + z == Linear(z, y, x, n)
  {
    assert x * n * n == n * (n * x);
    assert n * (y + n * x) == n * y + n * (n * x);
  }

  lemma MulMonotone(a: nat, b: nat, n: nat)
    requires a <= b
    ensures n * a <= n * b
  {
    assert n * b - n * a == n * (b - a);
  }

  /** Coordinates in [0, N) give a position in [0, N³). */
  lemma LinearBound(a: nat, b: nat, c: nat, n: nat)
    requires a < n && b < n && c < n
    ensures Linear(a, b, c, n) < Cube(n)
  {
    MulMonotone(c, n - 1, n);
    assert b + n * c <= n * n - 1;
    MulMonotone(b + n * c, n * n - 1, n);
    assert n * (n * n - 1) == Cube(n) - n;
  }

  /** The real and imaginary planes of an N×N×N grid, each flattened to N³ values. */
  datatype Grid = Grid(re: seq<real>, im: seq<real>)

  predicate Sized(g: Grid, n: nat)
  {
    |g.re| == Cube(n) && |g.im| == Cube(n)
  }

  /** The three coordinates of a position, fastest first. */
  datatype Coords = Coords(a: nat, b: nat, c: nat)

  function Digits(i: nat, n: nat): (d: Coords)
    requires n > 0
  {
    Coords(i % n, (i / n) % n, (i / n) / n)
  }

  /** The layout is a bijection between [0, N)³ and [0, N³): reading the digits of a position
      gives back its coordinates, and every position below N³ is the position of its digits. */
  lemma LinearDigits(a: nat, b: nat, c: nat, n: nat)
    requires a < n && b < n && c < n
    ensures Digits(Linear(a, b, c, n), n) == Coords(a, b, c)
  {
    var q := b + n * c;
    assert Linear(a, b, c, n) == q * n + a;
    ModOfMultiplePlus(q, n, a);
    assert q == c * n + b;
    ModOfMultiplePlus(c, n, b);
  }

  lemma DigitsLinear(i: nat, n: nat)
    requires n > 0 && i < Cube(n)
    ensures var d := Digits(i, n);
      d.a < n && d.b < n && d.c < n && Linear(d.a, d.b, d.c, n) == i
  {
    var a, q := i % n, i / n;
    DivBelow(i, n, n * n);
    var b, c := q % n, q / n;
    DivBelow(q, n, n);
    Recompose(i, q, a, b, c, n);
  }

  /** Below m·n, the quotient by n is below m. */
  lemma DivBelow(i: nat, n: nat, m: nat)
    requires n > 0 && i < m * n
    ensures i / n < m
  {
    var q := i / n;
    assert q * n <= i;
    if q >= m {
      MulMonotone(m, q, n);
    }
  }

  lemma Recompose(i: nat, q: nat, a: nat, b: nat, c: nat, n: nat)
    requires n > 0 && a == i % n && q == i / n && b == q % n && c == q / n
    ensures i == a + n * (b + n * c)
  {
    assert i == n * q + a;
    assert q == n * c + b;
  }
}
