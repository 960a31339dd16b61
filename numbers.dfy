/** Numbers as the analysis observes them, and the transcendental library functions it calls. */
module Numbers {

  /** A JavaScript number as far as `Number.isFinite` can tell: a finite value, or one of NaN,
      +Infinity, -Infinity and an absent field read as `undefined`, none of which is finite. */
  datatype Num = Fin(value: real) | NonFinite

  function Abs(x: real): (r: real)
    ensures r >= 0.0 && (r == x || r == -x)
  {
    if x < 0.0 then -x else x
  }

  function Max(a: real, b: real): (r: real)
    ensures r >= a && r >= b && (r == a || r == b)
  {
    if a >= b then a else b
  }

  function Min(a: real, b: real): (r: real)
    ensures r <= a && r <= b && (r == a || r == b)
  {
    if a <= b then a else b
  }

  function MinInt(a: int, b: int): (r: int)
    ensures r <= a && r <= b && (r == a || r == b)
  {
    if a <= b then a else b
  }

  function MaxInt(a: int, b: int): (r: int)
    ensures r >= a && r >= b && (r == a || r == b)
  {
    if a >= b then a else b
  }

  /** `Math.abs` on a JavaScript number: finite stays finite, NaN and the infinities do not. */
  function AbsNum(n: Num): (r: Num)
    ensures r.Fin? <==> n.Fin?
    ensures r.Fin? ==> r.value >= 0.0 && Abs(n.value) == r.value
  {
    match n
    case Fin(v) => Fin(Abs(v))
    case NonFinite => NonFinite
  }

  /** `f` behaves as `Math.sqrt` on the non-negative reals: it returns the non-negative root. */
  ghost predicate IsSqrt(f: real -> real)
  {
    forall x: real {:trigger f(x)} :: 0.0 <= x ==> 0.0 <= f(x) && f(x) * f(x) == x
  }

  /** The root of a positive number is positive, so it can be divided by. */
  lemma SqrtOfPositive(f: real -> real, x: real)
    requires IsSqrt(f) && x > 0.0
    ensures f(x) > 0.0
  {
    assert 0.0 <= f(x) && f(x) * f(x) == x;
  }

  /** Sum of a sequence of reals, accumulated from the left as a loop or `reduce` does. */
  function Sum(s: seq<real>): real
  {
    if |s| == 0 then 0.0 else Sum(s[..|s| - 1]) + s[|s| - 1]
  }

  lemma {:induction false} SumNonNegative(s: seq<real>)
    requires forall i :: 0 <= i < |s| ==> s[i] >= 0.0
    ensures Sum(s) >= 0.0
  {
    if |s| > 0 {
      SumNonNegative(s[..|s| - 1]);
    }
  }

  /** Scaling every element scales the sum. */
  lemma {:induction false} SumScaled(a: seq<real>, b: seq<real>, c: real)
    requires |a| == |b| && forall i :: 0 <= i < |a| ==> a[i] == b[i] * c
    ensures Sum(a) == Sum(b) * c
  {
    if |a| > 0 {
      SumScaled(a[..|a| - 1], b[..|b| - 1], c);
    }
  }

  /** Adding `d` to one element adds `d` to the sum. */
  lemma {:induction false} SumUpdate(s: seq<real>, i: nat, d: real)
    requires i < |s|
    ensures Sum(s[i := s[i] + d]) == Sum(s) + d
  {
    var t := s[i := s[i] + d];
    if i == |s| - 1 {
      assert t[..|t| - 1] == s[..|s| - 1];
    } else {
      assert t[..|t| - 1] == s[..|s| - 1][i := s[i] + d];
      SumUpdate(s[..|s| - 1], i, d);
    }
  }

  /** A zero-filled typed array of length n. */
  function Zeros(n: nat): (z: seq<real>)
    ensures |z| == n && forall i :: 0 <= i < n ==> z[i] == 0.0
  {
    seq(n, _ => 0.0)
  }

  lemma {:induction false} SumZeros(n: nat)
    ensures Sum(Zeros(n)) == 0.0
  {
    if n > 0 {
      assert Zeros(n)[..n - 1] == Zeros(n - 1);
      SumZeros(n - 1);
    }
  }

  /** The `%` operator of JavaScript on integers: the remainder takes the sign of the dividend,
      and the dividend minus the remainder is a multiple of `n`. */
  function JsRem(a: int, n: int): (r: int)
    requires n > 0
    ensures -n < r < n
    ensures a >= 0 ==> r >= 0
    ensures a < 0 ==> r <= 0
    ensures (a - r) % n == 0
  {
    if a >= 0 then
      RemainderLeavesMultiple(a, n);
      a % n
    else
      RemainderLeavesMultiple(-a, n);
      NegatedMultiple(a + (-a) % n, n);
      -((-a) % n)
  }

  /** A non-negative number minus its remainder is a multiple of `n`. */
  lemma RemainderLeavesMultiple(b: int, n: int)
    requires n > 0
    ensures (b - b % n) % n == 0
  {
    var q := b / n;
    assert b - b % n == q * n;
    ModOfMultiplePlus(q, n, 0);
  }

  /** The negation of a multiple of `n` is one too. */
  lemma NegatedMultiple(x: int, n: int)
    requires n > 0 && (-x) % n == 0
    ensures x % n == 0
  {
    var q := (-x) / n;
    assert -x == q * n;
    assert x == (-q) * n;
    ModOfMultiplePlus(-q, n, 0);
  }

  lemma MulAtLeast(d: int, n: int)
    requires d >= 1 && n > 0
    ensures d * n >= n
  {
    assert (d - 1) * n >= 0;
  }

  /** Division by `n` undoes `q * n + r` for a remainder `r` in `[0, n)`. */
  lemma ModOfMultiplePlus(q: int, n: int, r: int)
    requires n > 0 && 0 <= r < n
    ensures (q * n + r) % n == r && (q * n + r) / n == q
  {
    var a := q * n + r;
    var q', r' := a / n, a % n;
    assert a == q' * n + r' && 0 <= r' < n;
    assert q * n - q' * n == r' - r;
    assert (q - q') * n == q * n - q' * n;
    if q > q' {
      MulAtLeast(q - q', n);
    } else if q < q' {
      MulAtLeast(q' - q, n);
    }
  }

  /** `((a % n) + n) % n`, the source's wrap into `[0, n)`, is the mathematical residue of `a`. */
  lemma {:induction false} WrapIsResidue(a: int, n: int)
    requires n > 0
    ensures JsRem(JsRem(a, n) + n, n) == a % n
    ensures 0 <= a % n < n
  {
    var r := JsRem(a, n);
    if a >= 0 {
      assert r == a % n && 0 <= r < n;
      ModOfMultiplePlus(1, n, r);
      assert JsRem(r + n, n) == (1 * n + r) % n;
    } else {
      NegativeWrap(a, n);
    }
  }

  /** For a negative dividend, −(−a mod n) + n lies in (0, n] and is congruent to a. */
  lemma NegativeWrap(a: int, n: int)
    requires n > 0 && a < 0
    ensures JsRem(JsRem(a, n) + n, n) == a % n
  {
    var q, m := (-a) / n, (-a) % n;
    assert -a == q * n + m && 0 <= m < n;
    var w := n - m;
    assert JsRem(a, n) + n == w && 0 < w <= n;
    if m == 0 {
      ModOfMultiplePlus(1, n, 0);
      assert JsRem(w, n) == 0;
      assert a == (-q) * n + 0;
      ModOfMultiplePlus(-q, n, 0);
    } else {
      ModOfMultiplePlus(0, n, w);
      assert JsRem(w, n) == w;
      assert a == (-q - 1) * n + w;
      ModOfMultiplePlus(-q - 1, n, w);
    }
  }

  /** `n & (m - 1)` of JavaScript for the masks 1 and 3: the bitwise operators first take the
      32-bit two's-complement pattern of `n`, whose low bits are those of `n % 2^32`. */
  function LowBits(n: int, m: nat): (r: int)
    requires m == 2 || m == 4
    ensures r == n % m
  {
    LowBitsResidue(n, m);
    (n % 0x1_0000_0000) % m
  }

  lemma LowBitsResidue(n: int, m: nat)
    requires m == 2 || m == 4
    ensures (n % 0x1_0000_0000) % m == n % m
  {
    var u := n % 0x1_0000_0000;
    var q := n / 0x1_0000_0000;
    assert n == q * 0x1_0000_0000 + u;
    if m == 2 {
      assert n == (q * 0x8000_0000 + u / 2) * 2 + u % 2;
      ModOfMultiplePlus(q * 0x8000_0000 + u / 2, 2, u % 2);
    } else {
      assert n == (q * 0x4000_0000 + u / 4) * 4 + u % 4;
      ModOfMultiplePlus(q * 0x4000_0000 + u / 4, 4, u % 4);
    }
  }

  /** The smallest element, as the source's running-minimum loops compute it. */
  function SeqMin(s: seq<real>): (r: real)
    requires |s| > 0
    ensures r in s && forall i :: 0 <= i < |s| ==> r <= s[i]
  {
    if |s| == 1 then s[0]
    else
      var m := SeqMin(s[..|s| - 1]);
      assert forall i :: 0 <= i < |s| - 1 ==> s[..|s| - 1][i] == s[i];
      if s[|s| - 1] < m then s[|s| - 1] else m
  }

  /** The largest element. */
  function SeqMax(s: seq<real>): (r: real)
    requires |s| > 0
    ensures r in s && forall i :: 0 <= i < |s| ==> s[i] <= r
  {
    if |s| == 1 then s[0]
    else
      var m := SeqMax(s[..|s| - 1]);
      assert forall i :: 0 <= i < |s| - 1 ==> s[..|s| - 1][i] == s[i];
      if s[|s| - 1] > m then s[|s| - 1] else m
  }

  /** `present / total` for counts with present <= total: a rate in [0, 1]. */
  function Rate(present: nat, total: nat): (r: real)
    requires present <= total && total > 0
    ensures 0.0 <= r <= 1.0
    ensures r * total as real == present as real
  {
    var r := present as real / total as real;
    assert r <= 1.0 by {
      if r > 1.0 {
        assert (r - 1.0) * total as real > 0.0;
      }
    }
    r
  }

  /** A product kept as a term of its own, so that the solver does not expand it. */
  function Times(a: real, b: real): real
  {
    a * b
  }

  /** Sum of a sequence of counts. */
  function Total(c: seq<nat>): nat
  {
    if |c| == 0 then 0 else Total(c[..|c| - 1]) + c[|c| - 1]
  }

  lemma {:induction false} TotalUpdate(c: seq<nat>, i: nat)
    requires i < |c|
    ensures Total(c[i := c[i] + 1]) == Total(c) + 1
  {
    var t := c[i := c[i] + 1];
    if i == |c| - 1 {
      assert t[..|t| - 1] == c[..|c| - 1];
    } else {
      assert t[..|t| - 1] == c[..|c| - 1][i := c[i] + 1];
      TotalUpdate(c[..|c| - 1], i);
    }
  }

  lemma {:induction false} TotalZeros(n: nat)
    ensures Total(seq(n, _ => 0)) == 0
  {
    if n > 0 {
      assert seq(n, _ => 0)[..n - 1] == seq(n - 1, _ => 0);
      TotalZeros(n - 1);
    }
  }
}
