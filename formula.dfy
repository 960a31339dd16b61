/** Chemical formulae: the tokenizer that tallies element counts, and the mean atomic number
    over the elements of a small table. */
module Formula {
  import opened Wrappers
  import opened Text

  predicate IsUpper(c: char) { 'A' <= c <= 'Z' }
  predicate IsLower(c: char) { 'a' <= c <= 'z' }

  /** One match of `([A-Z][a-z]?)(\d*)`: an element symbol and its count (1 when no digits follow). */
  datatype Token = Token(symbol: string, count: nat)

  /** An entry of the tally; the tally lists each symbol once, in order of first appearance
      (the order `Object.entries` reports string keys in). */
  datatype Entry = Entry(symbol: string, n: nat)

  /** Length of the symbol at the front of `s`: the capital and an optional small letter. */
  function SymbolLen(s: string): (n: nat)
    requires |s| > 0 && IsUpper(s[0])
    ensures 1 <= n <= 2 && n <= |s|
  {
    if |s| > 1 && IsLower(s[1]) then 2 else 1
  }

  /** The count written after a symbol: the digits' decimal value, or 1 when there are none. */
  function CountOf(digits: string): nat
    requires AllDigits(digits)
  {
    if digits == "" then 1 else DigitsValue(digits)
  }

  /** A match and the position the next search starts from (`lastIndex`). */
  datatype Match = Match(token: Token, next: nat)

  /** `re.exec(str)` with the search starting at `from`: the first position holding a capital
      starts the match; none gives null. */
  function Exec(s: string, from: nat): (m: Option<Match>)
    ensures m.Some? ==> from < m.value.next <= |s|
    decreases |s| - from
  {
    if from >= |s| then None
    else if !IsUpper(s[from]) then Exec(s, from + 1)
    else
      var n := SymbolLen(s[from..]);
      var d := DigitPrefix(s[from + n..]);
      Some(Match(Token(s[from..from + n], CountOf(s[from + n..][..d])), from + n + d))
  }

  /** The successive matches of the global regular expression from position `from` on. */
  function Tokens(s: string, from: nat): seq<Token>
    decreases |s| - from
  {
    match Exec(s, from)
    case None => []
    case Some(m) => [m.token] + Tokens(s, m.next)
  }

  /** Every symbol is listed once. */
  predicate UniqueSymbols(tab: seq<Entry>)
  {
    |tab| == 0 || (UniqueSymbols(tab[..|tab| - 1]) && tab[|tab| - 1].symbol !in Symbols(tab[..|tab| - 1]))
  }

  /** Count recorded for `sym`, 0 when absent (as `out[elem] || 0`). */
  function Lookup(tab: seq<Entry>, sym: string): nat
  {
    if |tab| == 0 then 0
    else if tab[|tab| - 1].symbol == sym then tab[|tab| - 1].n
    else Lookup(tab[..|tab| - 1], sym)
  }

  function Symbols(tab: seq<Entry>): set<string>
  {
    if |tab| == 0 then {} else Symbols(tab[..|tab| - 1]) + {tab[|tab| - 1].symbol}
  }

  /** `out[elem] = (out[elem] || 0) + num`: the count of `elem` grows by `num`, a new symbol
      goes last, and nothing else changes. */
  function AddTo(tab: seq<Entry>, sym: string, c: nat): (r: seq<Entry>)
    requires UniqueSymbols(tab)
    ensures UniqueSymbols(r)
    ensures Lookup(r, sym) == Lookup(tab, sym) + c
    ensures forall other :: other != sym ==> Lookup(r, other) == Lookup(tab, other)
    ensures Symbols(r) == Symbols(tab) + {sym}
    ensures sym !in Symbols(tab) ==> r == tab + [Entry(sym, c)]
    ensures sym in Symbols(tab) ==> |r| == |tab|
  {
    if sym in Symbols(tab) then Bump(tab, sym, c)
    else
      var r := tab + [Entry(sym, c)];
      assert r[..|r| - 1] == tab;
      LookupAbsent(tab, sym);
      r
  }

  lemma {:induction false} LookupAbsent(tab: seq<Entry>, sym: string)
    requires sym !in Symbols(tab)
    ensures Lookup(tab, sym) == 0
  {
    if |tab| > 0 {
      LookupAbsent(tab[..|tab| - 1], sym);
    }
  }

  /** Adds `c` to the entry of a symbol already listed, in its place. */
  function Bump(tab: seq<Entry>, sym: string, c: nat): (r: seq<Entry>)
    requires UniqueSymbols(tab) && sym in Symbols(tab)
    ensures UniqueSymbols(r) && Symbols(r) == Symbols(tab) && |r| == |tab|
    ensures Lookup(r, sym) == Lookup(tab, sym) + c
    ensures forall other :: other != sym ==> Lookup(r, other) == Lookup(tab, other)
    decreases |tab|
  {
    var front, last := tab[..|tab| - 1], tab[|tab| - 1];
    if last.symbol == sym then
      var r := front + [Entry(sym, last.n + c)];
      assert r[..|r| - 1] == front;
      r
    else
      var r := Bump(front, sym, c) + [last];
      assert r[..|r| - 1] == Bump(front, sym, c);
      r
  }

  /** The dictionary built from a sequence of matches. */
  function Tally(ts: seq<Token>): (tab: seq<Entry>)
    ensures UniqueSymbols(tab)
  {
    if |ts| == 0 then [] else AddTo(Tally(ts[..|ts| - 1]), ts[|ts| - 1].symbol, ts[|ts| - 1].count)
  }

  /** Sum of the counts of the matches of `sym`. */
  function SumFor(ts: seq<Token>, sym: string): nat
  {
    if |ts| == 0 then 0
    else SumFor(ts[..|ts| - 1], sym) + (if ts[|ts| - 1].symbol == sym then ts[|ts| - 1].count else 0)
  }

  function TokenSymbols(ts: seq<Token>): set<string>
  {
    if |ts| == 0 then {} else TokenSymbols(ts[..|ts| - 1]) + {ts[|ts| - 1].symbol}
  }

  /** Repeated occurrences of an element are summed, and the tally holds exactly the symbols
      that occur. */
  lemma {:induction false} TallyCounts(ts: seq<Token>, sym: string)
    ensures Lookup(Tally(ts), sym) == SumFor(ts, sym)
    ensures Symbols(Tally(ts)) == TokenSymbols(ts)
  {
    if |ts| > 0 {
      TallyCounts(ts[..|ts| - 1], sym);
    }
  }

  lemma TallySnoc(ts: seq<Token>, t: Token)
    ensures Tally(ts + [t]) == AddTo(Tally(ts), t.symbol, t.count)
  {
    assert (ts + [t])[..|ts|] == ts;
  }

  lemma MatchStep(s: string, i: nat, done: seq<Token>)
    requires Exec(s, i).Some? && done + Tokens(s, i) == Tokens(s, 0)
    ensures var m := Exec(s, i).value;
      done + [m.token] + Tokens(s, m.next) == Tokens(s, 0)
  {
  }

  /** `parseFormula`: null for the empty string; otherwise the tally of all matches, in which
      each element's count is the sum over its matches. */
  method ParseFormula(s: string) returns (r: Option<seq<Entry>>)
    ensures r.None? <==> s == ""
    ensures r.Some? ==> r.value == Tally(Tokens(s, 0)) && UniqueSymbols(r.value)
    ensures r.Some? ==> forall sym :: Lookup(r.value, sym) == SumFor(Tokens(s, 0), sym)
    ensures r.Some? ==> Symbols(r.value) == TokenSymbols(Tokens(s, 0))
  {
    if s == "" {
      return None;
    }
    var out: seq<Entry> := [];
    ghost var done: seq<Token> := [];
    var i := 0;
    var m := Exec(s, i);
    while m.Some?
      invariant m == Exec(s, i)
      invariant done + Tokens(s, i) == Tokens(s, 0)
      invariant out == Tally(done)
      decreases |s| - i
    {
      MatchStep(s, i, done);
      TallySnoc(done, m.value.token);
      out := AddTo(out, m.value.token.symbol, m.value.token.count);
      done := done + [m.value.token];
      i := m.value.next;
      m := Exec(s, i);
    }
    assert Tokens(s, i) == [];
    assert done == Tokens(s, 0);
    forall sym ensures Lookup(out, sym) == SumFor(Tokens(s, 0), sym) {
      TallyCounts(done, sym);
    }
    TallyCounts(done, "");
    return Some(out);
  }

  // ---------------- mean atomic number ----------------

  /** The atomic-number table; 0 stands for an element it does not list. */
  function ZOf(sym: string): (z: nat)
    ensures z == 0 || 1 <= z <= 53
  {
    match sym
    case "H" => 1
    case "C" => 6
    case "N" => 7
    case "O" => 8
    case "F" => 9
    case "S" => 16
    case "Cl" => 17
    case "Br" => 35
    case "I" => 53
    case _ => 0
  }

  /** What an entry adds to Σ n: its count when the table lists its element. */
  function Weight(e: Entry): nat
  {
    if ZOf(e.symbol) > 0 then e.n else 0
  }

  /** Σ Z·n and Σ n over the tabulated elements of a tally. */
  function ZSum(tab: seq<Entry>): nat
  {
    if |tab| == 0 then 0 else ZSum(tab[..|tab| - 1]) + ZOf(tab[|tab| - 1].symbol) * tab[|tab| - 1].n
  }

  function ZCount(tab: seq<Entry>): nat
  {
    if |tab| == 0 then 0 else ZCount(tab[..|tab| - 1]) + Weight(tab[|tab| - 1])
  }

  /** When every tabulated element with a non-zero count has Z in [lo, hi], the Z-weighted sum
      lies between lo and hi times the count. */
  lemma {:induction false} ZSumBounds(tab: seq<Entry>, lo: nat, hi: nat)
    requires forall i :: 0 <= i < |tab| && ZOf(tab[i].symbol) > 0 && tab[i].n > 0 ==> lo <= ZOf(tab[i].symbol) <= hi
    ensures lo * ZCount(tab) <= ZSum(tab) <= hi * ZCount(tab)
  {
    if |tab| > 0 {
      var front, e := tab[..|tab| - 1], tab[|tab| - 1];
      assert forall i :: 0 <= i < |front| ==> front[i] == tab[i];
      ZSumBounds(front, lo, hi);
      EntryBounds(e, lo, hi);
      Distribute(lo, ZCount(front), Weight(e));
      Distribute(hi, ZCount(front), Weight(e));
    }
  }

  lemma EntryBounds(e: Entry, lo: nat, hi: nat)
    requires ZOf(e.symbol) > 0 && e.n > 0 ==> lo <= ZOf(e.symbol) <= hi
    ensures lo * Weight(e) <= ZOf(e.symbol) * e.n <= hi * Weight(e)
  {
    var z := ZOf(e.symbol);
    if z > 0 && e.n > 0 {
      MulMono(lo, z, e.n);
      MulMono(z, hi, e.n);
    } else if z == 0 {
      assert z * e.n == 0;
    } else {
      assert e.n == 0;
    }
  }

  lemma Distribute(a: nat, b: nat, c: nat)
    ensures a * (b + c) == a * b + a * c
  {
  }

  lemma MulMono(a: nat, b: nat, c: nat)
    requires a <= b
    ensures a * c <= b * c
  {
    assert b * c == a * c + (b - a) * c;
  }

  /** `meanZ`: null for a null formula or when no tabulated element occurs; otherwise Σ Z·n / Σ n
      over tabulated elements only, so within [1, 53]. */
  method MeanZ(formula: Option<seq<Entry>>) returns (r: Option<real>)
    ensures r.Some? <==> formula.Some? && ZCount(formula.value) > 0
    ensures r.Some? ==> r.value == ZSum(formula.value) as real / ZCount(formula.value) as real
    ensures r.Some? ==> 1.0 <= r.value <= 53.0
  {
    if formula.None? {
      return None;
    }
    var tab := formula.value;
    var sum, count := 0, 0;
    for i := 0 to |tab|
      invariant sum == ZSum(tab[..i]) && count == ZCount(tab[..i])
    {
      assert tab[..i + 1][..i] == tab[..i];
      var z := ZOf(tab[i].symbol);
      if z > 0 {
        sum := sum + z * tab[i].n;
        count := count + tab[i].n;
      }
    }
    assert tab[..|tab|] == tab;
    if count > 0 {
      ZSumBounds(tab, 1, 53);
      MeanWithin(sum, count, 1, 53);
      return Some(sum as real / count as real);
    }
    return None;
  }

  /** The mean lies between the smallest and the largest tabulated Z present. */
  lemma MeanBetween(tab: seq<Entry>, lo: nat, hi: nat)
    requires ZCount(tab) > 0
    requires forall i :: 0 <= i < |tab| && ZOf(tab[i].symbol) > 0 && tab[i].n > 0 ==> lo <= ZOf(tab[i].symbol) <= hi
    ensures lo as real <= ZSum(tab) as real / ZCount(tab) as real <= hi as real
  {
    ZSumBounds(tab, lo, hi);
    MeanWithin(ZSum(tab), ZCount(tab), lo, hi);
  }

  lemma MeanWithin(sum: nat, count: nat, lo: nat, hi: nat)
    requires count > 0 && lo * count <= sum <= hi * count
    ensures lo as real <= sum as real / count as real <= hi as real
  {
    var q := sum as real / count as real;
    assert q * count as real == sum as real;
    assert (lo * count) as real == lo as real * count as real;
    assert (hi * count) as real == hi as real * count as real;
  }
}
