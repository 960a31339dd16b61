/** The stable `Array.prototype.sort` of JavaScript with a numeric comparator `key(a) - key(b)`,
    as an insertion sort on sequences. */
module Sorting {

  ghost predicate SortedBy<T>(s: seq<T>, key: T -> real)
  {
    forall i, j :: 0 <= i < j < |s| ==> key(s[i]) <= key(s[j])
  }

  /** Puts `x` in front of the first element whose key is not smaller, so that `x` stays ahead
      of every element with an equal key. */
  function Insert<T>(x: T, s: seq<T>, key: T -> real): (r: seq<T>)
    ensures |r| == |s| + 1
  {
    if |s| == 0 || key(x) <= key(s[0]) then [x] + s
    else [s[0]] + Insert(x, s[1..], key)
  }

  /** Inserting adds `x` to the elements and keeps a sorted sequence sorted. */
  lemma {:induction false} InsertFacts<T>(x: T, s: seq<T>, key: T -> real)
    ensures var r := Insert(x, s, key);
      && multiset(r) == multiset(s) + multiset{x}
      && (forall y :: y in r ==> y == x || y in s)
      && (SortedBy(s, key) ==> SortedBy(r, key))
    decreases |s|
  {
    if |s| == 0 || key(x) <= key(s[0]) {
      if SortedBy(s, key) {
        forall y | y in s ensures key(x) <= key(y) {
          var k :| 0 <= k < |s| && s[k] == y;
          assert key(s[0]) <= key(s[k]) || k == 0;
        }
        ConsSorted(x, s, key);
      }
    } else {
      var rest := Insert(x, s[1..], key);
      InsertFacts(x, s[1..], key);
      assert s == [s[0]] + s[1..];
      if SortedBy(s, key) {
        forall y | y in rest ensures key(s[0]) <= key(y) {
          if y != x {
            var k :| 0 <= k < |s[1..]| && s[1..][k] == y;
            assert s[k + 1] == y;
          }
        }
        ConsSorted(s[0], rest, key);
      }
    }
  }

  lemma ConsSorted<T>(h: T, t: seq<T>, key: T -> real)
    requires SortedBy(t, key) && forall y :: y in t ==> key(h) <= key(y)
    ensures SortedBy([h] + t, key)
  {
    var r := [h] + t;
    forall i, j | 0 <= i < j < |r| ensures key(r[i]) <= key(r[j]) {
      assert r[j] == t[j - 1] && t[j - 1] in t;
      if i > 0 {
        assert r[i] == t[i - 1];
      }
    }
  }

  /** The elements of `s` ordered by key; elements with equal keys keep their relative order. */
  function SortBy<T>(s: seq<T>, key: T -> real): (r: seq<T>)
    ensures |r| == |s|
  {
    if |s| == 0 then [] else Insert(s[0], SortBy(s[1..], key), key)
  }

  /** The sort returns a permutation of its input in key order. */
  lemma {:induction false} SortByFacts<T>(s: seq<T>, key: T -> real)
    ensures multiset(SortBy(s, key)) == multiset(s)
    ensures SortedBy(SortBy(s, key), key)
  {
    if |s| > 0 {
      SortByFacts(s[1..], key);
      InsertFacts(s[0], SortBy(s[1..], key), key);
      assert s == [s[0]] + s[1..];
    }
  }

  /** The sorted sequence holds exactly the input's elements. */
  lemma SortByMembers<T>(s: seq<T>, key: T -> real)
    ensures forall x :: x in SortBy(s, key) <==> x in s
  {
    SortByFacts(s, key);
    forall x ensures x in SortBy(s, key) <==> x in s {
      assert x in SortBy(s, key) <==> x in multiset(SortBy(s, key));
      assert x in s <==> x in multiset(s);
    }
  }

  /** After sorting, the first element has the smallest key. */
  lemma FirstIsMinimum<T>(s: seq<T>, key: T -> real)
    requires |s| > 0
    ensures forall x :: x in s ==> key(SortBy(s, key)[0]) <= key(x)
  {
    var r := SortBy(s, key);
    SortByFacts(s, key);
    forall x | x in s ensures key(r[0]) <= key(x) {
      assert x in multiset(r);
      var j :| 0 <= j < |r| && r[j] == x;
    }
  }

  /** `a` goes before `b`: a smaller key, or an equal key and a smaller rank. */
  ghost predicate LexLess<T>(a: T, b: T, key: T -> real, rank: T -> int)
  {
    key(a) < key(b) || (key(a) == key(b) && rank(a) < rank(b))
  }

  /** Ordered by key, and by `rank` among equal keys. */
  ghost predicate LexSortedBy<T>(s: seq<T>, key: T -> real, rank: T -> int)
  {
    forall i, j :: 0 <= i < j < |s| ==> LexLess(s[i], s[j], key, rank)
  }

  lemma {:induction false} InsertStable<T>(x: T, s: seq<T>, key: T -> real, rank: T -> int)
    requires LexSortedBy(s, key, rank)
    requires forall y :: y in s ==> rank(x) < rank(y)
    ensures LexSortedBy(Insert(x, s, key), key, rank)
    decreases |s|
  {
    if |s| == 0 || key(x) <= key(s[0]) {
      forall y | y in s ensures LexLess(x, y, key, rank) {
        var k :| 0 <= k < |s| && s[k] == y;
        assert k == 0 || LexLess(s[0], s[k], key, rank);
      }
      ConsLexSorted(x, s, key, rank);
    } else {
      assert forall y :: y in s[1..] ==> y in s;
      InsertStable(x, s[1..], key, rank);
      InsertFacts(x, s[1..], key);
      var rest := Insert(x, s[1..], key);
      forall y | y in rest ensures LexLess(s[0], y, key, rank) {
        if y != x {
          var k :| 0 <= k < |s[1..]| && s[1..][k] == y;
          assert s[k + 1] == y;
        }
      }
      ConsLexSorted(s[0], rest, key, rank);
    }
  }

  lemma ConsLexSorted<T>(h: T, t: seq<T>, key: T -> real, rank: T -> int)
    requires LexSortedBy(t, key, rank) && forall y :: y in t ==> LexLess(h, y, key, rank)
    ensures LexSortedBy([h] + t, key, rank)
  {
    var r := [h] + t;
    forall i, j | 0 <= i < j < |r| ensures LexLess(r[i], r[j], key, rank) {
      assert r[j] == t[j - 1] && t[j - 1] in t;
      if i > 0 {
        assert r[i] == t[i - 1];
      }
    }
  }

  /** The sort is stable: when the ranks increase along the input, the output is ordered by key
      and, among equal keys, by rank, that is by input position. */
  lemma {:induction false} SortStable<T>(s: seq<T>, key: T -> real, rank: T -> int)
    requires forall i, j :: 0 <= i < j < |s| ==> rank(s[i]) < rank(s[j])
    ensures LexSortedBy(SortBy(s, key), key, rank)
  {
    if |s| > 0 {
      var t := s[1..];
      assert forall i, j :: 0 <= i < j < |t| ==> rank(t[i]) < rank(t[j]) by {
        forall i, j | 0 <= i < j < |t| ensures rank(t[i]) < rank(t[j]) {
          assert t[i] == s[i + 1] && t[j] == s[j + 1];
        }
      }
      SortStable(t, key, rank);
      SortByFacts(t, key);
      var r := SortBy(t, key);
      forall y | y in r ensures rank(s[0]) < rank(y) {
        assert y in multiset(r);
        assert y in multiset(t);
        var k :| 0 <= k < |t| && t[k] == y;
        assert s[k + 1] == y;
      }
      assert s == [s[0]] + t;
      InsertStable(s[0], r, key, rank);
    }
  }
}
