/** Equal-population pseudo-resolution shells: reflections ordered by R = h² + k² + l² (with a
    stable sort) and cut into `nbin` consecutive chunks of ceil(n / nbin) indices. */
module PseudoResolution {
  import opened Numbers
  import opened Sorting
  import opened Hkl

  /** The default number of shells. */
  const DefaultBins: nat := 20

  /** Squared length of the index vector, the stand-in for resolution. */
  function R(h: int, k: int, l: int): int
  {
    h * h + k * k + l * l
  }

  /** `{idx, R}` for one reflection. */
  datatype Item = Item(idx: nat, r: int)

  function Items(refls: seq<Reflection>): (items: seq<Item>)
    ensures |items| == |refls|
    ensures forall i :: 0 <= i < |refls| ==> items[i] == Item(i, R(refls[i].h, refls[i].k, refls[i].l))
  {
    seq(|refls|, i requires 0 <= i < |refls| => Item(i, R(refls[i].h, refls[i].k, refls[i].l)))
  }

  function ItemKey(it: Item): real { it.r as real }
  function ItemRank(it: Item): int { it.idx }

  /** The indices in sorted order: `arr` after `.sort((a, b) => a.R - b.R)`. */
  function Order(refls: seq<Reflection>): (order: seq<nat>)
    ensures |order| == |refls|
  {
    var arr := SortBy(Items(refls), ItemKey);
    seq(|arr|, i requires 0 <= i < |arr| => arr[i].idx)
  }

  /** R of the reflection at index `i`. */
  function RAt(refls: seq<Reflection>, i: nat): int
    requires i < |refls|
  {
    R(refls[i].h, refls[i].k, refls[i].l)
  }

  /** The sorted order is a permutation of 0..n-1, non-decreasing in R, and keeps the input
      order among equal R. */
  lemma OrderFacts(refls: seq<Reflection>)
    ensures var order := Order(refls);
      && (forall a :: 0 <= a < |order| ==> order[a] < |refls|)
      && (forall k :: 0 <= k < |refls| ==> k in order)
      && (forall a, b :: 0 <= a < b < |order| ==>
            RAt(refls, order[a]) < RAt(refls, order[b])
            || (RAt(refls, order[a]) == RAt(refls, order[b]) && order[a] < order[b]))
  {
    var items := Items(refls);
    var arr := SortBy(items, ItemKey);
    var order := Order(refls);
    SortedItems(refls, arr);
    OrderCovers(refls);
    SortStable(items, ItemKey, ItemRank);
    forall a, b | 0 <= a < b < |order|
      ensures RAt(refls, order[a]) < RAt(refls, order[b])
              || (RAt(refls, order[a]) == RAt(refls, order[b]) && order[a] < order[b])
    {
      var x, y := arr[a], arr[b];
      assert LexLess(x, y, ItemKey, ItemRank);
      ItemsApart(x, y);
      assert order[a] == x.idx && order[b] == y.idx;
      assert x.r == RAt(refls, x.idx) && y.r == RAt(refls, y.idx);
    }
  }

  lemma ItemsApart(x: Item, y: Item)
    requires LexLess(x, y, ItemKey, ItemRank)
    ensures x.r < y.r || (x.r == y.r && x.idx < y.idx)
  {
  }

  /** Every sorted item is one of the input's `{idx, R}` pairs. */
  lemma SortedItems(refls: seq<Reflection>, arr: seq<Item>)
    requires arr == SortBy(Items(refls), ItemKey)
    ensures forall a :: 0 <= a < |arr| ==> arr[a].idx < |refls| && arr[a].r == RAt(refls, arr[a].idx)
  {
    var items := Items(refls);
    SortByFacts(items, ItemKey);
    forall a | 0 <= a < |arr| ensures arr[a].idx < |refls| && arr[a].r == RAt(refls, arr[a].idx) {
      assert arr[a] in multiset(items);
      var i :| 0 <= i < |items| && items[i] == arr[a];
    }
  }

  lemma OrderCovers(refls: seq<Reflection>)
    ensures forall k :: 0 <= k < |refls| ==> k in Order(refls)
  {
    var items := Items(refls);
    var arr := SortBy(items, ItemKey);
    var order := Order(refls);
    SortByFacts(items, ItemKey);
    forall k | 0 <= k < |refls| ensures k in order {
      assert items[k] in multiset(arr);
      var a :| 0 <= a < |arr| && arr[a] == items[k];
      assert order[a] == k;
    }
  }

  /** `Math.ceil(n / nbin)`; `PerBinIsCeiling` shows it is the least such bound. */
  function PerBin(n: nat, nbin: nat): (p: nat)
    requires nbin > 0
    ensures p * nbin >= n && (n > 0 ==> p >= 1)
  {
    var p := (n + nbin - 1) / nbin;
    CeilFacts(n, nbin, p);
    p
  }

  /** ceil(n / nbin) chunks of nbin cover n, and one fewer would not. */
  lemma PerBinIsCeiling(n: nat, nbin: nat)
    requires nbin > 0
    ensures var p := PerBin(n, nbin); p * nbin >= n && (p == 0 || (p - 1) * nbin < n)
  {
    CeilFacts(n, nbin, PerBin(n, nbin));
  }

  lemma CeilFacts(n: nat, nbin: nat, p: nat)
    requires nbin > 0 && p == (n + nbin - 1) / nbin
    ensures p * nbin >= n && (n > 0 ==> p >= 1)
    ensures p == 0 || (p - 1) * nbin < n
  {
    var r := (n + nbin - 1) % nbin;
    assert n + nbin - 1 == p * nbin + r;
    if p > 0 {
      assert (p - 1) * nbin == p * nbin - nbin;
    }
  }

  /** The start and end positions of chunk `j` once `i` items are placed. */
  function Lo(j: nat, p: nat, i: nat): nat { Min(Start(j, p), i) }
  function Hi(j: nat, p: nat, i: nat): (h: nat)
    ensures Lo(j, p, i) <= h <= i
  {
    assert Start(j + 1, p) == Start(j, p) + p;
    Min(Start(j + 1, p), i)
  }

  /** j·p, accumulated so that the proofs about chunk bounds stay linear. */
  function Start(j: nat, p: nat): nat
  {
    if j == 0 then 0 else Start(j - 1, p) + p
  }

  lemma {:induction false} StartIsProduct(j: nat, p: nat)
    ensures Start(j, p) == j * p
  {
    if j > 0 {
      StartIsProduct(j - 1, p);
      assert j * p == (j - 1) * p + p;
    }
  }

  lemma {:induction false} StartMono(j: nat, j': nat, p: nat)
    requires j <= j'
    ensures Start(j, p) <= Start(j', p)
    decreases j'
  {
    if j < j' {
      StartMono(j, j' - 1, p);
    }
  }

  function Min(a: nat, b: nat): nat { if a < b then a else b }

  /** The shells: chunk `j` holds the sorted positions [j·p, (j+1)·p), cut at n. */
  function Bins(refls: seq<Reflection>, nbin: nat): (bins: seq<seq<nat>>)
    requires nbin > 0 || |refls| == 0
    ensures |bins| == nbin
  {
    Chunks(Order(refls), if nbin == 0 then 0 else PerBin(|refls|, nbin), nbin)
  }

  /** `nbin` consecutive chunks of `p` elements of `order`, the last ones cut short or empty. */
  function Chunks(order: seq<nat>, p: nat, nbin: nat): (bins: seq<seq<nat>>)
    ensures |bins| == nbin
  {
    seq(nbin, j requires 0 <= j < nbin => order[Lo(j, p, |order|)..Hi(j, p, |order|)])
  }

  /** Placing item `i` in chunk `b = floor(i / p)` extends that chunk and leaves the others as
      they are. */
  lemma PlaceStep(j: nat, p: nat, i: nat, b: nat)
    requires p > 0 && b == i / p
    ensures Lo(j, p, i) <= Hi(j, p, i)
    ensures j == b ==> Lo(j, p, i + 1) == Lo(j, p, i) && Hi(j, p, i) == i && Hi(j, p, i + 1) == i + 1
    ensures j < b ==> Lo(j, p, i + 1) == Lo(j, p, i) && Hi(j, p, i + 1) == Hi(j, p, i)
    ensures j > b ==> Lo(j, p, i) == Hi(j, p, i) == i && Lo(j, p, i + 1) == Hi(j, p, i + 1) == i + 1
  {
    StartIsProduct(b, p);
    assert Start(b, p) <= i < Start(b + 1, p);
    if j < b {
      StartMono(j + 1, b, p);
    } else if j > b {
      StartMono(b + 1, j, p);
    }
  }

  /** `floor(i / perBin)` is always below `nbin`, so the clamp `Math.min(b, nbin - 1)` never
      changes the chunk. */
  lemma ClampNeverFires(n: nat, nbin: nat, i: nat)
    requires nbin > 0 && i < n
    ensures i / PerBin(n, nbin) < nbin
  {
    var p := PerBin(n, nbin);
    var b := i / p;
    assert b * p <= i;
    if b >= nbin {
      MulMonoNat(nbin, b, p);
    }
  }

  lemma MulMonoNat(a: nat, b: nat, c: nat)
    requires a <= b
    ensures a * c <= b * c
  {
    assert b * c == a * c + (b - a) * c;
  }

  /** `buildPseudoResolutionBins`. An `nbin` of 0 with reflections to place makes the source
      index `bins[-1]` and fail, so it is excluded. */
  method BuildBins(refls: seq<Reflection>, nbin: nat) returns (bins: seq<seq<nat>>)
    requires nbin > 0 || |refls| == 0
    ensures bins == Bins(refls, nbin)
  {
    var arr := SortBy(Items(refls), ItemKey);
    ghost var order := Order(refls);
    bins := seq(nbin, _ => []);
    if |arr| == 0 {
      PlacedNone(order, bins, 0);
      PlacedAll(order, bins, 0);
      return;
    }
    var perBin := PerBin(|arr|, nbin);
    PlacedNone(order, bins, perBin);
    OrderIsIdx(refls, arr);
    for i := 0 to |arr|
      invariant |bins| == nbin && Placed(order, bins, perBin, i)
    {
      ClampNeverFires(|arr|, nbin, i);
      var next := PlaceItem(bins, arr[i].idx, i, perBin);
      PlaceCorrect(order, bins, next, perBin, i, i / perBin);
      bins := next;
    }
    PlacedAll(order, bins, perBin);
  }

  lemma OrderIsIdx(refls: seq<Reflection>, arr: seq<Item>)
    requires arr == SortBy(Items(refls), ItemKey)
    ensures |arr| == |Order(refls)| && forall i :: 0 <= i < |arr| ==> arr[i].idx == Order(refls)[i]
  {
  }

  /** One pass of the placing loop: `b = Math.min(Math.floor(i / perBin), nbin - 1)` and
      `bins[b].push(x)`; the clamp never fires. */
  method PlaceItem(bins: seq<seq<nat>>, x: nat, i: nat, perBin: nat) returns (next: seq<seq<nat>>)
    requires perBin > 0 && i / perBin < |bins|
    ensures next == bins[i / perBin := bins[i / perBin] + [x]]
  {
    var nbin := |bins|;
    var b := i / perBin;
    var t := if b < nbin - 1 then b else nbin - 1;
    next := bins[t := bins[t] + [x]];
  }

  lemma PlacedNone(order: seq<nat>, bins: seq<seq<nat>>, p: nat)
    requires forall j :: 0 <= j < |bins| ==> bins[j] == []
    ensures Placed(order, bins, p, 0)
  {
  }

  lemma PlacedAll(order: seq<nat>, bins: seq<seq<nat>>, p: nat)
    requires Placed(order, bins, p, |order|)
    ensures bins == Chunks(order, p, |bins|)
  {
  }

  /** After `i` items, chunk `j` holds the sorted positions [Lo, Hi). */
  predicate Placed(order: seq<nat>, bins: seq<seq<nat>>, p: nat, i: nat)
    requires i <= |order|
  {
    forall j :: 0 <= j < |bins| ==> bins[j] == order[Lo(j, p, i)..Hi(j, p, i)]
  }

  lemma PlaceCorrect(order: seq<nat>, bins: seq<seq<nat>>, next: seq<seq<nat>>, p: nat, i: nat, b: nat)
    requires p > 0 && i < |order| && b == i / p && b < |bins|
    requires Placed(order, bins, p, i)
    requires next == bins[b := bins[b] + [order[i]]]
    ensures Placed(order, next, p, i + 1)
  {
    forall j | 0 <= j < |next|
      ensures next[j] == order[Lo(j, p, i + 1)..Hi(j, p, i + 1)]
    {
      PlaceStep(j, p, i, b);
    }
  }

  function Flatten(bins: seq<seq<nat>>): seq<nat>
  {
    if |bins| == 0 then [] else Flatten(bins[..|bins| - 1]) + bins[|bins| - 1]
  }

  lemma {:induction false} FlattenChunks(order: seq<nat>, p: nat, nbin: nat, m: nat)
    requires m <= nbin
    ensures Flatten(Chunks(order, p, nbin)[..m]) == order[..Min(Start(m, p), |order|)]
  {
    if m > 0 {
      var bins := Chunks(order, p, nbin);
      FlattenChunks(order, p, nbin, m - 1);
      var a, c := Min(Start(m - 1, p), |order|), Min(Start(m, p), |order|);
      FlattenSnoc(bins, m);
      assert bins[m - 1] == order[a..c];
      JoinSlices(order, a, c);
    }
  }

  lemma FlattenSnoc(bins: seq<seq<nat>>, m: nat)
    requires 0 < m <= |bins|
    ensures Flatten(bins[..m]) == Flatten(bins[..m - 1]) + bins[m - 1]
  {
    assert bins[..m][..m - 1] == bins[..m - 1];
  }

  lemma JoinSlices(s: seq<nat>, a: nat, c: nat)
    requires a <= c <= |s|
    ensures s[..a] + s[a..c] == s[..c]
  {
  }

  /** The shells, read in order, list the sorted indices; with the permutation property of
      `Order`, every index 0..n-1 lands in exactly one shell, once. */
  lemma BinsCoverOrder(refls: seq<Reflection>, nbin: nat)
    requires nbin > 0
    ensures Flatten(Bins(refls, nbin)) == Order(refls)
  {
    var order, p := Order(refls), PerBin(|refls|, nbin);
    FlattenChunks(order, p, nbin, nbin);
    StartIsProduct(nbin, p);
    assert Chunks(order, p, nbin)[..nbin] == Chunks(order, p, nbin);
    assert order[..|order|] == order;
  }

  /** No shell holds more than ceil(n / nbin) indices. */
  lemma BinSizes(refls: seq<Reflection>, nbin: nat)
    requires nbin > 0
    ensures forall j :: 0 <= j < nbin ==> |Bins(refls, nbin)[j]| <= PerBin(|refls|, nbin)
  {
    ChunkSizes(Order(refls), PerBin(|refls|, nbin), nbin);
  }

  lemma ChunkSizes(order: seq<nat>, p: nat, nbin: nat)
    ensures forall j :: 0 <= j < nbin ==> |Chunks(order, p, nbin)[j]| <= p
  {
  }

  /** A position in chunk j comes before every position in a later chunk. */
  lemma ChunksApart(order: seq<nat>, p: nat, j: nat, j': nat)
    requires j < j'
    ensures Hi(j, p, |order|) <= Lo(j', p, |order|)
  {
    StartMono(j + 1, j', p);
  }

  /** Every index in shell j has R no larger than every index in a later shell j'. */
  /** Every index of shell `s` has R no larger than every index of shell `t`. */
  predicate ShellBelow(refls: seq<Reflection>, s: seq<nat>, t: seq<nat>)
  {
    forall a, b :: 0 <= a < |s| && 0 <= b < |t| ==>
      s[a] < |refls| && t[b] < |refls| && RAt(refls, s[a]) <= RAt(refls, t[b])
  }

  predicate OrderedAcross(refls: seq<Reflection>, bins: seq<seq<nat>>)
  {
    forall j, j' :: 0 <= j < j' < |bins| ==> ShellBelow(refls, bins[j], bins[j'])
  }

  lemma BinsOrderedAcross(refls: seq<Reflection>, nbin: nat)
    requires nbin > 0
    ensures OrderedAcross(refls, Bins(refls, nbin))
  {
    var bins := Bins(refls, nbin);
    var p := PerBin(|refls|, nbin);
    assert bins == Chunks(Order(refls), p, nbin);
    forall j, j' | 0 <= j < j' < nbin ensures ShellBelow(refls, bins[j], bins[j']) {
      forall a, b | 0 <= a < |bins[j]| && 0 <= b < |bins[j']|
        ensures bins[j][a] < |refls| && bins[j'][b] < |refls| && RAt(refls, bins[j][a]) <= RAt(refls, bins[j'][b])
      {
        PairOrdered(refls, bins, p, j, j', a, b);
      }
    }
  }

  lemma PairOrdered(refls: seq<Reflection>, bins: seq<seq<nat>>, p: nat, j: nat, j': nat, a: nat, b: nat)
    requires j < j' < |bins| && bins == Chunks(Order(refls), p, |bins|)
    requires a < |bins[j]| && b < |bins[j']|
    ensures bins[j][a] < |refls| && bins[j'][b] < |refls| && RAt(refls, bins[j][a]) <= RAt(refls, bins[j'][b])
  {
    var order := Order(refls);
    var n := |refls|;
    OrderFacts(refls);
    ChunksApart(order, p, j, j');
    var x, y := Lo(j, p, n) + a, Lo(j', p, n) + b;
    assert bins[j][a] == order[x];
    assert bins[j'][b] == order[y];
    assert x < y;
  }

  /** Within a shell, R does not decrease and equal R keeps the input order. */
  lemma BinsOrderedWithin(refls: seq<Reflection>, nbin: nat)
    requires nbin > 0
    ensures var bins := Bins(refls, nbin);
      forall j, a, b :: 0 <= j < nbin && 0 <= a < b < |bins[j]| ==>
        bins[j][a] < |refls| && bins[j][b] < |refls|
        && (RAt(refls, bins[j][a]) < RAt(refls, bins[j][b])
            || (RAt(refls, bins[j][a]) == RAt(refls, bins[j][b]) && bins[j][a] < bins[j][b]))
  {
    var order := Order(refls);
    var p := PerBin(|refls|, nbin);
    var bins := Chunks(order, p, nbin);
    var n := |refls|;
    OrderFacts(refls);
    forall j, a, b | 0 <= j < nbin && 0 <= a < b < |bins[j]|
      ensures bins[j][a] < n && bins[j][b] < n
        && (RAt(refls, bins[j][a]) < RAt(refls, bins[j][b])
            || (RAt(refls, bins[j][a]) == RAt(refls, bins[j][b]) && bins[j][a] < bins[j][b]))
    {
      assert bins[j][a] == order[Lo(j, p, n) + a];
      assert bins[j][b] == order[Lo(j, p, n) + b];
    }
  }

  lemma {:induction false} InFlatten(bins: seq<seq<nat>>, x: nat)
    requires x in Flatten(bins)
    ensures exists j :: 0 <= j < |bins| && x in bins[j]
  {
    var last := |bins| - 1;
    if x !in bins[last] {
      InFlatten(bins[..last], x);
      var j :| 0 <= j < last && x in bins[..last][j];
      assert bins[j] == bins[..last][j];
    }
  }

  predicate InSomeBin(bins: seq<seq<nat>>, k: nat)
  {
    exists j :: 0 <= j < |bins| && k in bins[j]
  }

  /** Every index 0..n-1 is in some shell. */
  lemma BinsCoverIndices(refls: seq<Reflection>, nbin: nat)
    requires nbin > 0
    ensures forall k :: 0 <= k < |refls| ==> InSomeBin(Bins(refls, nbin), k)
  {
    var bins := Bins(refls, nbin);
    OrderFacts(refls);
    BinsCoverOrder(refls, nbin);
    forall k | 0 <= k < |refls| ensures InSomeBin(bins, k) {
      InFlatten(bins, k);
    }
  }

  /** No index is in two shells, and no shell lists an index twice. */
  lemma BinsDisjoint(refls: seq<Reflection>, nbin: nat)
    requires nbin > 0
    ensures var bins := Bins(refls, nbin);
      forall j, j', a, b :: 0 <= j < j' < nbin && 0 <= a < |bins[j]| && 0 <= b < |bins[j']| ==> bins[j][a] != bins[j'][b]
    ensures var bins := Bins(refls, nbin);
      forall j, a, b :: 0 <= j < nbin && 0 <= a < b < |bins[j]| ==> bins[j][a] != bins[j][b]
  {
    var bins := Bins(refls, nbin);
    var order := Order(refls);
    var p := PerBin(|refls|, nbin);
    var n := |refls|;
    OrderFacts(refls);
    forall j, j', a, b | 0 <= j < j' < nbin && 0 <= a < |bins[j]| && 0 <= b < |bins[j']|
      ensures bins[j][a] != bins[j'][b]
    {
      ChunksApart(order, p, j, j');
      assert bins[j][a] == order[Lo(j, p, n) + a];
      assert bins[j'][b] == order[Lo(j', p, n) + b];
    }
    forall j, a, b | 0 <= j < nbin && 0 <= a < b < |bins[j]|
      ensures bins[j][a] != bins[j][b]
    {
      assert bins[j][a] == order[Lo(j, p, n) + a];
      assert bins[j][b] == order[Lo(j, p, n) + b];
    }
  }
}
