/** The reflection subsets the screw and glide tests look at, and the presence flag each
    selected reflection carries. */
module Zones {
  import opened Hkl

  /** `!!presentMask[i]`: an entry past the end of the mask is `undefined`, hence absent. */
  function Present(mask: seq<bool>, i: nat): (b: bool)
    ensures b <==> i < |mask| && mask[i]
  {
    if i < |mask| then mask[i] else false
  }

  /** The 0k0 axis (h = 0 and l = 0) for the 2₁ screw along b; the h0l plane (k = 0) for the
      glides perpendicular to b. */
  datatype Zone = Axis0k0 | Planeh0l

  predicate InZone(z: Zone, r: Reflection)
  {
    match z
    case Axis0k0 => r.h == 0 && r.l == 0
    case Planeh0l => r.k == 0
  }

  /** The indices, in input order, of the reflections in the zone. */
  function Indices(refls: seq<Reflection>, z: Zone): (ix: seq<nat>)
    ensures forall j :: 0 <= j < |ix| ==> ix[j] < |refls|
  {
    if |refls| == 0 then []
    else
      var i := |refls| - 1;
      Indices(refls[..i], z) + (if InZone(z, refls[i]) then [i] else [])
  }

  /** `Indices` lists exactly the zone's reflections, each once, in increasing order. */
  lemma IndicesExactly(refls: seq<Reflection>, z: Zone)
    ensures var ix := Indices(refls, z);
      && (forall j :: 0 <= j < |ix| ==> ix[j] < |refls| && InZone(z, refls[ix[j]]))
      && (forall i :: 0 <= i < |refls| && InZone(z, refls[i]) ==> i in ix)
      && (forall j, j' :: 0 <= j < j' < |ix| ==> ix[j] < ix[j'])
  {
    IndicesInZone(refls, z);
    IndicesComplete(refls, z);
    IndicesIncreasing(refls, z);
  }

  lemma {:induction false} IndicesInZone(refls: seq<Reflection>, z: Zone)
    ensures forall j :: 0 <= j < |Indices(refls, z)| ==> InZone(z, refls[Indices(refls, z)[j]])
  {
    if |refls| > 0 {
      var i := |refls| - 1;
      var front := refls[..i];
      IndicesInZone(front, z);
      var ix, fx := Indices(refls, z), Indices(front, z);
      var tail := if InZone(z, refls[i]) then [i] else [];
      assert ix == fx + tail;
      forall j | 0 <= j < |ix|
        ensures InZone(z, refls[ix[j]])
      {
        if j < |fx| {
          assert ix[j] == fx[j] && front[fx[j]] == refls[fx[j]];
        } else {
          assert ix[j] == tail[j - |fx|];
        }
      }
    }
  }

  lemma {:induction false} IndicesComplete(refls: seq<Reflection>, z: Zone)
    ensures forall i :: 0 <= i < |refls| && InZone(z, refls[i]) ==> i in Indices(refls, z)
  {
    if |refls| > 0 {
      var i := |refls| - 1;
      var front := refls[..i];
      IndicesComplete(front, z);
      forall t | 0 <= t < i && InZone(z, refls[t])
        ensures t in Indices(refls, z)
      {
        assert front[t] == refls[t];
      }
    }
  }

  lemma {:induction false} IndicesIncreasing(refls: seq<Reflection>, z: Zone)
    ensures forall j, j' :: 0 <= j < j' < |Indices(refls, z)| ==> Indices(refls, z)[j] < Indices(refls, z)[j']
  {
    if |refls| > 0 {
      var i := |refls| - 1;
      IndicesIncreasing(refls[..i], z);
      var ix, fx := Indices(refls, z), Indices(refls[..i], z);
      assert ix == fx + (if InZone(z, refls[i]) then [i] else []);
      forall j, j' | 0 <= j < j' < |ix|
        ensures ix[j] < ix[j']
      {
        if j' >= |fx| {
          assert ix[j'] == i && ix[j] == fx[j];
        } else {
          assert ix[j] == fx[j] && ix[j'] == fx[j'];
        }
      }
    }
  }
}
