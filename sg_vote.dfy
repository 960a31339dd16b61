/** The vote with an itemised score breakdown: configurable weights, merged over defaults, scale
    the same feature weights the candidate builder uses, and every seed gets the list of terms
    that make up its score. */
module SgVote {
  import opened Wrappers
  import Numbers
  import opened Features
  import opened SgCandidates

  /** `micro_glide` */
  datatype MicroGlide = MicroGlide(c: real, a: real, n: real, d: real)

  /** The voting weights. */
  datatype Weights = Weights(base: real, center: real, glide: real, screw: real, eStat: real, priorZ: real,
                             temp: real, zprime: real, microGlide: MicroGlide, microScrew21: real)

  /** `DEFAULT_WEIGHTS` */
  const DefaultWeights: Weights :=
    Weights(0.20, 0.80, 1.20, 0.50, 0.20, 1.00, 1.00, 1.00, MicroGlide(0.10, 0.08, 0.06, 0.04), 0.08)

  /** The keys a stored `micro_glide` object may set; a missing key is None. */
  datatype MicroOverride = MicroOverride(c: Option<real>, a: Option<real>, n: Option<real>, d: Option<real>)

  /** The parsed stored object: the numeric keys it sets, and its `micro_glide` when that is an
      object. */
  datatype Override = Override(base: Option<real>, center: Option<real>, glide: Option<real>, screw: Option<real>,
                               eStat: Option<real>, priorZ: Option<real>, temp: Option<real>, zprime: Option<real>,
                               microGlide: Option<MicroOverride>, microScrew21: Option<real>)

  function MergeMicro(d: MicroGlide, o: Option<MicroOverride>): (m: MicroGlide)
  {
    if o.None? then d
    else MicroGlide(o.value.c.GetOr(d.c), o.value.a.GetOr(d.a), o.value.n.GetOr(d.n), o.value.d.GetOr(d.d))
  }

  /** `{ ...DEFAULT_WEIGHTS, ...obj, micro_glide: { ...DEFAULT_WEIGHTS.micro_glide, ...(obj?.micro_glide || {}) } }`,
      with `stored` None when nothing is stored, the stored text is empty, the parse fails or the
      object is null: every set key replaces its default, every other key keeps it, and
      `micro_glide` is merged key by key. */
  function Merge(stored: Option<Override>): (w: Weights)
    ensures stored.None? ==> w == DefaultWeights
    ensures stored.Some? ==>
              var o := stored.value;
              && w.base == o.base.GetOr(DefaultWeights.base)
              && w.center == o.center.GetOr(DefaultWeights.center)
              && w.glide == o.glide.GetOr(DefaultWeights.glide)
              && w.screw == o.screw.GetOr(DefaultWeights.screw)
              && w.eStat == o.eStat.GetOr(DefaultWeights.eStat)
              && w.priorZ == o.priorZ.GetOr(DefaultWeights.priorZ)
              && w.temp == o.temp.GetOr(DefaultWeights.temp)
              && w.zprime == o.zprime.GetOr(DefaultWeights.zprime)
              && w.microScrew21 == o.microScrew21.GetOr(DefaultWeights.microScrew21)
              && w.microGlide.c == (if o.microGlide.Some? then o.microGlide.value.c else None).GetOr(0.10)
              && w.microGlide.a == (if o.microGlide.Some? then o.microGlide.value.a else None).GetOr(0.08)
              && w.microGlide.n == (if o.microGlide.Some? then o.microGlide.value.n else None).GetOr(0.06)
              && w.microGlide.d == (if o.microGlide.Some? then o.microGlide.value.d else None).GetOr(0.04)
  {
    if stored.None? then DefaultWeights
    else
      var o := stored.value;
      var d := DefaultWeights;
      Weights(o.base.GetOr(d.base), o.center.GetOr(d.center), o.glide.GetOr(d.glide), o.screw.GetOr(d.screw),
              o.eStat.GetOr(d.eStat), o.priorZ.GetOr(d.priorZ), o.temp.GetOr(d.temp), o.zprime.GetOr(d.zprime),
              MergeMicro(d.microGlide, o.microGlide), o.microScrew21.GetOr(d.microScrew21))
  }

  /** An object that sets every key. */
  function Full(w: Weights): Override
  {
    Override(Some(w.base), Some(w.center), Some(w.glide), Some(w.screw), Some(w.eStat), Some(w.priorZ),
             Some(w.temp), Some(w.zprime),
             Some(MicroOverride(Some(w.microGlide.c), Some(w.microGlide.a), Some(w.microGlide.n), Some(w.microGlide.d))),
             Some(w.microScrew21))
  }

  const Empty: Override := Override(None, None, None, None, None, None, None, None, None, None)

  /** Storing a complete weight object gives it back; storing `{}` gives the defaults; and a
      `micro_glide` that sets one key keeps the other three defaults. */
  lemma MergeRoundTrip(w: Weights, c: real)
    ensures Merge(Some(Full(w))) == w
    ensures Merge(Some(Empty)) == DefaultWeights
    ensures Merge(Some(Empty.(microGlide := Some(MicroOverride(Some(c), None, None, None))))).microGlide
              == MicroGlide(c, 0.08, 0.06, 0.04)
  {
  }

  /** `temperatureWeight` of this module: a NaN guard in front of the same ladder. */
  function VoteTemperatureWeight(t: Option<JsNumber>): (w: real)
    ensures t.None? || t == Some(NaN) ==> w == 0.0
    ensures t.Some? && t.value.Finite? ==>
              w == (if t.value.v <= 120.0 then 0.05 else if t.value.v <= 200.0 then 0.03 else 0.0)
  {
    if t.None? || t.value.NaN? then 0.0
    else if Le(t.value, 120.0) then 0.05
    else if Le(t.value, 200.0) then 0.03
    else 0.0
  }

  /** `zprimeWeight` of this module: a NaN guard in front of the same ladder. */
  function VoteZprimeWeight(zp: Option<JsNumber>): (w: real)
    ensures zp.None? || zp == Some(NaN) ==> w == 0.0
    ensures zp.Some? && zp.value.Finite? ==>
              w == (if zp.value.v >= 3.0 then 0.10 else if zp.value.v >= 2.0 then 0.05 else 0.0)
  {
    if zp.None? || zp.value.NaN? then 0.0
    else if Ge(zp.value, 3.0) then 0.10
    else if Ge(zp.value, 2.0) then 0.05
    else 0.0
  }

  /** The NaN guard changes nothing: NaN already fails every comparison, so both prior weights
      agree with the candidate builder's on every input. */
  lemma PriorWeightsAgree(t: Option<JsNumber>)
    ensures VoteTemperatureWeight(t) == TemperatureWeight(t)
    ensures VoteZprimeWeight(t) == ZprimeWeight(t)
  {
  }

  /** `{ key, value }` */
  datatype Key = BaseKey | CenteringKey | GlideKey | Screw21Key | EStatsKey | PriorZKey | TempKey | ZprimeKey
  datatype Entry = Entry(key: Key, value: real)

  /** `features`: `priors` defaults to `{}`. */
  datatype VoteFeatures = VoteFeatures(ext: Option<Ext>, eHist: Option<EHistView>, screw: Option<ScrewView>,
                                       glide: Option<GlideView>, priors: Priors)

  /** `wE`: the E-statistics weight when the centric call is made. */
  function EWeight(f: VoteFeatures, weights: Weights): real
  {
    if IsCentricByE(f.eHist).Some? then weights.eStat else 0.0
  }

  /** `{ name, breakdown, centricFlag }`; `total` is not modelled. */
  datatype Vote = Vote(name: string, breakdown: seq<Entry>, centricFlag: Option<bool>)

  /** The breakdown list pushed for one seed. The glide and screw micro-bonus statements and the
      formula prior have no right-hand side, so the glide and screw entries are the scaled
      weights, `wFormula` stays 0 and no "priorZ" entry is pushed: the list does not depend on
      the seed's name. */
  function Breakdown(f: VoteFeatures, weights: Weights): seq<Entry>
  {
    var wTemp := VoteTemperatureWeight(f.priors.temperature);
    var wZp := VoteZprimeWeight(f.priors.zprime);
    [Entry(BaseKey, weights.base),
     Entry(CenteringKey, Numbers.Times(weights.center, CenteringWeight(f.ext))),
     Entry(GlideKey, Numbers.Times(weights.glide, GlideWeight(f.glide))),
     Entry(Screw21Key, Numbers.Times(weights.screw, ScrewWeight(f.screw)))]
    + (if EWeight(f, weights) > 0.0 then [Entry(EStatsKey, EWeight(f, weights))] else [])
    + (if wTemp != 0.0 then [Entry(TempKey, Numbers.Times(weights.temp, wTemp))] else [])
    + (if wZp != 0.0 then [Entry(ZprimeKey, Numbers.Times(weights.zprime, wZp))] else [])
  }

  /** The keys of a breakdown, in order. */
  function Keys(b: seq<Entry>): (ks: seq<Key>)
    ensures |ks| == |b| && forall i :: 0 <= i < |b| ==> ks[i] == b[i].key
  {
    seq(|b|, i requires 0 <= i < |b| => b[i].key)
  }

  predicate HasKey(b: seq<Entry>, k: Key)
  {
    k in Keys(b)
  }

  /** The key sequence for the three optional entries. */
  function KeysFor(e: bool, t: bool, z: bool): seq<Key>
  {
    [BaseKey, CenteringKey, GlideKey, Screw21Key]
    + (if e then [EStatsKey] else []) + (if t then [TempKey] else []) + (if z then [ZprimeKey] else [])
  }

  /** None of the eight key sequences repeats a key or holds "priorZ". */
  lemma KeysForFacts(e: bool, t: bool, z: bool)
    ensures var ks := KeysFor(e, t, z);
      && (EStatsKey in ks <==> e) && (TempKey in ks <==> t) && (ZprimeKey in ks <==> z) && PriorZKey !in ks
      && forall i, j :: 0 <= i < j < |ks| ==> ks[i] != ks[j]
  {
    var head := [BaseKey, CenteringKey, GlideKey, Screw21Key];
    var tail := (if e then [EStatsKey] else []) + (if t then [TempKey] else []) + (if z then [ZprimeKey] else []);
    assert KeysFor(e, t, z) == head + tail;
    TailFacts(e, t, z, tail);
    DistinctJoin(head, tail);
    JoinMembers(head, tail);
  }

  lemma TailFacts(e: bool, t: bool, z: bool, tail: seq<Key>)
    requires tail == (if e then [EStatsKey] else []) + (if t then [TempKey] else []) + (if z then [ZprimeKey] else [])
    ensures forall k :: k in tail ==> k in [EStatsKey, TempKey, ZprimeKey]
    ensures (EStatsKey in tail <==> e) && (TempKey in tail <==> t) && (ZprimeKey in tail <==> z)
    ensures forall i, j :: 0 <= i < j < |tail| ==> tail[i] != tail[j]
  {
  }

  lemma JoinMembers(head: seq<Key>, tail: seq<Key>)
    requires head == [BaseKey, CenteringKey, GlideKey, Screw21Key]
    requires forall k :: k in tail ==> k in [EStatsKey, TempKey, ZprimeKey]
    ensures EStatsKey in head + tail <==> EStatsKey in tail
    ensures TempKey in head + tail <==> TempKey in tail
    ensures ZprimeKey in head + tail <==> ZprimeKey in tail
    ensures PriorZKey !in head + tail
  {
  }

  lemma DistinctJoin(head: seq<Key>, tail: seq<Key>)
    requires head == [BaseKey, CenteringKey, GlideKey, Screw21Key]
    requires forall k :: k in tail ==> k in [EStatsKey, TempKey, ZprimeKey]
    requires forall i, j :: 0 <= i < j < |tail| ==> tail[i] != tail[j]
    ensures forall i, j :: 0 <= i < j < |head + tail| ==> (head + tail)[i] != (head + tail)[j]
  {
    var ks := head + tail;
    forall i, j | 0 <= i < j < |ks| ensures ks[i] != ks[j] {
      if j >= 4 {
        assert ks[j] == tail[j - 4] && tail[j - 4] in tail;
        if i >= 4 {
          assert ks[i] == tail[i - 4];
        }
      }
    }
  }

  /** The breakdown starts with base, centering, glide and screw21; has an "Estats" entry iff the
      centric call is made and `eStat` is positive; a "temp" or "zprime" entry iff that prior's
      weight is non-zero; never a "priorZ" entry; and no key twice. */
  lemma BreakdownShape(f: VoteFeatures, weights: Weights)
    ensures var b := Breakdown(f, weights);
      && 4 <= |b| <= 7
      && b[0] == Entry(BaseKey, weights.base)
      && b[1] == Entry(CenteringKey, Numbers.Times(weights.center, CenteringWeight(f.ext)))
      && b[2].key == GlideKey && b[3].key == Screw21Key
      && (HasKey(b, EStatsKey) <==> IsCentricByE(f.eHist).Some? && weights.eStat > 0.0)
      && (HasKey(b, TempKey) <==> VoteTemperatureWeight(f.priors.temperature) != 0.0)
      && (HasKey(b, ZprimeKey) <==> VoteZprimeWeight(f.priors.zprime) != 0.0)
      && !HasKey(b, PriorZKey)
      && (forall i, j :: 0 <= i < j < |b| ==> b[i].key != b[j].key)
  {
    var b := Breakdown(f, weights);
    var e := EWeight(f, weights) > 0.0;
    var t := VoteTemperatureWeight(f.priors.temperature) != 0.0;
    var z := VoteZprimeWeight(f.priors.zprime) != 0.0;
    assert Keys(b) == KeysFor(e, t, z);
    KeysForFacts(e, t, z);
  }

  /** With the default weights the breakdown holds, term by term, the evidence part of the
      candidate builder's score (0.2, 0.8·wCenter, 1.2·wGlide, 0.5·wScrew, 0.2 when the centric
      call is made) and the two prior weights. */
  lemma DefaultBreakdownTerms(f: VoteFeatures)
    ensures var b := Breakdown(f, DefaultWeights);
      var w := WeightingOf(f.ext, f.eHist, f.screw, f.glide);
      && b[0].value == 0.2 && b[1].value == 0.8 * w.center && b[2].value == 1.2 * w.glide
      && b[3].value == 0.5 * w.screw
      && (w.e > 0.0 <==> HasKey(b, EStatsKey))
      && (w.e > 0.0 ==> b[4] == Entry(EStatsKey, w.e))
      && (HasKey(b, TempKey) <==> TemperatureWeight(f.priors.temperature) > 0.0)
      && (HasKey(b, ZprimeKey) <==> ZprimeWeight(f.priors.zprime) > 0.0)
  {
    BreakdownShape(f, DefaultWeights);
    PriorWeightsAgree(f.priors.temperature);
    PriorWeightsAgree(f.priors.zprime);
  }

  /** `buildVotesForSeeds`: one vote per seed, in seed order, all with the same breakdown and the
      same centric flag. */
  method BuildVotesForSeeds(seeds: seq<string>, f: VoteFeatures, weights: Weights) returns (out: seq<Vote>)
    ensures |out| == |seeds|
    ensures forall i :: 0 <= i < |seeds| ==>
              out[i] == Vote(seeds[i], Breakdown(f, weights), IsCentricByE(f.eHist))
  {
    var centricFlag := IsCentricByE(f.eHist);
    var wCenter := CenteringWeight(f.ext);
    var wGlide := GlideWeight(f.glide);
    var wScrew := ScrewWeight(f.screw);
    var wE := if centricFlag.Some? then weights.eStat else 0.0;
    var wTemp := VoteTemperatureWeight(f.priors.temperature);
    var wZp := VoteZprimeWeight(f.priors.zprime);
    ghost var b := Breakdown(f, weights);
    out := [];
    for i := 0 to |seeds|
      invariant |out| == i
      invariant forall j :: 0 <= j < i ==> out[j] == Vote(seeds[j], b, centricFlag)
    {
      var breakdown := PushEntries(weights, wCenter, wGlide, wScrew, wE, wTemp, wZp);
      assert breakdown == b;
      out := out + [Vote(seeds[i], breakdown, centricFlag)];
    }
  }

  /** The pushes of one loop pass, from the weights computed before the loop. */
  method PushEntries(weights: Weights, wCenter: real, wGlide: real, wScrew: real, wE: real, wTemp: real, wZp: real)
    returns (breakdown: seq<Entry>)
    ensures breakdown ==
              [Entry(BaseKey, weights.base),
               Entry(CenteringKey, Numbers.Times(weights.center, wCenter)),
               Entry(GlideKey, Numbers.Times(weights.glide, wGlide)),
               Entry(Screw21Key, Numbers.Times(weights.screw, wScrew))]
              + (if wE > 0.0 then [Entry(EStatsKey, wE)] else [])
              + (if wTemp != 0.0 then [Entry(TempKey, Numbers.Times(weights.temp, wTemp))] else [])
              + (if wZp != 0.0 then [Entry(ZprimeKey, Numbers.Times(weights.zprime, wZp))] else [])
  {
    breakdown := [];
    breakdown := breakdown + [Entry(BaseKey, weights.base)];
    breakdown := breakdown + [Entry(CenteringKey, Numbers.Times(weights.center, wCenter))];
    breakdown := breakdown + [Entry(GlideKey, Numbers.Times(weights.glide, wGlide))];
    breakdown := breakdown + [Entry(Screw21Key, Numbers.Times(weights.screw, wScrew))];
    if wE > 0.0 {
      breakdown := breakdown + [Entry(EStatsKey, wE)];
    }
    if wTemp != 0.0 {
      breakdown := breakdown + [Entry(TempKey, Numbers.Times(weights.temp, wTemp))];
    }
    if wZp != 0.0 {
      breakdown := breakdown + [Entry(ZprimeKey, Numbers.Times(weights.zprime, wZp))];
    }
  }
}
