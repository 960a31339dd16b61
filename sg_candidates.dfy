/** The space-group candidate list: seeds from a catalogue of common small-molecule groups for
    the detected lattice and centrosymmetry, scored by step weights of the centering, glide and
    screw evidence plus small priors, filtered by a declared crystal system, de-duplicated by name,
    sorted by descending score and cut to eight. */
module SgCandidates {
  import opened Wrappers
  import Numbers
  import opened Text
  import opened Sorting
  import opened Features

  /** The letters `pickLatticeLetter` keeps as they are. */
  const Letters: seq<string> := ["A", "B", "C", "I", "F", "P"]

  /** `pickLatticeLetter`: a missing or empty `type` counts as "P"; any type starting with R is
      "R"; the six letters are kept; everything else, "P(?)" included, becomes "P". */
  function PickLatticeLetter(best: Option<Best>): (t: string)
    ensures t == "R" <==> best.Some? && StartsWith(best.value.kind, "R")
    ensures t == "R" || t in Letters
    ensures best.Some? && best.value.kind in Letters ==> t == best.value.kind
    ensures t != "R" && t != "P" ==> best.Some? && t == best.value.kind
  {
    var t := if best.Some? && |best.value.kind| > 0 then best.value.kind else "P";
    assert !StartsWith("P", "R") by {
      assert "P"[..1][0] == 'P';
    }
    if StartsWith(t, "R") then "R" else if t in Letters then t else "P"
  }

  /** The undetermined centering "P(?)" seeds the primitive catalogue. */
  lemma UndeterminedIsPrimitive(ratio: Option<real>)
    ensures PickLatticeLetter(Some(Best("P(?)", ratio))) == "P"
  {
  }

  /** `isCentricByE`: unknown (null) when the mean is missing or within 0.02 of equidistant from
      0.736 and 0.968; otherwise centric iff nearer 0.968. NaN and the infinities compare false
      everywhere and come out acentric. */
  function IsCentricByE(e: Option<EHistView>): (c: Option<bool>)
    ensures e.None? || e.value.meanE2m1.None? ==> c.None?
  {
    if e.None? || e.value.meanE2m1.None? then None
    else
      match e.value.meanE2m1.value
      case Finite(m) =>
        var dA := Numbers.Abs(m - 0.736);
        var dC := Numbers.Abs(m - 0.968);
        if Numbers.Abs(dA - dC) < 0.02 then None else Some(dC < dA)
      case NaN => Some(false)
      case Infinity(_) => Some(false)
  }

  /** For a finite mean the call is a threshold with a dead band: acentric up to 0.842, unknown
      strictly between 0.842 and 0.862, centric from 0.862. */
  lemma CentricByECut(m: real, likely: Option<string>)
    ensures var c := IsCentricByE(Some(EHistView(Some(Finite(m)), likely)));
      && (c.None? <==> 0.842 < m < 0.862)
      && (c == Some(true) <==> m >= 0.862)
      && (c == Some(false) <==> m <= 0.842)
  {
  }

  /** One `COMMON_SG` entry. */
  datatype Pool = Pool(centric: seq<string>, acentric: seq<string>)

  const PrimitivePool: Pool := Pool(["P-1", "P2_1/c", "Pbca", "Pnma"], ["P2_1", "P2_12_12_1", "Pna2_1", "Pca2_1"])

  /** `COMMON_SG[lattice]`: catalogues for P, C, I, F and R only. */
  function CommonSg(letter: string): Option<Pool>
  {
    if letter == "P" then Some(PrimitivePool)
    else if letter == "C" then Some(Pool(["C2/c", "Ccca"], ["Cc", "C2"]))
    else if letter == "I" then Some(Pool(["Imma", "Ibam"], ["I2", "Iba2"]))
    else if letter == "F" then Some(Pool(["Fm-3m", "Fd-3m"], ["Fdd2", "F222"]))
    else if letter == "R" then Some(Pool(["R-3c", "R-3"], ["R3c", "R3"]))
    else None
  }

  /** `COMMON_SG[lattice] || COMMON_SG.P` */
  function PoolFor(letter: string): Pool
  {
    CommonSg(letter).GetOr(PrimitivePool)
  }

  /** A and B centering have no catalogue of their own and fall back to the primitive one; this
      follows by unfolding the catalogue lookup. */
  lemma SideCenteredFallsBack()
    ensures PoolFor("A") == PoolFor("B") == PoolFor("P")
  {
  }

  /** `SYSTEM_TO_LATTICE[crystalSystem]` */
  function SystemToLattice(cs: string): Option<seq<string>>
  {
    if cs == "triclinic" then Some(["P"])
    else if cs == "monoclinic" then Some(["P", "C"])
    else if cs == "orthorhombic" then Some(["P", "C", "I", "F"])
    else if cs == "tetragonal" then Some(["P", "I"])
    else if cs == "trigonal" then Some(["R"])
    else if cs == "hexagonal" then Some(["P"])
    else if cs == "cubic" then Some(["P", "I", "F"])
    else None
  }

  /** `seeds`: the centric list, the acentric list, or both when the call is unknown. */
  function Seeds(pool: Pool, flag: Option<bool>): seq<string>
  {
    match flag
    case Some(true) => pool.centric
    case Some(false) => pool.acentric
    case None => pool.centric + pool.acentric
  }

  predicate Distinct(s: seq<string>)
  {
    forall i, j :: 0 <= i < j < |s| ==> s[i] != s[j]
  }

  /** No catalogue repeats a name, whichever lists are taken. */
  lemma SeedsDistinct(letter: string, flag: Option<bool>)
    ensures Distinct(Seeds(PoolFor(letter), flag))
  {
    var p := PoolFor(letter);
    var all := p.centric + p.acentric;
    CatalogueDistinct(letter);
    var seeds := Seeds(p, flag);
    forall i, j | 0 <= i < j < |seeds|
      ensures seeds[i] != seeds[j]
    {
      match flag
      case Some(true) =>
        assert all[i] == seeds[i] && all[j] == seeds[j];
      case Some(false) =>
        assert all[|p.centric| + i] == seeds[i] && all[|p.centric| + j] == seeds[j];
      case None =>
        assert all == seeds;
    }
  }

  lemma CatalogueDistinct(letter: string)
    ensures Distinct(PoolFor(letter).centric + PoolFor(letter).acentric)
  {
    if CommonSg(letter).None? {
      PrimitiveDistinct();
    } else if letter == "P" {
      PrimitiveDistinct();
    }
  }

  lemma PrimitiveDistinct()
    ensures Distinct(PrimitivePool.centric + PrimitivePool.acentric)
  {
  }

  // ---------- weights ----------

  /** The centering ratio the weight uses: present when `ext.best` exists, its ratio is a number
      and its type is not "P(?)". */
  function Evidence(ext: Option<Ext>): Option<real>
  {
    if ext.None? || ext.value.best.None? then None
    else
      var best := ext.value.best.value;
      if best.ratio.None? || best.kind == "P(?)" then None else best.ratio
  }

  /** `Math.max(0, (0.8 - Math.min(Math.min(ratio, 1), 0.8)) / 0.8)`: 1 at ratio 0, falling
      linearly to 0 at ratio 0.8 and staying 0 above it. */
  function CenterCurve(ratio: real): (w: real)
    ensures w >= 0.0
    ensures w > 0.0 <==> ratio < 0.8
    ensures ratio >= 0.0 ==> w <= 1.0 && (w == 1.0 <==> ratio == 0.0)
  {
    var r := Numbers.Min(ratio, 1.0);
    Numbers.Max(0.0, (0.8 - Numbers.Min(r, 0.8)) / 0.8)
  }

  /** A larger ratio (weaker forbidden-to-allowed contrast) never weighs more. */
  lemma CenterCurveMonotone(r1: real, r2: real)
    requires r1 <= r2
    ensures CenterCurve(r1) >= CenterCurve(r2)
  {
  }

  /** `centeringWeight` */
  function CenteringWeight(ext: Option<Ext>): (w: real)
    ensures Evidence(ext).None? ==> w == 0.0
    ensures Evidence(ext).Some? ==> w == CenterCurve(Evidence(ext).value)
  {
    match Evidence(ext)
    case None => 0.0
    case Some(ratio) => CenterCurve(ratio)
  }

  /** The glide steps on `ranked[0].forbRate`: 1.0 up to 5 %, 0.6 up to 10 %, 0.3 up to 20 %,
      0 above (and for NaN). */
  function GlideCurve(forb: JsNumber): (w: real)
    ensures w == 1.0 || w == 0.6 || w == 0.3 || w == 0.0
    ensures w == 1.0 <==> Le(forb, 0.05)
    ensures w > 0.0 <==> Le(forb, 0.20)
  {
    if Le(forb, 0.05) then 1.0
    else if Le(forb, 0.10) then 0.6
    else if Le(forb, 0.20) then 0.3
    else 0.0
  }

  /** A higher forbidden rate never weighs more. */
  lemma GlideCurveMonotone(f1: real, f2: real)
    requires f1 <= f2
    ensures GlideCurve(Finite(f1)) >= GlideCurve(Finite(f2))
  {
  }

  /** `glideWeight` */
  function GlideWeight(glide: Option<GlideView>): (w: real)
    ensures glide.None? || glide.value.forbRate0.None? ==> w == 0.0
    ensures glide.Some? && glide.value.forbRate0.Some? ==> w == GlideCurve(glide.value.forbRate0.value)
  {
    if glide.None? || glide.value.forbRate0.None? then 0.0 else GlideCurve(glide.value.forbRate0.value)
  }

  /** The screw steps on `score`: 0.3 from 0.8, 0.15 from 0.5, 0 below (and for NaN). */
  function ScrewCurve(score: JsNumber): (w: real)
    ensures w == 0.3 || w == 0.15 || w == 0.0
    ensures w > 0.0 <==> Ge(score, 0.5)
    ensures w == 0.3 <==> Ge(score, 0.8)
  {
    if Ge(score, 0.8) then 0.3 else if Ge(score, 0.5) then 0.15 else 0.0
  }

  lemma ScrewCurveMonotone(s1: real, s2: real)
    requires s1 <= s2
    ensures ScrewCurve(Finite(s1)) <= ScrewCurve(Finite(s2))
  {
  }

  /** `screwWeight` */
  function ScrewWeight(screw: Option<ScrewView>): (w: real)
    ensures screw.None? || screw.value.score.None? ==> w == 0.0
    ensures screw.Some? && screw.value.score.Some? ==> w == ScrewCurve(screw.value.score.value)
  {
    if screw.None? || screw.value.score.None? then 0.0 else ScrewCurve(screw.value.score.value)
  }

  /** `temperatureWeight`: 0.05 up to 120 K, 0.03 up to 200 K, otherwise (and without a number)
      0. */
  function TemperatureWeight(t: Option<JsNumber>): (w: real)
    ensures w == 0.05 || w == 0.03 || w == 0.0
    ensures w > 0.0 <==> t.Some? && Le(t.value, 200.0)
  {
    if t.None? then 0.0
    else if Le(t.value, 120.0) then 0.05
    else if Le(t.value, 200.0) then 0.03
    else 0.0
  }

  /** `zprimeWeight`: 0.10 from Z′ = 3, 0.05 from Z′ = 2, otherwise 0. */
  function ZprimeWeight(zp: Option<JsNumber>): (w: real)
    ensures w == 0.10 || w == 0.05 || w == 0.0
    ensures w > 0.0 <==> zp.Some? && Ge(zp.value, 2.0)
  {
    if zp.None? then 0.0
    else if Ge(zp.value, 3.0) then 0.10
    else if Ge(zp.value, 2.0) then 0.05
    else 0.0
  }

  /** `wFormula`: +0.2 for a mean atomic number above 20, +0.1 below 10; the two never add up. */
  function FormulaWeight(meanZ: Option<JsNumber>): (w: real)
    ensures w == 0.2 || w == 0.1 || w == 0.0
    ensures w == 0.2 <==> meanZ.Some? && Gt(meanZ.value, 20.0)
    ensures w == 0.1 <==> meanZ.Some? && Lt(meanZ.value, 10.0)
  {
    if meanZ.None? then 0.0
    else (if Gt(meanZ.value, 20.0) then 0.2 else 0.0) + (if Lt(meanZ.value, 10.0) then 0.1 else 0.0)
  }

  /** `wFormula + wTemp + wZp`, added to every surviving row. */
  function PriorShift(p: Priors): real
  {
    FormulaWeight(p.meanZval) + TemperatureWeight(p.temperature) + ZprimeWeight(p.zprime)
  }

  // ---------- name bonuses ----------

  /** `c` is a whole `/`-separated segment of `name` at position i: `/(^|\/)c(\/|$)/`. */
  predicate SegmentAt(name: string, c: char, i: nat)
  {
    i < |name| && name[i] == c && (i == 0 || name[i - 1] == '/') && (i + 1 == |name| || name[i + 1] == '/')
  }

  predicate SegmentFrom(name: string, c: char, i: nat)
    decreases |name| - i
  {
    i < |name| && (SegmentAt(name, c, i) || SegmentFrom(name, c, i + 1))
  }

  /** The regular expression test for a glide letter as a segment of its own. */
  predicate HasSegment(name: string, c: char)
  {
    SegmentFrom(name, c, 0)
  }

  /** The scan from i finds a segment exactly when one starts at i or later. */
  lemma {:induction false} SegmentFromAt(name: string, c: char, i: nat)
    ensures SegmentFrom(name, c, i) <==> exists j: nat :: i <= j && SegmentAt(name, c, j)
    decreases |name| - i
  {
    if i < |name| {
      SegmentFromAt(name, c, i + 1);
      if !SegmentAt(name, c, i) && !SegmentFrom(name, c, i + 1) {
        forall j: nat ensures !(i <= j && SegmentAt(name, c, j)) {
          if j > i {
            assert !(i + 1 <= j && SegmentAt(name, c, j));
          }
        }
      }
    } else {
      forall j: nat ensures !(i <= j && SegmentAt(name, c, j)) {
      }
    }
  }

  /** The bonus for a name given the best glide's name; the glide names differ in their first
      letter, so at most one term applies. */
  function NameBonus(gname: string, name: string): (b: real)
    ensures b == 0.10 || b == 0.08 || b == 0.06 || b == 0.04 || b == 0.0
    ensures b == 0.10 <==> StartsWith(gname, "c-glide") && HasSegment(name, 'c')
  {
    (if StartsWith(gname, "c-glide") && HasSegment(name, 'c') then 0.10 else 0.0)
    + (if StartsWith(gname, "a-glide") && HasSegment(name, 'a') then 0.08 else 0.0)
    + (if StartsWith(gname, "n-glide") && HasSegment(name, 'n') then 0.06 else 0.0)
    + (if StartsWith(gname, "d-glide") && Contains(name, "d") then 0.04 else 0.0)
  }

  /** A single example: a c-glide favours "P2_1/c" but not "Pbca", whose c is inside a segment. */
  lemma CGlideBonusExample()
    ensures NameBonus("c-glide (l=2n)", "P2_1/c") == 0.10
    ensures NameBonus("c-glide (l=2n)", "Pbca") == 0.0
  {
    SegmentFromAt("P2_1/c", 'c', 0);
    assert SegmentAt("P2_1/c", 'c', 5);
    SegmentFromAt("Pbca", 'c', 0);
    forall j: nat ensures !SegmentAt("Pbca", 'c', j) {
    }
  }

  /** The screw marker the code looks for, `/21/`. */
  predicate ScrewMarkAsWritten(name: string)
  {
    Contains(name, "21")
  }

  /** Every name of `COMMON_SG`. */
  const CatalogueNames: seq<string> :=
    ["P-1", "P2_1/c", "Pbca", "Pnma", "P2_1", "P2_12_12_1", "Pna2_1", "Pca2_1", "C2/c", "Ccca", "Cc", "C2",
     "Imma", "Ibam", "I2", "Iba2", "Fm-3m", "Fd-3m", "Fdd2", "F222", "R-3c", "R-3", "R3c", "R3"]

  /** No name in any catalogue contains "21": the catalogue writes a 2₁ axis as "2_1", so the
      screw bonus never fires. */
  lemma ScrewMarkNeverMatches(letter: string, flag: Option<bool>)
    ensures forall name :: name in Seeds(PoolFor(letter), flag) ==> !ScrewMarkAsWritten(name)
  {
    forall k | 0 <= k < |CatalogueNames| ensures !Contains(CatalogueNames[k], "21") {
      NoTwoOne(CatalogueNames[k]);
    }
    forall name | name in Seeds(PoolFor(letter), flag) ensures !ScrewMarkAsWritten(name) {
      assert name in CatalogueNames;
    }
  }

  /** A string with no '2' directly followed by '1' does not contain "21". */
  lemma {:induction false} NoTwoOne(s: string)
    requires forall i :: 0 <= i < |s| - 1 ==> !(s[i] == '2' && s[i + 1] == '1')
    ensures !Contains(s, "21")
    decreases |s|
  {
    if 2 <= |s| {
      assert s[..2][0] == s[0] && s[..2][1] == s[1];
      var t := s[1..];
      forall i | 0 <= i < |t| - 1 ensures !(t[i] == '2' && t[i + 1] == '1') {
        assert t[i] == s[i + 1] && t[i + 1] == s[i + 2];
      }
      NoTwoOne(t);
    }
  }

  /** The marker evidently intended: the catalogue's own spelling "2_1". */
  predicate ScrewMarkIntended(name: string)
  {
    Contains(name, "2_1")
  }

  /** With the intended marker, exactly the primitive catalogue's names with a 2₁ axis qualify. */
  lemma ScrewMarkIntendedMatches()
    ensures ScrewMarkIntended("P2_1/c") && ScrewMarkIntended("P2_12_12_1")
    ensures !ScrewMarkIntended("P-1") && !ScrewMarkIntended("C2/c")
  {
    ContainsAt("P2_1/c", "2_1");
    assert OccursAt("P2_1/c", "2_1", 1);
    ContainsAt("P2_12_12_1", "2_1");
    assert OccursAt("P2_12_12_1", "2_1", 1);
    NoTwoUnderscoreOne("P-1");
    NoTwoUnderscoreOne("C2/c");
  }

  lemma NoTwoUnderscoreOne(name: string)
    requires name == "P-1" || name == "C2/c"
    ensures !Contains(name, "2_1")
  {
    ContainsAt(name, "2_1");
    forall i: nat ensures !OccursAt(name, "2_1", i) {
      if i + 3 <= |name| {
        assert name[i..i + 3] == [name[i], name[i + 1], name[i + 2]];
      }
    }
  }

  // ---------- rows ----------

  datatype CentricState = Unknown | CentricState | AcentricState

  /** `centricState`: "unknown", "centric" or "acentric". */
  function StateOf(flag: Option<bool>): CentricState
  {
    match flag
    case None => Unknown
    case Some(true) => CentricState
    case Some(false) => AcentricState
  }

  /** `{ name, score, lattice, centricState }` */
  datatype Candidate = Candidate(name: string, score: real, lattice: string, centricState: CentricState)

  /** The weights a row's score is made of, and `glide?.best?.name || ""`. */
  datatype Weighting = Weighting(center: real, glide: real, screw: real, e: real, glideName: string)

  function WeightingOf(ext: Option<Ext>, eHist: Option<EHistView>, screw: Option<ScrewView>, glide: Option<GlideView>): Weighting
  {
    Weighting(CenteringWeight(ext), GlideWeight(glide), ScrewWeight(screw),
              if IsCentricByE(eHist).Some? then 0.2 else 0.0,
              if glide.Some? && glide.value.bestName.Some? then glide.value.bestName.value else "")
  }

  /** The score a seed gets inside `seeds.map`, before the priors. */
  function Score(name: string, w: Weighting): real
  {
    0.2 + 0.8 * w.center + 1.2 * w.glide + 0.5 * w.screw + w.e
    + (if w.glide > 0.0 then NameBonus(w.glideName, name) else 0.0)
    + (if w.screw > 0.0 && ScrewMarkAsWritten(name) then 0.08 else 0.0)
  }

  /** Without a glide or with one found, a candidate's score exceeds its evidence sum by at most
      the largest name bonus, and the screw never adds its name bonus on the catalogues. */
  lemma ScoreBounds(letter: string, flag: Option<bool>, name: string, w: Weighting)
    requires name in Seeds(PoolFor(letter), flag)
    ensures var base := 0.2 + 0.8 * w.center + 1.2 * w.glide + 0.5 * w.screw + w.e;
      base <= Score(name, w) <= base + 0.10
  {
    ScrewMarkNeverMatches(letter, flag);
  }

  /** `allowed.some(L => name.startsWith(L))` */
  predicate AnyPrefix(name: string, allowed: seq<string>)
  {
    exists k :: 0 <= k < |allowed| && StartsWith(name, allowed[k])
  }

  /** `rows.filter(...)` */
  function Filter(rows: seq<Candidate>, allowed: seq<string>): (kept: seq<Candidate>)
    ensures |kept| <= |rows|
  {
    if |rows| == 0 then []
    else
      var last := rows[|rows| - 1];
      Filter(rows[..|rows| - 1], allowed) + if AnyPrefix(last.name, allowed) then [last] else []
  }

  /** The filter keeps exactly the rows whose name starts with an allowed letter. */
  lemma {:induction false} FilterMembers(rows: seq<Candidate>, allowed: seq<string>)
    ensures forall c :: c in Filter(rows, allowed) <==> c in rows && AnyPrefix(c.name, allowed)
  {
    if |rows| > 0 {
      FilterMembers(rows[..|rows| - 1], allowed);
      assert rows == rows[..|rows| - 1] + [rows[|rows| - 1]];
    }
  }

  predicate DistinctNames(rows: seq<Candidate>)
  {
    forall i, j :: 0 <= i < j < |rows| ==> rows[i].name != rows[j].name
  }

  lemma {:induction false} FilterDistinct(rows: seq<Candidate>, allowed: seq<string>)
    requires DistinctNames(rows)
    ensures DistinctNames(Filter(rows, allowed))
  {
    if |rows| > 0 {
      var init := rows[..|rows| - 1];
      FilterDistinct(init, allowed);
      FilterMembers(init, allowed);
      var f := Filter(init, allowed);
      forall i | 0 <= i < |f| ensures f[i].name != rows[|rows| - 1].name {
        assert f[i] in init;
      }
    }
  }

  /** The rows after the crystal-system filter: every survivor's name starts with a letter the
      declared system permits; a system missing from the table keeps nothing. */
  function Kept(rows: seq<Candidate>, crystalSystem: Option<string>): seq<Candidate>
  {
    if TruthyString(crystalSystem) then Filter(rows, SystemToLattice(crystalSystem.value).GetOr([]))
    else rows
  }

  lemma KeptMembers(rows: seq<Candidate>, crystalSystem: Option<string>)
    ensures forall c :: c in Kept(rows, crystalSystem) ==> c in rows
    ensures TruthyString(crystalSystem) ==>
              forall c :: c in Kept(rows, crystalSystem) <==>
                c in rows && AnyPrefix(c.name, SystemToLattice(crystalSystem.value).GetOr([]))
    ensures TruthyString(crystalSystem) && SystemToLattice(crystalSystem.value).None? ==> Kept(rows, crystalSystem) == []
  {
    if TruthyString(crystalSystem) {
      FilterMembers(rows, SystemToLattice(crystalSystem.value).GetOr([]));
      FilterNothingAllowed(rows);
    }
  }

  /** With no allowed letter nothing passes the filter. */
  lemma {:induction false} FilterNothingAllowed(rows: seq<Candidate>)
    ensures Filter(rows, []) == []
  {
    if |rows| > 0 {
      FilterNothingAllowed(rows[..|rows| - 1]);
    }
  }

  /** `r.score += d` for every row. */
  function Shift(rows: seq<Candidate>, d: real): (s: seq<Candidate>)
    ensures |s| == |rows|
  {
    seq(|rows|, j requires 0 <= j < |rows| => rows[j].(score := rows[j].score + d))
  }

  /** The rows before de-duplication: one per seed that passes the filter, with its score, the
      lattice letter and the centric state. */
  function Survivors(ext: Ext, eHist: Option<EHistView>, screw: Option<ScrewView>, glide: Option<GlideView>, priors: Priors): seq<Candidate>
  {
    var lattice := PickLatticeLetter(ext.best);
    var flag := IsCentricByE(eHist);
    var seeds := Seeds(PoolFor(lattice), flag);
    var w := WeightingOf(Some(ext), eHist, screw, glide);
    var rows := seq(|seeds|, i requires 0 <= i < |seeds| => Candidate(seeds[i], Score(seeds[i], w), lattice, StateOf(flag)));
    Shift(Kept(rows, priors.crystalSystem), PriorShift(priors))
  }

  /** A survivor is a seed that passes the filter, scored by the evidence and the priors. */
  lemma SurvivorsFacts(ext: Ext, eHist: Option<EHistView>, screw: Option<ScrewView>, glide: Option<GlideView>, priors: Priors)
    ensures DistinctNames(Survivors(ext, eHist, screw, glide, priors))
    ensures forall c :: c in Survivors(ext, eHist, screw, glide, priors) ==>
              var lattice := PickLatticeLetter(ext.best);
              var flag := IsCentricByE(eHist);
              && c.name in Seeds(PoolFor(lattice), flag)
              && c.score == Score(c.name, WeightingOf(Some(ext), eHist, screw, glide)) + PriorShift(priors)
              && c.lattice == lattice && c.centricState == StateOf(flag)
              && (TruthyString(priors.crystalSystem) ==>
                    AnyPrefix(c.name, SystemToLattice(priors.crystalSystem.value).GetOr([])))
  {
    var lattice := PickLatticeLetter(ext.best);
    var flag := IsCentricByE(eHist);
    var seeds := Seeds(PoolFor(lattice), flag);
    var w := WeightingOf(Some(ext), eHist, screw, glide);
    var rows := seq(|seeds|, i requires 0 <= i < |seeds| => Candidate(seeds[i], Score(seeds[i], w), lattice, StateOf(flag)));
    SeedsDistinct(lattice, flag);
    assert DistinctNames(rows);
    if TruthyString(priors.crystalSystem) {
      FilterDistinct(rows, SystemToLattice(priors.crystalSystem.value).GetOr([]));
    }
    KeptMembers(rows, priors.crystalSystem);
    var kept := Kept(rows, priors.crystalSystem);
    ShiftFacts(kept, PriorShift(priors));
    forall c | c in kept
      ensures c.name in seeds && c.score == Score(c.name, w)
      ensures c.lattice == lattice && c.centricState == StateOf(flag)
    {
      var j :| 0 <= j < |rows| && rows[j] == c;
    }
  }

  /** Shifting keeps the rows, their names and their order, and adds d to every score. */
  lemma ShiftFacts(rows: seq<Candidate>, d: real)
    ensures DistinctNames(rows) ==> DistinctNames(Shift(rows, d))
    ensures forall c :: c in Shift(rows, d) ==> exists r :: r in rows && c == r.(score := r.score + d)
  {
    var s := Shift(rows, d);
    forall c | c in s
      ensures exists r :: r in rows && c == r.(score := r.score + d)
    {
      var j :| 0 <= j < |s| && s[j] == c;
      assert rows[j] in rows;
    }
  }

  // ---------- de-duplication and ranking ----------

  /** The first position in `u` holding `name`, or |u|. */
  function NamePos(u: seq<Candidate>, name: string): (k: nat)
    ensures k <= |u| && (k < |u| ==> u[k].name == name)
    ensures forall j :: 0 <= j < k ==> u[j].name != name
  {
    if |u| == 0 then 0 else if u[0].name == name then 0 else 1 + NamePos(u[1..], name)
  }

  /** `[...new Map(rows.map(r => [r.name, r])).values()]`: a name keeps the position of its first
      row and the value of its last. */
  function Dedup(rows: seq<Candidate>): (u: seq<Candidate>)
    ensures |u| <= |rows|
  {
    if |rows| == 0 then []
    else
      var u := Dedup(rows[..|rows| - 1]);
      var r := rows[|rows| - 1];
      var k := NamePos(u, r.name);
      if k < |u| then u[k := r] else u + [r]
  }

  /** The map holds each name once. */
  lemma {:induction false} DedupDistinct(rows: seq<Candidate>)
    ensures DistinctNames(Dedup(rows))
  {
    if |rows| > 0 {
      DedupDistinct(rows[..|rows| - 1]);
    }
  }

  /** Every name of the input survives the map. */
  lemma {:induction false} DedupKeepsNames(rows: seq<Candidate>)
    ensures forall i :: 0 <= i < |rows| ==> NamePos(Dedup(rows), rows[i].name) < |Dedup(rows)|
  {
    if |rows| > 0 {
      var init := rows[..|rows| - 1];
      DedupKeepsNames(init);
      var u := Dedup(init);
      var r := rows[|rows| - 1];
      var k := NamePos(u, r.name);
      var d := Dedup(rows);
      forall i | 0 <= i < |rows| ensures NamePos(d, rows[i].name) < |d| {
        if i < |rows| - 1 {
          assert rows[i] == init[i];
          var j := NamePos(u, init[i].name);
          assert d[j].name == rows[i].name;
        } else if k < |u| {
          assert d[k].name == rows[i].name;
        } else {
          assert d[|u|].name == rows[i].name;
        }
      }
    }
  }

  /** Every entry of the map is one of the input rows (the last one with its name). */
  lemma {:induction false} DedupFromRows(rows: seq<Candidate>)
    ensures forall j :: 0 <= j < |Dedup(rows)| ==> Dedup(rows)[j] in rows
  {
    if |rows| > 0 {
      var init := rows[..|rows| - 1];
      DedupFromRows(init);
      var u := Dedup(init);
      var d := Dedup(rows);
      forall j | 0 <= j < |d| ensures d[j] in rows {
        if d[j] != rows[|rows| - 1] {
          assert d[j] == u[j] && u[j] in init;
        }
      }
    }
  }

  /** With names already distinct the map changes nothing. */
  lemma {:induction false} DedupOfDistinct(rows: seq<Candidate>)
    requires DistinctNames(rows)
    ensures Dedup(rows) == rows
  {
    if |rows| > 0 {
      var init := rows[..|rows| - 1];
      DedupOfDistinct(init);
      assert rows == init + [rows[|rows| - 1]];
    }
  }

  /** The comparator `(a, b) => b.score - a.score`: ascending in the negated score. */
  function NegScore(c: Candidate): real
  {
    -c.score
  }

  /** The candidate list with every promise of `buildSpaceGroupCandidates`. */
  predicate Ranked(out: seq<Candidate>)
  {
    && |out| <= 8
    && DistinctNames(out)
    && forall i, j :: 0 <= i < j < |out| ==> out[i].score >= out[j].score
  }

  /** `buildSpaceGroupCandidates`: [] without a centering result; otherwise at most eight
      survivors with distinct names in descending score, every one a survivor, and every
      survivor left out scoring no higher than all eight kept. */
  method BuildSpaceGroupCandidates(ext: Option<Ext>, eHist: Option<EHistView>, screw: Option<ScrewView>,
                                   glide: Option<GlideView>, priors: Priors) returns (out: seq<Candidate>)
    ensures ext.None? ==> out == []
    ensures Ranked(out)
    ensures ext.Some? ==>
              var s := Survivors(ext.value, eHist, screw, glide, priors);
              && |out| == (if |s| < 8 then |s| else 8)
              && (forall c :: c in out ==> c in s)
              && (forall c :: c in s && c !in out ==> |out| == 8 && forall o :: o in out ==> o.score >= c.score)
  {
    if ext.None? {
      return [];
    }
    var lattice := PickLatticeLetter(ext.value.best);
    var centricFlag := IsCentricByE(eHist);
    var seeds := Seeds(PoolFor(lattice), centricFlag);
    var w := WeightingOf(ext, eHist, screw, glide);
    var rows := seq(|seeds|, i requires 0 <= i < |seeds| => Candidate(seeds[i], Score(seeds[i], w), lattice, StateOf(centricFlag)));
    var wFormula := FormulaWeight(priors.meanZval);
    var wTemp := TemperatureWeight(priors.temperature);
    var wZp := ZprimeWeight(priors.zprime);
    ghost var scored := rows;
    if TruthyString(priors.crystalSystem) {
      rows := Filter(rows, SystemToLattice(priors.crystalSystem.value).GetOr([]));
    }
    assert rows == Kept(scored, priors.crystalSystem);
    rows := AddPriorWeights(rows, wFormula + wTemp + wZp);
    assert rows == Survivors(ext.value, eHist, screw, glide, priors);
    SurvivorsFacts(ext.value, eHist, screw, glide, priors);
    out := RankSurvivors(rows);
  }

  /** `rows.forEach(r => r.score += wFormula + wTemp + wZp)` */
  method AddPriorWeights(rows: seq<Candidate>, d: real) returns (shifted: seq<Candidate>)
    ensures shifted == Shift(rows, d)
  {
    shifted := rows;
    for i := 0 to |rows|
      invariant |shifted| == |rows|
      invariant forall j :: 0 <= j < |rows| ==>
                  shifted[j] == if j < i then rows[j].(score := rows[j].score + d) else rows[j]
    {
      shifted := shifted[i := shifted[i].(score := shifted[i].score + d)];
    }
  }

  /** The de-duplication by name, the sort by descending score and the cut to eight. */
  method RankSurvivors(rows: seq<Candidate>) returns (out: seq<Candidate>)
    requires DistinctNames(rows)
    ensures Ranked(out)
    ensures |out| == (if |rows| < 8 then |rows| else 8)
    ensures forall c :: c in out ==> c in rows
    ensures forall c :: c in rows && c !in out ==> |out| == 8 && forall o :: o in out ==> o.score >= c.score
  {
    var unique := Dedup(rows);
    DedupOfDistinct(rows);
    var sorted := SortBy(unique, NegScore);
    out := TopEight(sorted, unique);
  }

  /** `out.slice(0, 8)` of the sorted list, with what the sort guarantees. */
  method TopEight(sorted: seq<Candidate>, unique: seq<Candidate>) returns (out: seq<Candidate>)
    requires sorted == SortBy(unique, NegScore) && DistinctNames(unique)
    ensures Ranked(out)
    ensures |out| == if |unique| < 8 then |unique| else 8
    ensures forall c :: c in out ==> c in unique
    ensures forall c :: c in unique && c !in out ==> |out| == 8 && forall o :: o in out ==> o.score >= c.score
  {
    SortByFacts(unique, NegScore);
    SortByMembers(unique, NegScore);
    SortByDistinctNames(unique);
    out := sorted[..if |sorted| < 8 then |sorted| else 8];
    forall c | c in unique && c !in out
      ensures |out| == 8 && forall o :: o in out ==> o.score >= c.score
    {
      assert c in sorted;
      var k :| 0 <= k < |sorted| && sorted[k] == c;
      CutBelow(sorted, |out|, k);
    }
  }

  /** In a list sorted by descending score, every row of a prefix scores at least as high as
      any row after it. */
  lemma CutBelow(sorted: seq<Candidate>, m: nat, k: nat)
    requires SortedBy(sorted, NegScore) && m <= k < |sorted|
    ensures forall o :: o in sorted[..m] ==> o.score >= sorted[k].score
  {
    forall o | o in sorted[..m]
      ensures o.score >= sorted[k].score
    {
      var i :| 0 <= i < m && sorted[..m][i] == o;
      assert NegScore(sorted[i]) <= NegScore(sorted[k]);
    }
  }

  /** The sort keeps names distinct. */
  lemma {:induction false} SortByDistinctNames(s: seq<Candidate>)
    requires DistinctNames(s)
    ensures DistinctNames(SortBy(s, NegScore))
  {
    if |s| > 0 {
      SortByDistinctNames(s[1..]);
      SortByMembers(s[1..], NegScore);
      forall y | y in SortBy(s[1..], NegScore) ensures y.name != s[0].name {
        var j :| 0 <= j < |s[1..]| && s[1..][j] == y;
        assert s[j + 1] == y;
      }
      InsertDistinct(s[0], SortBy(s[1..], NegScore));
    }
  }

  lemma {:induction false} InsertDistinct(x: Candidate, s: seq<Candidate>)
    requires DistinctNames(s) && forall y :: y in s ==> y.name != x.name
    ensures DistinctNames(Insert(x, s, NegScore))
    decreases |s|
  {
    if |s| > 0 && NegScore(x) > NegScore(s[0]) {
      var tail := s[1..];
      var rest := Insert(x, tail, NegScore);
      TailDistinct(s);
      InsertDistinct(x, tail);
      InsertFacts(x, tail, NegScore);
      forall y | y in rest
        ensures y.name != s[0].name
      {
        if y != x {
          var k :| 0 <= k < |tail| && tail[k] == y;
          assert s[k + 1] == y;
        }
      }
      ConsDistinct(s[0], rest);
    } else {
      ConsDistinct(x, s);
    }
  }

  lemma TailDistinct(s: seq<Candidate>)
    requires |s| > 0 && DistinctNames(s)
    ensures DistinctNames(s[1..]) && forall y :: y in s[1..] ==> y in s
  {
    var t := s[1..];
    forall i, j | 0 <= i < j < |t|
      ensures t[i].name != t[j].name
    {
      assert t[i] == s[i + 1] && t[j] == s[j + 1];
    }
  }

  /** Putting a row with a new name in front keeps the names distinct. */
  lemma ConsDistinct(a: Candidate, t: seq<Candidate>)
    requires DistinctNames(t) && forall y :: y in t ==> y.name != a.name
    ensures DistinctNames([a] + t)
  {
    var r := [a] + t;
    forall i, j | 0 <= i < j < |r|
      ensures r[i].name != r[j].name
    {
      assert r[j] == t[j - 1];
      if i > 0 {
        assert r[i] == t[i - 1];
      } else {
        assert r[j] in t;
      }
    }
  }
}
