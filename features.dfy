/** The objects the space-group voter, the crystal-system guess and the legacy renderer read: the
    JavaScript numbers among their fields, the fields that may be missing, and how the analysers'
    results appear through them. */
module Features {
  import opened Wrappers
  import Extinction
  import Glide
  import Screw
  import EHistogram

  /** A JavaScript number: finite, NaN, or one of the infinities. */
  datatype JsNumber = Finite(v: real) | NaN | Infinity(positive: bool)

  /** The relational operators on a number and a constant: every comparison with NaN is false. */
  predicate Lt(x: JsNumber, c: real)
  {
    match x
    case Finite(v) => v < c
    case NaN => false
    case Infinity(positive) => !positive
  }

  predicate Le(x: JsNumber, c: real)
  {
    match x
    case Finite(v) => v <= c
    case NaN => false
    case Infinity(positive) => !positive
  }

  predicate Gt(x: JsNumber, c: real)
  {
    match x
    case Finite(v) => v > c
    case NaN => false
    case Infinity(positive) => positive
  }

  predicate Ge(x: JsNumber, c: real)
  {
    match x
    case Finite(v) => v >= c
    case NaN => false
    case Infinity(positive) => positive
  }

  /** A number is falsy when it is 0 or NaN. */
  predicate Truthy(x: JsNumber)
  {
    match x
    case Finite(v) => v != 0.0
    case NaN => false
    case Infinity(_) => true
  }

  /** A field that is a number (`typeof x === "number"`) and truthy; a missing field is falsy. */
  predicate TruthyField(x: Option<JsNumber>)
  {
    x.Some? && Truthy(x.value)
  }

  /** A string is falsy only when empty. */
  predicate TruthyString(s: Option<string>)
  {
    s.Some? && |s.value| > 0
  }

  /** `ext.best`: its `type` and, when it is a number, its `ratio`. */
  datatype Best = Best(kind: string, ratio: Option<real>)

  /** A non-null `ext`, whose `best` may be missing. */
  datatype Ext = Ext(best: Option<Best>)

  /** A non-null `glide`: `ranked[0].forbRate` when it is a number, and `best.name` when there
      is a `best` (a `best` is always present in the analyser's result). */
  datatype GlideView = GlideView(forbRate0: Option<JsNumber>, bestName: Option<string>)

  /** A non-null `screw`: `score` when it is a number. */
  datatype ScrewView = ScrewView(score: Option<JsNumber>)

  /** A non-null histogram or moment summary: `meanE2m1` when it is a number, `likely` when it
      is a string. */
  datatype EHistView = EHistView(meanE2m1: Option<JsNumber>, likely: Option<string>)

  /** `priors`: `meanZval`, `temperature` and `zprime` when they are numbers, and
      `crystalSystem`. */
  datatype Priors = Priors(meanZval: Option<JsNumber>, temperature: Option<JsNumber>,
                           zprime: Option<JsNumber>, crystalSystem: Option<string>)

  /** `priors = {}` */
  const NoPriors: Priors := Priors(None, None, None, None)

  /** The `type` strings of the centering analyser. */
  function LatticeName(l: Extinction.Lattice): string
  {
    match l
    case LatI => "I"
    case LatC => "C"
    case LatF => "F"
    case LatP => "P"
  }

  function ExtOf(a: Extinction.Analysis): Ext
  {
    Ext(Some(Best(LatticeName(a.best.lattice), Some(a.best.ratio))))
  }

  function GlideOf(g: Glide.GlideResult): GlideView
  {
    GlideView(if |g.ranked| > 0 then Some(Finite(g.ranked[0].forbRate)) else None, Some(Glide.Name(g.best.rule)))
  }

  function ScrewOf(s: Screw.ScrewResult): ScrewView
  {
    ScrewView(Some(Finite(s.score)))
  }

  /** The histogram's result as the voter sees it; `null` when there is no finite |E|. */
  function EHistOf(h: EHistogram.Outcome): Option<EHistView>
    requires !h.Throws?
  {
    match h
    case NoData => None
    case Hist(_, _, m, likely) => Some(EHistView(Some(Finite(m)), Some(EHistogram.Label(likely))))
  }
}
