/** The pure parts of the space-group panel: the legacy suggestion lists, the legacy centric
    guess, the normalisation of its statistics argument, and the choice between the candidate
    call and the legacy call. */
module RenderSg {
  import opened Wrappers
  import Numbers
  import opened Text
  import opened Features
  import EHistogram

  /** `suggestSG`: dedicated lists for I, C and F; every other lattice gets the primitive lists. */
  function SuggestSg(lattice: string, centro: bool): seq<string>
  {
    if lattice == "I" then (if centro then ["Immm", "Ibam", "I2/m", "I-4", "I4/m"] else ["I222", "I212121", "I4", "I41"])
    else if lattice == "C" then (if centro then ["C2/m", "Cmmm", "Ccca"] else ["C2221", "Cmc21"])
    else if lattice == "F" then (if centro then ["Fm-3m", "Fd-3m"] else ["F222", "Fdd2"])
    else (if centro then ["P-1", "P2/m", "Pmmm"] else ["P1", "P212121", "Pna21"])
  }

  /** Every suggested name starts with the lattice letter of the list it comes from, and the
      lattices without a list of their own (R, "P(?)", A, B and the rest) share the primitive
      lists. */
  lemma SuggestSgFacts(lattice: string, centro: bool)
    ensures var names := SuggestSg(lattice, centro);
      && |names| > 0
      && (forall k :: 0 <= k < |names| ==>
            |names[k]| > 0 && names[k][0] == (if lattice in ["I", "C", "F"] then lattice[0] else 'P'))
      && (lattice !in ["I", "C", "F"] ==> names == SuggestSg("P", centro))
  {
  }

  /** `inferCentricFromStatsOrHist`: null without an argument; with a numeric mean, whether it
      is nearer 0.968 than 0.736 (no dead band); else with a `likely` string, whether its lower
      case contains "centric"; else null. */
  function InferCentric(obj: Option<EHistView>): (c: Option<bool>)
    ensures obj.None? ==> c.None?
    ensures obj.Some? && obj.value.meanE2m1.None? && obj.value.likely.None? ==> c.None?
  {
    if obj.None? then None
    else if obj.value.meanE2m1.Some? then
      Some(match obj.value.meanE2m1.value
           case Finite(m) => Numbers.Abs(m - 0.968) < Numbers.Abs(m - 0.736)
           case NaN => false
           case Infinity(_) => false)
    else if obj.value.likely.Some? then Some(Contains(ToLower(obj.value.likely.value), "centric"))
    else None
  }

  /** With a finite mean the guess is a plain cut at the midpoint 0.852; the midpoint itself is
      acentric here, where the histogram calls it centric. */
  lemma InferCentricCut(m: real, likely: Option<string>)
    ensures InferCentric(Some(EHistView(Some(Finite(m)), likely))) == Some(m > 0.852)
    ensures EHistogram.Classify(0.852) == EHistogram.Centric
  {
  }

  /** Both labels of the moment summary contain "centric", so a summary without a numeric mean
      is always guessed centric. */
  lemma LikelyLabelsBothCentric(l: EHistogram.Likely)
    ensures InferCentric(Some(EHistView(None, Some(EHistogram.Label(l))))) == Some(true)
  {
    var s := EHistogram.Label(l);
    var t := ToLower(s);
    var at := if l == EHistogram.Acentric then 1 else 0;
    assert forall i :: 0 <= i < |s| ==> t[i] == LowerChar(s[i]);
    assert t[at..at + 7] == "centric";
    assert OccursAt(t, "centric", at);
    ContainsAt(t, "centric");
  }

  /** `normalizeToEHist`: the argument itself iff its mean is a number, else null. */
  function NormalizeToEHist(obj: Option<EHistView>): (e: Option<EHistView>)
    ensures e.Some? <==> obj.Some? && obj.value.meanE2m1.Some?
    ensures e.Some? ==> e == obj
  {
    if obj.Some? && obj.value.meanE2m1.Some? then obj else None
  }

  /** One entry of the legacy candidate list: `{ name, score, lattice, centric }`. */
  datatype Legacy = Legacy(name: string, score: real, lattice: string, centric: bool)

  /** `context`: the parts the panel reads. */
  datatype Context = Context(ext: Option<Ext>, eHist: Option<EHistView>, screw: Option<ScrewView>, glide: Option<GlideView>)

  const NoContext: Context := Context(None, None, None, None)

  /** The two calling conventions: a candidate array with an optional context, or the legacy
      `(ext, eStats or eHist)`. */
  datatype Call<C> = ArrayCall(candidates: seq<C>, context: Option<Context>)
                   | LegacyCall(ext: Option<Ext>, stats: Option<EHistView>)

  /** What the panel draws from: "not computed" for a legacy call missing either argument, or a
      candidate list with its context. */
  datatype Panel<C> = NotComputed | Given(candidates: seq<C>, context: Context) | Suggested(legacy: seq<Legacy>, context: Context)

  /** The legacy lattice: `ext.best?.type || "P"`. */
  function LegacyLattice(ext: Ext): string
  {
    if ext.best.Some? && |ext.best.value.kind| > 0 then ext.best.value.kind else "P"
  }

  /** The argument dispatch at the top of `renderSG`. */
  function Dispatch<C>(call: Call<C>): (p: Panel<C>)
    ensures p.NotComputed? <==> call.LegacyCall? && (call.ext.None? || call.stats.None?)
    ensures call.ArrayCall? ==> p == Given(call.candidates, call.context.GetOr(NoContext))
    ensures p.Suggested? ==>
              var lattice := LegacyLattice(call.ext.value);
              var centric := InferCentric(call.stats) == Some(true);
              && |p.legacy| == |SuggestSg(lattice, centric)|
              && (forall k :: 0 <= k < |p.legacy| ==>
                    p.legacy[k] == Legacy(SuggestSg(lattice, centric)[k], 1.0, lattice, centric))
              && p.context == Context(call.ext, NormalizeToEHist(call.stats), None, None)
  {
    match call
    case ArrayCall(candidates, context) => Given(candidates, context.GetOr(NoContext))
    case LegacyCall(ext, stats) =>
      if ext.None? || stats.None? then NotComputed
      else
        var lattice := LegacyLattice(ext.value);
        var isCentric := InferCentric(stats);
        var names := SuggestSg(lattice, isCentric == Some(true));
        Suggested(seq(|names|, k requires 0 <= k < |names| => Legacy(names[k], 1.0, lattice, isCentric == Some(true))),
                  Context(ext, NormalizeToEHist(stats), None, None))
  }
}
