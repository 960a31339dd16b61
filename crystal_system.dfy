/** A rough crystal-system guess from the detected centering and the axial evidence, and the
    rule that a declared system wins over the guess. */
module CrystalSystem {
  import opened Wrappers
  import opened Features
  import SgCandidates

  /** `null` without a centering result; a TypeError when `ext.best` is missing; otherwise the
      system's name. */
  datatype Guess = NoExt | Throws | System(name: string)

  /** `glide?.best || screw?.score`: some axial evidence. */
  predicate AxialEvidence(glide: Option<GlideView>, screw: Option<ScrewView>)
  {
    (glide.Some? && glide.value.bestName.Some?) || (screw.Some? && TruthyField(screw.value.score))
  }

  /** `autoCrystalSystem`: F and I give cubic, C gives orthorhombic; any other centering gives
      monoclinic when there is axial evidence and triclinic otherwise. */
  function AutoCrystalSystem(ext: Option<Ext>, glide: Option<GlideView>, screw: Option<ScrewView>): (g: Guess)
    ensures g == NoExt <==> ext.None?
    ensures g == Throws <==> ext.Some? && ext.value.best.None?
    ensures g.System? ==>
              var t := ext.value.best.value.kind;
              && (g.name == "cubic" <==> t == "F" || t == "I")
              && (g.name == "orthorhombic" <==> t == "C")
              && (g.name == "monoclinic" <==> t != "F" && t != "I" && t != "C" && AxialEvidence(glide, screw))
              && (g.name == "triclinic" <==> t != "F" && t != "I" && t != "C" && !AxialEvidence(glide, screw))
  {
    if ext.None? then NoExt
    else if ext.value.best.None? then Throws
    else
      var t := ext.value.best.value.kind;
      if t == "F" || t == "I" then System("cubic")
      else if t == "C" then System("orthorhombic")
      else if AxialEvidence(glide, screw) then System("monoclinic")
      else System("triclinic")
  }

  /** The guess is a system the candidate filter knows, and it permits the lattice letter of a
      detected F, I, C or primitive centering, so feeding it back as the declared system never
      removes the seeds of the lattice it came from. */
  lemma AutoPermitsCentering(ext: Option<Ext>, glide: Option<GlideView>, screw: Option<ScrewView>)
    requires AutoCrystalSystem(ext, glide, screw).System?
    ensures var cs := AutoCrystalSystem(ext, glide, screw).name;
      var best := ext.value.best;
      && SgCandidates.SystemToLattice(cs).Some?
      && (best.value.kind in ["F", "I", "C", "P", "P(?)"] ==>
            SgCandidates.PickLatticeLetter(best) in SgCandidates.SystemToLattice(cs).value)
  {
    SgCandidates.UndeterminedIsPrimitive(ext.value.best.value.ratio);
  }

  /** `applyUserCrystalSystem`: `userCS || autoCS`. */
  function ApplyUserCrystalSystem(autoCs: Option<string>, userCs: Option<string>): (cs: Option<string>)
    ensures TruthyString(userCs) ==> cs == userCs
    ensures !TruthyString(userCs) ==> cs == autoCs
  {
    if TruthyString(userCs) then userCs else autoCs
  }

  /** Applying the declared system twice changes nothing more; this follows by unfolding the
      definition. */
  lemma ApplyIdempotent(autoCs: Option<string>, userCs: Option<string>)
    ensures ApplyUserCrystalSystem(ApplyUserCrystalSystem(autoCs, userCs), userCs) == ApplyUserCrystalSystem(autoCs, userCs)
  {
  }
}
