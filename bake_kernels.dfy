/** The coverage-to-state rule of the CPU baker (GetStateFromCoverage in
  * omm-sdk/src/bake_kernels_cpu.h): a micro-triangle whose samples all fall
  * on one side of the alpha cutoff gets that side's state; one with samples
  * on both sides is unknown, and the format and the promotion mode decide
  * what that becomes. */
module BakeKernels {
  import opened OmmTypes

  /** OmmCoverage: how many samples lie above and how many at or below the cutoff. */
  datatype OmmCoverage = OmmCoverage(numAboveAlpha: nat, numBelowAlpha: nat)

  predicate IsUnknownState(s: OpacityState)
  {
    s == UnknownTransparent || s == UnknownOpaque
  }

  /** The unknown counterpart of a state; unknown states are their own. */
  function GetUnknownVersionOf(s: OpacityState): (u: OpacityState)
    ensures IsUnknownState(u)
    ensures KnownVersionOf(u) == KnownVersionOf(s)
  {
    match s
    case Transparent => UnknownTransparent
    case Opaque => UnknownOpaque
    case _ => s
  }

  /** The known state an unknown one leans to; known states are their own. */
  function KnownVersionOf(s: OpacityState): (k: OpacityState)
    ensures !IsUnknownState(k)
    ensures !IsUnknownState(s) ==> k == s
  {
    match s
    case UnknownTransparent => Transparent
    case UnknownOpaque => Opaque
    case _ => s
  }

  predicate Mixed(coverage: OmmCoverage)
  {
    coverage.numAboveAlpha != 0 && coverage.numBelowAlpha != 0
  }

  /** GetStateFromCoverage. Formats other than OC1_4_State take the 2-state
    * branch, and modes other than the two forcing ones take the Nearest
    * rule (the source only asserts that they do not occur). */
  function GetStateFromCoverage(vmFormat: OmmFormat, mode: UnknownStatePromotion,
                                alphaCutoffGT: OpacityState, alphaCutoffLE: OpacityState,
                                coverage: OmmCoverage): (s: OpacityState)
    ensures !Mixed(coverage) ==> s == (if coverage.numAboveAlpha == 0 then alphaCutoffLE else alphaCutoffGT)
    ensures vmFormat == OC1_4_State && !IsUnknownState(alphaCutoffGT) && !IsUnknownState(alphaCutoffLE) ==>
      (IsUnknownState(s) <==> Mixed(coverage))
    ensures vmFormat != OC1_4_State && !IsUnknownState(alphaCutoffGT) && !IsUnknownState(alphaCutoffLE) ==>
      !IsUnknownState(s)
  {
    var isUnknown := coverage.numAboveAlpha != 0 && coverage.numBelowAlpha != 0;
    if isUnknown then
      if vmFormat == OC1_4_State then
        if mode == ForceOpaque then UnknownOpaque
        else if mode == ForceTransparent then UnknownTransparent
        else if coverage.numAboveAlpha >= coverage.numBelowAlpha then GetUnknownVersionOf(alphaCutoffGT)
        else GetUnknownVersionOf(alphaCutoffLE)
      else
        if mode == ForceOpaque then Opaque
        else if mode == ForceTransparent then Transparent
        else if coverage.numAboveAlpha >= coverage.numBelowAlpha then alphaCutoffGT
        else alphaCutoffLE
    else if coverage.numAboveAlpha == 0 then
      alphaCutoffLE
    else
      alphaCutoffGT
  }

  /** Forced promotion of mixed coverage: opaque or transparent, unknown in
    * the 4-state format and known in the 2-state one, whatever the cutoff states. */
  lemma ForcedPromotion(vmFormat: OmmFormat, mode: UnknownStatePromotion,
                        gt: OpacityState, le: OpacityState, coverage: OmmCoverage)
    requires Mixed(coverage) && (mode == ForceOpaque || mode == ForceTransparent)
    ensures var s := GetStateFromCoverage(vmFormat, mode, gt, le, coverage);
      KnownVersionOf(s) == (if mode == ForceOpaque then Opaque else Transparent) &&
      (IsUnknownState(s) <==> vmFormat == OC1_4_State)
  {
  }

  /** Nearest promotion follows the majority, ties going to the above-cutoff
    * state; with no samples at all the result is the at-or-below state. */
  lemma NearestFollowsMajority(vmFormat: OmmFormat, gt: OpacityState, le: OpacityState, coverage: OmmCoverage)
    requires !IsUnknownState(gt) && !IsUnknownState(le)
    ensures var s := GetStateFromCoverage(vmFormat, Nearest, gt, le, coverage);
      KnownVersionOf(s) == (if coverage.numAboveAlpha == 0 then le
                            else if coverage.numAboveAlpha >= coverage.numBelowAlpha then gt
                            else le)
  {
  }

  /** In the 2-state format, mixed coverage under Nearest gives exactly the
    * known version of what the 4-state format gives. */
  lemma TwoStateIsKnownFourState(mode: UnknownStatePromotion, gt: OpacityState, le: OpacityState, coverage: OmmCoverage)
    requires !IsUnknownState(gt) && !IsUnknownState(le)
    ensures GetStateFromCoverage(OC1_2_State, mode, gt, le, coverage)
         == KnownVersionOf(GetStateFromCoverage(OC1_4_State, mode, gt, le, coverage))
  {
  }
}
