/** From the evidence of a validation row to what may be done with the batch
    (`classify_validation_status`). */
module BatchCorrectness {

  datatype Status =
    | NotValidated | AllPermutationsSame | BoundedSame | SampledSame
    | Mismatch | Failed | Incomplete | UnknownStatus

  datatype Tier =
    | NoTier | Unvalidated | ExhaustiveAllPermutations | BoundedInsertion | SampledPermutations
    | PermutationDagExact | PermutationDagMismatch | PermutationDagIncomplete | FailedTier

  datatype CorrectnessClass =
    | CertifiedBatch | BoundedBatch | SampledBatch | RejectedBatch | FailedBatch | UnvalidatedBatch | UnknownBatch

  datatype Classification = Classification(class_: CorrectnessClass, canHardFold: bool, canExecute: bool)

  function ClassifyValidationStatus(
    status: Status, tier: Tier, hardCertificate: bool, allowSampled: bool, allowBounded: bool): Classification
  {
    if status == AllPermutationsSame && (tier in {NoTier, ExhaustiveAllPermutations} || hardCertificate) then
      Classification(CertifiedBatch, true, true)
    else if status == BoundedSame then Classification(BoundedBatch, false, allowBounded)
    else if status == SampledSame then Classification(SampledBatch, false, allowSampled)
    else if status == Mismatch then Classification(RejectedBatch, false, false)
    else if status == Failed then Classification(FailedBatch, false, false)
    else if status == Incomplete || tier == PermutationDagIncomplete then Classification(UnvalidatedBatch, false, false)
    else if status == NotValidated then Classification(UnvalidatedBatch, false, false)
    else Classification(UnknownBatch, false, false)
  }

  /** `_is_exact_executable`, the gate of the exact searches. */
  predicate IsExactExecutable(c: Classification, status: Status) {
    c.class_ == CertifiedBatch && c.canHardFold && status == AllPermutationsSame
  }

  /** Folding, certification, and exact execution are one and the same thing,
      and without the explicit permissions nothing else executes. */
  lemma GatesAgree(status: Status, tier: Tier, hard: bool, allowSampled: bool, allowBounded: bool)
    ensures var c := ClassifyValidationStatus(status, tier, hard, allowSampled, allowBounded);
            && (c.canHardFold <==> c.class_ == CertifiedBatch)
            && (c.canHardFold <==> IsExactExecutable(c, status))
            && (c.canHardFold ==> c.canExecute && status == AllPermutationsSame)
            && (c.canExecute && !c.canHardFold <==>
                  (status == BoundedSame && allowBounded) || (status == SampledSame && allowSampled))
  {
  }
}
