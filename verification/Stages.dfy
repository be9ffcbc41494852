/** Verification stages, dispositions and reason codes (csv-accountability-verify/src/lib.rs). */
module Stages {
  import opened Bytes
  import opened Text

  datatype Stage =
    | Structure | IntentStage | AuthorityStage | Executor | Temporal | Replay | EvidenceStage
    | ContradictionAndGap | ReceiptStage | ExternalCorroboration | Custody | PreservationStage

  datatype ReasonCode =
    | MalformedStructure | IntentMismatch | MandateInvalid | WrongExecutor
    | MandateNotYetValid | MandateExpired | MandateRevoked | RevocationStatusUnknown
    | AlgorithmDisallowed | AlgorithmStatusUnknown | ReplayDetected | ReplayStatusUnknown
    | EvidenceInvalid | EvidenceReferenceMissing | EvidenceAuthenticityRejected | EvidenceAuthenticityUnknown
    | RequiredEvidenceMissing | SelectiveDisclosureLimitsEvaluation
    | ContradictoryEvidenceOmitted | ConflictingEvidencePreserved
    | ReceiptInvalid | OutcomeUnknown
    | IndependentSingleUseUnverified | IndependentSingleUseInconsistent
    | CustodyEvidenceAbsent | CustodyDisclosureLimited
    | PreservationEvidenceAbsent | PreservationEvidenceInvalid
    | PreservationAuthenticityRejected | PreservationAuthenticityUnknown
    | PreservationAlgorithmDeprecated | PreservationAlgorithmDisallowed | PreservationAlgorithmUnknown

  datatype Disposition =
    | Pass
    | Fails(reason: ReasonCode)
    | Indeterminate(reason: ReasonCode)
    | Unsupported(reason: ReasonCode)

  datatype StageResult = StageResult(stage: Stage, disposition: Disposition)

  /** A disposition, and whether the input gives cause for it. */
  datatype Cause = Cause(disposition: Disposition, applies: bool)

  predicate FirstToApply(causes: seq<Cause>, i: nat)
  {
    i < |causes| && causes[i].applies && forall j :: 0 <= j < i ==> !causes[j].applies
  }

  /** A stage reports the first of its causes that applies, and passes when none does. */
  predicate Explains(causes: seq<Cause>, d: Disposition)
  {
    && (forall i :: 0 <= i < |causes| && FirstToApply(causes, i) ==> d == causes[i].disposition)
    && ((forall i :: 0 <= i < |causes| ==> !causes[i].applies) ==> d == Pass)
  }

  predicate At(causes: seq<Cause>, i: nat) { i < |causes| && causes[i].applies }

  /** The first cause of a short list, position by position. */
  function Pick(causes: seq<Cause>): Disposition
  {
    if At(causes, 0) then causes[0].disposition
    else if At(causes, 1) then causes[1].disposition
    else if At(causes, 2) then causes[2].disposition
    else if At(causes, 3) then causes[3].disposition
    else if At(causes, 4) then causes[4].disposition
    else if At(causes, 5) then causes[5].disposition
    else if At(causes, 6) then causes[6].disposition
    else Pass
  }

  lemma PickExplains(causes: seq<Cause>)
    requires |causes| <= 7
    ensures Explains(causes, Pick(causes))
  {
  }

  /** A context-supplied authenticity conclusion for one content identifier. */
  datatype Authenticated = Verified | Rejected | Unknown

  datatype Assessment = Assessment(id: Digest, status: Authenticated)

  predicate SortedAssessments(assessments: seq<Assessment>)
  {
    forall i :: 0 < i < |assessments| ==> Less(assessments[i - 1].id, assessments[i].id)
  }

  /** The first conclusion for an identifier. */
  function Conclusion(assessments: seq<Assessment>, id: Digest): (r: Option<Authenticated>)
    ensures r.Some? ==> Assessment(id, r.value) in assessments
    ensures r.None? <==> forall i :: 0 <= i < |assessments| ==> assessments[i].id != id
  {
    if assessments == [] then None
    else if assessments[0].id == id then Some(assessments[0].status)
    else Conclusion(assessments[1..], id)
  }

  /** A namespaced code of the accountability registry. */
  function Code(area: string, name: string): (s: Text)
    ensures |area| + |name| <= 496 ==> Printable(s, 512)
  {
    Ascii("ACCOUNTABILITY." + area + "." + name)
  }

  function RegistryId(r: ReasonCode): (s: Text)
    ensures Printable(s, 512)
  {
    match r
    case MalformedStructure => Code("STRUCTURE", "MALFORMED")
    case IntentMismatch => Code("AUTHORITY", "INTENT_MISMATCH")
    case MandateInvalid => Code("AUTHORITY", "MANDATE_INVALID")
    case WrongExecutor => Code("AUTHORITY", "WRONG_EXECUTOR")
    case MandateNotYetValid => Code("TEMPORAL", "NOT_YET_VALID")
    case MandateExpired => Code("TEMPORAL", "EXPIRED")
    case MandateRevoked => Code("TEMPORAL", "REVOKED")
    case RevocationStatusUnknown => Code("TEMPORAL", "REVOCATION_UNKNOWN")
    case AlgorithmDisallowed => Code("TEMPORAL", "ALGORITHM_DISALLOWED")
    case AlgorithmStatusUnknown => Code("TEMPORAL", "ALGORITHM_UNKNOWN")
    case ReplayDetected => Code("SINGLE_USE", "REPLAY_DETECTED")
    case ReplayStatusUnknown => Code("SINGLE_USE", "REPLAY_UNKNOWN")
    case EvidenceInvalid => Code("EVIDENCE", "INVALID")
    case EvidenceReferenceMissing => Code("EVIDENCE", "REFERENCE_MISSING")
    case EvidenceAuthenticityRejected => Code("EVIDENCE", "AUTHENTICITY_REJECTED")
    case EvidenceAuthenticityUnknown => Code("EVIDENCE", "AUTHENTICITY_UNKNOWN")
    case RequiredEvidenceMissing => Code("COMPLETENESS", "REQUIRED_EVIDENCE_MISSING")
    case SelectiveDisclosureLimitsEvaluation => Code("COMPLETENESS", "DISCLOSURE_LIMITED")
    case ContradictoryEvidenceOmitted => Code("CONTRADICTION", "OPPOSING_EVIDENCE_OMITTED")
    case ConflictingEvidencePreserved => Code("CONTRADICTION", "CONFLICT_PRESERVED")
    case ReceiptInvalid => Code("EXECUTION", "RECEIPT_INVALID")
    case OutcomeUnknown => Code("EXECUTION", "OUTCOME_AMBIGUOUS")
    case IndependentSingleUseUnverified => Code("EXTERNAL_CORROBORATION", "ANCHOR_ABSENT")
    case IndependentSingleUseInconsistent => Code("EXTERNAL_CORROBORATION", "ANCHOR_INCONSISTENT")
    case CustodyEvidenceAbsent => Code("CUSTODY", "EVIDENCE_ABSENT")
    case CustodyDisclosureLimited => Code("CUSTODY", "DISCLOSURE_LIMITED")
    case PreservationEvidenceAbsent => Code("PRESERVATION", "EVIDENCE_ABSENT")
    case PreservationEvidenceInvalid => Code("PRESERVATION", "EVIDENCE_INVALID")
    case PreservationAuthenticityRejected => Code("PRESERVATION", "AUTHENTICITY_REJECTED")
    case PreservationAuthenticityUnknown => Code("PRESERVATION", "AUTHENTICITY_UNKNOWN")
    case PreservationAlgorithmDeprecated => Code("PRESERVATION", "ALGORITHM_DEPRECATED")
    case PreservationAlgorithmDisallowed => Code("PRESERVATION", "ALGORITHM_DISALLOWED")
    case PreservationAlgorithmUnknown => Code("PRESERVATION", "ALGORITHM_UNKNOWN")
  }
}
