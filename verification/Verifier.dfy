/**
  The twelve-stage verifier (csv-accountability-verify/src/lib.rs), and what its verdict
  implies across every layer it looks at.
 */
module Verifier {
  import opened Bytes
  import opened Text
  import opened Hashing
  import opened Mandate
  import opened Intent
  import opened Execution
  import opened Receipt
  import opened Preservation
  import opened PreservationAssessment
  import opened Stages
  import opened Lineage
  import MS = MandateState
  import E = Evidence
  import G = EvidenceGraph
  import S = EvidenceSummary
  import A = Anchor
  import C = Context

  datatype Revocation = NotRevoked | Revoked | RevocationUnknown

  datatype SignaturePolicy = SignatureAllowed | SignatureDisallowed | SignatureUndecided

  datatype ReplayStatus = Fresh | Replayed | ReplayUnknown

  datatype Input = Input(
    intent: ActionIntent,
    mandate: ActionMandate,
    attempt: ExecutionAttempt,
    receipt: ExecutionReceipt,
    evidence: seq<G.Entry>,
    authenticity: seq<Assessment>,
    expectedExecutor: Bytes,
    revocation: Revocation,
    algorithm: SignaturePolicy,
    replay: ReplayStatus,
    anchor: Option<A.SealConsumption>,
    generations: seq<Generation>,
    preservationAuthenticity: seq<Assessment>,
    algorithmPolicy: seq<AlgorithmEntry>)

  /** The overall disposition; `Inconclusive` is the source's indeterminate one. */
  datatype Verdict = Valid | Invalid | Inconclusive

  datatype Report = Report(
    verdict: Verdict,
    stages: seq<StageResult>,
    summary: S.Summary,
    evaluationTime: U64,
    revocationSnapshotDigest: Digest,
    algorithmPolicyDigest: Digest)

  // ---- Stages that read the case ---------------------------------------------------------

  function CheckStructure(h: Hashes, x: Input): Disposition
  {
    if ValidIntent(x.intent) && ValidMandate(x.mandate) && ValidAttempt(h, x.attempt, x.mandate)
    then Pass else Fails(MalformedStructure)
  }

  function CheckIntent(h: Hashes, x: Input): Disposition
  {
    if ValidIntent(x.intent) && IntentId(h, x.intent) == x.mandate.intentId == x.attempt.intentId
    then Pass else Fails(IntentMismatch)
  }

  function CheckAuthority(x: Input): Disposition
  {
    if ValidMandate(x.mandate) then Pass else Fails(MandateInvalid)
  }

  function CheckExecutor(x: Input): Disposition
  {
    var subjectMatches := match x.mandate.subject
      case Identity(identity) => identity == x.expectedExecutor
      case ExecutorClass(_) => x.attempt.executorIdentity == x.expectedExecutor;
    if subjectMatches && x.attempt.executorIdentity == x.expectedExecutor then Pass else Fails(WrongExecutor)
  }

  function CheckTemporal(x: Input, time: U64): Disposition
  {
    if time < x.mandate.validFrom then Fails(MandateNotYetValid)
    else if time >= x.mandate.expiresAt then Fails(MandateExpired)
    else
      match (x.revocation, x.algorithm)
      case (Revoked, _) => Fails(MandateRevoked)
      case (_, SignatureDisallowed) => Fails(AlgorithmDisallowed)
      case (RevocationUnknown, _) => Indeterminate(RevocationStatusUnknown)
      case (_, SignatureUndecided) => Indeterminate(AlgorithmStatusUnknown)
      case (NotRevoked, SignatureAllowed) => Pass
  }

  function CheckReplay(x: Input): Disposition
  {
    match x.replay
    case Fresh => Pass
    case Replayed => Fails(ReplayDetected)
    case ReplayUnknown => Indeterminate(ReplayStatusUnknown)
  }

  function CheckReceipt(h: Hashes, x: Input): Disposition
  {
    if !ValidReceipt(h, x.receipt, x.mandate, x.attempt) then Fails(ReceiptInvalid)
    else if x.receipt.outcome == UnknownOutcome then Indeterminate(OutcomeUnknown)
    else Pass
  }

  function CheckCorroboration(x: Input): Disposition
  {
    match x.anchor
    case None => Unsupported(IndependentSingleUseUnverified)
    case Some(seal) =>
      match A.AssessSeal(seal, x.attempt.reservationTokenDigest, x.mandate.intentId)
      case IndependentlyEnforced => Pass
      case _ => Indeterminate(IndependentSingleUseInconsistent)
  }

  // ---- Stages that read the evidence graph --------------------------------------------------

  predicate Present(evidence: seq<G.Entry>, id: Digest)
  {
    exists i :: 0 <= i < |evidence| && evidence[i].id == id
  }

  predicate AllPresent(evidence: seq<G.Entry>, refs: seq<Digest>)
  {
    forall i :: 0 <= i < |refs| ==> Present(evidence, refs[i])
  }

  predicate ReferencesPresent(r: ExecutionReceipt, evidence: seq<G.Entry>)
  {
    && AllPresent(evidence, r.dispatchEvidenceRefs)
    && AllPresent(evidence, r.targetEvidenceRefs)
    && forall i :: 0 <= i < |r.requirementStatuses| ==> AllPresent(evidence, r.requirementStatuses[i].evidenceRefs)
  }

  predicate BearsAuthenticity(evidence: seq<G.Entry>, id: Digest)
  {
    exists i :: 0 <= i < |evidence| && evidence[i].id == id && evidence[i].node.authenticity.Some?
  }

  predicate CanonicalAssessments(evidence: seq<G.Entry>, assessed: seq<Assessment>)
  {
    SortedAssessments(assessed) && forall i :: 0 <= i < |assessed| ==> BearsAuthenticity(evidence, assessed[i].id)
  }

  predicate SomeAssessed(assessed: seq<Assessment>, status: Authenticated)
  {
    exists i :: 0 <= i < |assessed| && assessed[i].status == status
  }

  predicate SomeUnassessed(evidence: seq<G.Entry>, assessed: seq<Assessment>)
  {
    exists i :: 0 <= i < |evidence| && evidence[i].node.authenticity.Some? && Conclusion(assessed, evidence[i].id).None?
  }

  predicate SomeNode(evidence: seq<G.Entry>, p: E.EvidenceNode -> bool)
  {
    exists i :: 0 <= i < |evidence| && p(evidence[i].node)
  }

  /** The receipt refers to a node, for dispatch, target or a requirement. */
  predicate Names(r: ExecutionReceipt, id: Digest)
  {
    || id in r.dispatchEvidenceRefs || id in r.targetEvidenceRefs
    || exists i :: 0 <= i < |r.requirementStatuses| && id in r.requirementStatuses[i].evidenceRefs
  }

  /** References are present exactly when every node the receipt names anywhere is in the graph. */
  lemma ReferencesPresentExactlyWhen(r: ExecutionReceipt, evidence: seq<G.Entry>)
    ensures ReferencesPresent(r, evidence) <==> forall id: Digest :: Names(r, id) ==> Present(evidence, id)
  {
    hide Present;
    AllPresentExactlyWhen(r.dispatchEvidenceRefs, evidence);
    AllPresentExactlyWhen(r.targetEvidenceRefs, evidence);
    forall i | 0 <= i < |r.requirementStatuses|
      ensures AllPresent(evidence, r.requirementStatuses[i].evidenceRefs) <==>
                forall id: Digest :: id in r.requirementStatuses[i].evidenceRefs ==> Present(evidence, id)
    {
      AllPresentExactlyWhen(r.requirementStatuses[i].evidenceRefs, evidence);
    }
    if forall id: Digest :: Names(r, id) ==> Present(evidence, id) {
      forall i, id: Digest | 0 <= i < |r.requirementStatuses| && id in r.requirementStatuses[i].evidenceRefs
        ensures Present(evidence, id)
      {
        assert Names(r, id);
      }
      assert forall id: Digest :: id in r.dispatchEvidenceRefs || id in r.targetEvidenceRefs ==> Names(r, id);
    }
  }

  lemma AllPresentExactlyWhen(refs: seq<Digest>, evidence: seq<G.Entry>)
    ensures AllPresent(evidence, refs) <==> forall id: Digest :: id in refs ==> Present(evidence, id)
  {
    hide Present;
    assert forall i :: 0 <= i < |refs| ==> refs[i] in refs;
  }

  /** Assessments are canonical exactly when no node is assessed twice, they ascend, and each is of a signed node. */
  lemma CanonicalAssessmentsExactlyWhen(evidence: seq<G.Entry>, assessed: seq<Assessment>)
    ensures CanonicalAssessments(evidence, assessed) <==>
              && (forall i, j :: 0 <= i < j < |assessed| ==> Less(assessed[i].id, assessed[j].id))
              && (forall a :: a in assessed ==>
                    exists e :: e in evidence && e.id == a.id && e.node.authenticity.Some?)
  {
    if SortedAssessments(assessed) {
      forall i, j | 0 <= i < j < |assessed| ensures Less(assessed[i].id, assessed[j].id) {
        AssessmentsAscend(assessed, i, j);
      }
    }
    forall id ensures BearsAuthenticity(evidence, id) <==>
      exists e :: e in evidence && e.id == id && e.node.authenticity.Some?
    {
      if BearsAuthenticity(evidence, id) {
        var i :| 0 <= i < |evidence| && evidence[i].id == id && evidence[i].node.authenticity.Some?;
        assert evidence[i] in evidence;
      }
    }
  }

  lemma {:induction false} AssessmentsAscend(assessed: seq<Assessment>, i: nat, j: nat)
    requires SortedAssessments(assessed) && i < j < |assessed|
    ensures Less(assessed[i].id, assessed[j].id)
    decreases j
  {
    if i < j - 1 {
      AssessmentsAscend(assessed, i, j - 1);
      LessTransitive(assessed[i].id, assessed[j - 1].id, assessed[j].id);
    }
  }

  function CheckEvidence(x: Input, graphIsValid: bool, summary: S.Summary): Disposition
  {
    if !graphIsValid || !CanonicalAssessments(x.evidence, x.authenticity) then Fails(EvidenceInvalid)
    else if !ReferencesPresent(x.receipt, x.evidence) then Fails(EvidenceReferenceMissing)
    else if SomeAssessed(x.authenticity, Rejected) then Fails(EvidenceAuthenticityRejected)
    else if (exists i :: 0 <= i < |x.receipt.requirementStatuses| && !x.receipt.requirementStatuses[i].satisfied)
            || SomeNode(x.evidence, S.IsGap) then Indeterminate(RequiredEvidenceMissing)
    else if SomeAssessed(x.authenticity, Unknown) || SomeUnassessed(x.evidence, x.authenticity) then
      Indeterminate(EvidenceAuthenticityUnknown)
    else if summary.withheldLocators > 0 then Indeterminate(SelectiveDisclosureLimitsEvaluation)
    else Pass
  }

  predicate Paired(evidence: seq<G.Entry>, id: Digest)
  {
    exists j :: 0 <= j < |evidence| && evidence[j].node.kind.Contradiction?
      && (evidence[j].node.kind.leftId == id || evidence[j].node.kind.rightId == id)
  }

  predicate HasUnpairedCounterclaim(evidence: seq<G.Entry>)
  {
    exists i :: 0 <= i < |evidence| && evidence[i].node.kind.Counterclaim? && !Paired(evidence, evidence[i].id)
  }

  /** A counterclaim stands unpaired exactly when every contradiction is between two other nodes. */
  lemma UnpairedExactlyWhen(evidence: seq<G.Entry>)
    ensures HasUnpairedCounterclaim(evidence) <==>
              exists c :: c in evidence && S.IsCounterclaim(c.node) &&
                forall d :: d in evidence && S.IsContradiction(d.node) ==>
                  c.id !in {d.node.kind.leftId, d.node.kind.rightId}
  {
    forall id ensures Paired(evidence, id) <==>
      exists d :: d in evidence && S.IsContradiction(d.node) && id in {d.node.kind.leftId, d.node.kind.rightId}
    {
      if Paired(evidence, id) {
        var j :| 0 <= j < |evidence| && evidence[j].node.kind.Contradiction?
          && (evidence[j].node.kind.leftId == id || evidence[j].node.kind.rightId == id);
        assert evidence[j] in evidence;
      }
    }
    if HasUnpairedCounterclaim(evidence) {
      var i :| 0 <= i < |evidence| && evidence[i].node.kind.Counterclaim? && !Paired(evidence, evidence[i].id);
      assert evidence[i] in evidence;
    }
  }

  function CheckContradictions(x: Input, graphIsValid: bool, summary: S.Summary): Disposition
  {
    if !graphIsValid then Fails(EvidenceInvalid)
    else if HasUnpairedCounterclaim(x.evidence) then Indeterminate(ContradictoryEvidenceOmitted)
    else if summary.contradictions > 0 then Indeterminate(ConflictingEvidencePreserved)
    else if summary.gaps > 0 then Indeterminate(RequiredEvidenceMissing)
    else Pass
  }

  predicate WithheldCustody(n: E.EvidenceNode) { S.IsCustody(n) && S.IsWithheld(n) }

  function CheckCustody(x: Input, graphIsValid: bool, summary: S.Summary): Disposition
  {
    if !graphIsValid then Fails(EvidenceInvalid)
    else if summary.custodyRecords == 0 then Unsupported(CustodyEvidenceAbsent)
    else if SomeNode(x.evidence, WithheldCustody) then Indeterminate(CustodyDisclosureLimited)
    else Pass
  }

  // ---- The verifier --------------------------------------------------------------------------

  predicate SomeFails(stages: seq<StageResult>)
  {
    exists i :: 0 <= i < |stages| && stages[i].disposition.Fails?
  }

  predicate SomeIndeterminate(stages: seq<StageResult>)
  {
    exists i :: 0 <= i < |stages| && stages[i].disposition.Indeterminate?
  }

  function Overall(stages: seq<StageResult>): Verdict
  {
    if SomeFails(stages) then Invalid else if SomeIndeterminate(stages) then Inconclusive else Valid
  }

  const STAGE_ORDER: seq<Stage> :=
    [Structure, IntentStage, AuthorityStage, Executor, Temporal, Replay, EvidenceStage, ContradictionAndGap,
     ReceiptStage, ExternalCorroboration, Custody, PreservationStage]

  /** A report the verifier can produce: every stage once, in order, with its verdict. */
  predicate Complete(r: Report)
  {
    && |r.stages| == |STAGE_ORDER|
    && (forall i :: 0 <= i < |r.stages| ==> r.stages[i].stage == STAGE_ORDER[i])
    && r.verdict == Overall(r.stages)
    && !r.stages[9].disposition.Fails?
  }

  predicate Clear(d: Disposition) { d.Pass? || d.Unsupported? }

  // ---- What a valid verdict means -------------------------------------------------------------

  predicate ByTheExpectedExecutor(x: Input)
  {
    && x.attempt.executorIdentity == x.expectedExecutor
    && (x.mandate.subject.Identity? ==> x.mandate.subject.identity == x.expectedExecutor)
  }

  /** Intent, mandate, attempt and receipt are one case, in force and freshly used. */
  predicate CaseSound(h: Hashes, x: Input, time: U64)
  {
    && ValidIntent(x.intent) && x.mandate.intentId == IntentId(h, x.intent)
    && ValidReceipt(h, x.receipt, x.mandate, x.attempt)
    && x.receipt.outcome != UnknownOutcome
    && ValidAt(x.mandate, time)
    && x.revocation == NotRevoked && x.algorithm == SignatureAllowed && x.replay == Fresh
    && ByTheExpectedExecutor(x)
  }

  /** Nothing missing, opposed, challenged, hidden or of doubtful authenticity. */
  predicate Undisputed(evidence: seq<G.Entry>, assessed: seq<Assessment>, i: nat)
    requires i < |evidence|
  {
    var n := evidence[i].node;
    && !S.IsGap(n) && !S.IsContradiction(n) && !S.IsCounterclaim(n) && !S.IsWithheld(n)
    && (n.authenticity.Some? ==> Conclusion(assessed, evidence[i].id) == Some(Verified))
  }

  ghost predicate EvidenceSound(h: Hashes, x: Input)
  {
    && G.ValidGraph(h, x.evidence)
    && CanonicalAssessments(x.evidence, x.authenticity)
    && (forall i :: 0 <= i < |x.authenticity| ==> x.authenticity[i].status == Verified)
    && ReferencesPresent(x.receipt, x.evidence)
    && (forall i :: 0 <= i < |x.receipt.requirementStatuses| ==> x.receipt.requirementStatuses[i].satisfied)
    && (forall i :: 0 <= i < |x.evidence| ==> Undisputed(x.evidence, x.authenticity, i))
  }

  /** A seal-consumption record, if there is one, was spent for this reservation and this intent. */
  predicate Corroborated(x: Input)
  {
    x.anchor.Some? ==>
      && x.anchor.value.sealId != ZERO && A.AnchorField(x.anchor.value.anchorBackend)
      && x.anchor.value.nullifier == x.attempt.reservationTokenDigest != ZERO
      && x.anchor.value.commitment == x.mandate.intentId != ZERO
  }

  predicate Preserved(h: Hashes, x: Input)
  {
    x.generations != [] ==>
      && WellFormed(h, x.generations, x.preservationAuthenticity, x.algorithmPolicy)
      && AllVerified(x.generations, x.preservationAuthenticity)
      && AllAllowed(x.generations[|x.generations| - 1].envelope.algorithmIds, x.algorithmPolicy)
  }

  /** Something in the input speaks against the case, rather than merely failing to speak for it. */
  ghost predicate Refuted(h: Hashes, x: Input, time: U64)
  {
    || CaseRefuted(h, x, time)
    || EvidenceRefuted(h, x)
    || PreservationRefuted(h, x.generations, x.preservationAuthenticity, x.algorithmPolicy)
  }

  predicate CaseRefuted(h: Hashes, x: Input, time: U64)
  {
    || !ValidIntent(x.intent) || !ValidReceipt(h, x.receipt, x.mandate, x.attempt)
    || x.mandate.intentId != IntentId(h, x.intent)
    || time < x.mandate.validFrom || x.mandate.expiresAt <= time
    || x.revocation == Revoked || x.algorithm == SignatureDisallowed || x.replay == Replayed
    || !ByTheExpectedExecutor(x)
  }

  ghost predicate EvidenceRefuted(h: Hashes, x: Input)
  {
    || !G.ValidGraph(h, x.evidence)
    || !CanonicalAssessments(x.evidence, x.authenticity)
    || !ReferencesPresent(x.receipt, x.evidence)
    || SomeAssessed(x.authenticity, Rejected)
  }

  ghost predicate Accountable(h: Hashes, x: Input, time: U64)
  {
    CaseSound(h, x, time) && EvidenceSound(h, x) && Corroborated(x) && Preserved(h, x)
  }

  lemma CaseStages(h: Hashes, x: Input, time: U64)
    ensures CaseSound(h, x, time) <==>
              && Clear(CheckStructure(h, x)) && Clear(CheckIntent(h, x)) && Clear(CheckAuthority(x))
              && Clear(CheckExecutor(x)) && Clear(CheckTemporal(x, time)) && Clear(CheckReplay(x)) &&
                  Clear(CheckReceipt(h, x))
  {
    hide ValidIntent, ValidMandate, IntentId, MandateId, AttemptId, BoundTo, StatusesCover, ValidRefs,
         OutcomeConsistent, StateConsistent;
  }

  /** The counters a summary gives say of each kind whether there is such a node. */
  predicate Counted(evidence: seq<G.Entry>, summary: S.Summary)
  {
    && (summary.withheldLocators > 0 <==> SomeNode(evidence, S.IsWithheld))
    && (summary.contradictions > 0 <==> SomeNode(evidence, S.IsContradiction))
    && (summary.gaps > 0 <==> SomeNode(evidence, S.IsGap))
    && (summary.custodyRecords > 0 <==> SomeNode(evidence, S.IsCustody))
  }

  lemma CountersDecide(h: Hashes, evidence: seq<G.Entry>)
    requires G.ValidGraph(h, evidence)
    ensures Counted(evidence, S.Counts(evidence))
  {
    hide G.ValidGraph, S.CountMod;
    GraphIsSmall(h, evidence);
    S.CountersAreExact(evidence, S.IsWithheld);
    S.CountersAreExact(evidence, S.IsContradiction);
    S.CountersAreExact(evidence, S.IsGap);
    S.CountersAreExact(evidence, S.IsCustody);
  }

  /** Node by node, what the absence of each kind of trouble amounts to. */
  predicate Untroubled(x: Input)
  {
    && !SomeNode(x.evidence, S.IsGap) && !SomeNode(x.evidence, S.IsContradiction) && !SomeNode(x.evidence, S.IsWithheld)
    && !HasUnpairedCounterclaim(x.evidence)
    && !SomeAssessed(x.authenticity, Rejected) && !SomeAssessed(x.authenticity, Unknown)
    && !SomeUnassessed(x.evidence, x.authenticity)
  }

  lemma NothingPairs(evidence: seq<G.Entry>)
    requires !SomeNode(evidence, S.IsContradiction)
    ensures forall id :: !Paired(evidence, id)
  {
    assert forall j :: 0 <= j < |evidence| ==> !S.IsContradiction(evidence[j].node);
  }

  lemma UntroubledIsUndisputed(x: Input)
    ensures Untroubled(x) <==>
              && (forall i :: 0 <= i < |x.authenticity| ==> x.authenticity[i].status == Verified)
              && (forall i :: 0 <= i < |x.evidence| ==> Undisputed(x.evidence, x.authenticity, i))
  {
    hide Conclusion;
    if Untroubled(x) {
      assert forall i :: 0 <= i < |x.authenticity| ==> x.authenticity[i].status == Verified;
      AssessedMeansVerified(x.authenticity);
      NothingPairs(x.evidence);
      forall i | 0 <= i < |x.evidence|
        ensures Undisputed(x.evidence, x.authenticity, i)
      {
        assert !S.IsGap(x.evidence[i].node) && !S.IsContradiction(x.evidence[i].node) &&
            !S.IsWithheld(x.evidence[i].node);
      }
    } else if forall i :: 0 <= i < |x.evidence| ==> Undisputed(x.evidence, x.authenticity, i) {
      forall i | 0 <= i < |x.evidence|
        ensures var n := x.evidence[i].node;
                && !S.IsGap(n) && !S.IsContradiction(n) && !S.IsCounterclaim(n) && !S.IsWithheld(n)
                && (n.authenticity.Some? ==> Conclusion(x.authenticity, x.evidence[i].id).Some?)
      {
        assert Undisputed(x.evidence, x.authenticity, i);
      }
    }
  }

  lemma EvidenceStages(h: Hashes, x: Input)
    ensures var valid := G.ValidGraph(h, x.evidence);
            var summary := S.Counts(x.evidence);
            EvidenceSound(h, x) <==>
              && Clear(CheckEvidence(x, valid, summary))
              && Clear(CheckContradictions(x, valid, summary))
              && Clear(CheckCustody(x, valid, summary))
  {
    hide G.ValidGraph, CanonicalAssessments, ReferencesPresent, Undisputed, SomeNode, HasUnpairedCounterclaim,
         SomeAssessed, SomeUnassessed, S.Counts;
    if G.ValidGraph(h, x.evidence) {
      CountersDecide(h, x.evidence);
      UntroubledIsUndisputed(x);
      WithheldCustodyIsWithheld(x.evidence);
    }
  }

  lemma WithheldCustodyIsWithheld(evidence: seq<G.Entry>)
    ensures SomeNode(evidence, WithheldCustody) ==> SomeNode(evidence, S.IsWithheld)
  {
    if i :| 0 <= i < |evidence| && WithheldCustody(evidence[i].node) {
      assert S.IsWithheld(evidence[i].node);
    }
  }

  lemma GraphIsSmall(h: Hashes, evidence: seq<G.Entry>)
    requires G.ValidGraph(h, evidence)
    ensures |evidence| <= 1024
  {
  }

  lemma AssessedMeansVerified(assessed: seq<Assessment>)
    requires forall i :: 0 <= i < |assessed| ==> assessed[i].status == Verified
    ensures forall id :: Conclusion(assessed, id) in {None, Some(Verified)}
  {
    hide Conclusion;
    forall id ensures Conclusion(assessed, id) in {None, Some(Verified)} {
      if Conclusion(assessed, id).Some? {
        var a := Assessment(id, Conclusion(assessed, id).value);
        assert a in assessed;
        var i :| 0 <= i < |assessed| && assessed[i] == a;
      }
    }
  }

  /** The stages of a report, each with the disposition its own inputs earn it. */
  ghost function StageList(h: Hashes, x: Input, time: U64, preservation: Disposition): seq<StageResult>
  {
    var graphIsValid := G.ValidGraph(h, x.evidence);
    var summary := S.Counts(x.evidence);
    [StageResult(Structure, CheckStructure(h, x)),
     StageResult(IntentStage, CheckIntent(h, x)),
     StageResult(AuthorityStage, CheckAuthority(x)),
     StageResult(Executor, CheckExecutor(x)),
     StageResult(Temporal, CheckTemporal(x, time)),
     StageResult(Replay, CheckReplay(x)),
     StageResult(EvidenceStage, CheckEvidence(x, graphIsValid, summary)),
     StageResult(ContradictionAndGap, CheckContradictions(x, graphIsValid, summary)),
     StageResult(ReceiptStage, CheckReceipt(h, x)),
     StageResult(ExternalCorroboration, CheckCorroboration(x)),
     StageResult(Custody, CheckCustody(x, graphIsValid, summary)),
     StageResult(PreservationStage, preservation)]
  }

  lemma ValidMeansAllClear(stages: seq<StageResult>)
    ensures Overall(stages) == Valid <==> forall i :: 0 <= i < |stages| ==> Clear(stages[i].disposition)
  {
  }

  lemma TwelveAreClear(stages: seq<StageResult>)
    requires |stages| == 12
    ensures Overall(stages) == Valid <==>
              && Clear(stages[0].disposition) && Clear(stages[1].disposition) && Clear(stages[2].disposition)
              && Clear(stages[3].disposition) && Clear(stages[4].disposition) && Clear(stages[5].disposition)
              && Clear(stages[6].disposition) && Clear(stages[7].disposition) && Clear(stages[8].disposition)
              && Clear(stages[9].disposition) && Clear(stages[10].disposition) && Clear(stages[11].disposition)
  {
    hide Overall, Clear;
    ValidMeansAllClear(stages);
  }

  lemma TwelveStages(h: Hashes, x: Input, time: U64, preservation: Disposition)
    requires Clear(preservation) <==> Preserved(h, x)
    ensures Overall(StageList(h, x, time, preservation)) == Valid <==> Accountable(h, x, time)
  {
    hide CheckStructure, CheckIntent, CheckAuthority, CheckExecutor, CheckTemporal, CheckReplay, CheckEvidence,
         CheckContradictions, CheckReceipt, CheckCorroboration, CheckCustody, CaseSound, EvidenceSound, Corroborated,
         Preserved, G.ValidGraph, S.Counts, Overall, Clear;
    TwelveAreClear(StageList(h, x, time, preservation));
    CaseStages(h, x, time);
    EvidenceStages(h, x);
    CorroborationStage(x);
  }

  lemma CorroborationStage(x: Input)
    ensures Clear(CheckCorroboration(x)) <==> Corroborated(x)
  {
    hide A.AssessSeal, A.AnchorField;
    if x.anchor.Some? {
      A.SealAssessmentExactlyWhen(x.anchor.value, x.attempt.reservationTokenDigest, x.mandate.intentId);
    }
  }

  // ---- When a case is refuted ----------------------------------------------------------------

  lemma CaseStagesFail(h: Hashes, x: Input, time: U64)
    ensures CaseRefuted(h, x, time) <==>
              || CheckStructure(h, x).Fails? || CheckIntent(h, x).Fails? || CheckAuthority(x).Fails?
              || CheckExecutor(x).Fails? || CheckTemporal(x, time).Fails? || CheckReplay(x).Fails?
              || CheckReceipt(h, x).Fails?
  {
    hide ValidIntent, ValidMandate, IntentId, MandateId, AttemptId, BoundTo, StatusesCover, ValidRefs,
         OutcomeConsistent, StateConsistent;
  }

  lemma EvidenceStagesFail(h: Hashes, x: Input)
    ensures var valid, summary := G.ValidGraph(h, x.evidence), S.Counts(x.evidence);
            EvidenceRefuted(h, x) <==>
              || CheckEvidence(x, valid, summary).Fails?
              || CheckContradictions(x, valid, summary).Fails?
              || CheckCustody(x, valid, summary).Fails?
  {
    hide G.ValidGraph, CanonicalAssessments, ReferencesPresent, SomeNode, HasUnpairedCounterclaim, SomeAssessed,
         SomeUnassessed, S.Counts;
  }

  lemma TwelveMayFail(stages: seq<StageResult>)
    requires |stages| == 12
    ensures Overall(stages) == Invalid <==>
              || stages[0].disposition.Fails? || stages[1].disposition.Fails? || stages[2].disposition.Fails?
              || stages[3].disposition.Fails? || stages[4].disposition.Fails? || stages[5].disposition.Fails?
              || stages[6].disposition.Fails? || stages[7].disposition.Fails? || stages[8].disposition.Fails?
              || stages[9].disposition.Fails? || stages[10].disposition.Fails? || stages[11].disposition.Fails?
  {
  }

  lemma InvalidExactlyWhenRefuted(h: Hashes, x: Input, time: U64, preservation: Disposition)
    requires preservation.Fails? <==>
               PreservationRefuted(h, x.generations, x.preservationAuthenticity, x.algorithmPolicy)
    ensures Overall(StageList(h, x, time, preservation)) == Invalid <==> Refuted(h, x, time)
  {
    hide CheckStructure, CheckIntent, CheckAuthority, CheckExecutor, CheckTemporal, CheckReplay, CheckEvidence,
         CheckContradictions, CheckReceipt, CheckCorroboration, CheckCustody, CaseRefuted, EvidenceRefuted,
         PreservationRefuted, G.ValidGraph, S.Counts, Overall;
    TwelveMayFail(StageList(h, x, time, preservation));
    CaseStagesFail(h, x, time);
    EvidenceStagesFail(h, x);
    CorroborationNeverFails(x);
  }

  // ---- Why a stage does not pass --------------------------------------------------------------

  /** What can be wrong with the objects of a case themselves, stage by stage. */
  function ObjectCauses(h: Hashes, x: Input, stage: Stage): seq<Cause>
  {
    match stage
    case Structure =>
      [Cause(Fails(MalformedStructure),
             !ValidIntent(x.intent) || !ValidMandate(x.mandate) || !ValidAttempt(h, x.attempt, x.mandate))]
    case IntentStage =>
      [Cause(Fails(IntentMismatch),
             !ValidIntent(x.intent) || IntentId(h, x.intent) != x.mandate.intentId ||
             IntentId(h, x.intent) != x.attempt.intentId)]
    case AuthorityStage =>
      [Cause(Fails(MandateInvalid), !ValidMandate(x.mandate))]
    case Executor =>
      [Cause(Fails(WrongExecutor), !ByTheExpectedExecutor(x))]
    case Replay =>
      [Cause(Fails(ReplayDetected), x.replay == Replayed),
       Cause(Indeterminate(ReplayStatusUnknown), x.replay == ReplayUnknown)]
    case ReceiptStage =>
      [Cause(Fails(ReceiptInvalid), !ValidReceipt(h, x.receipt, x.mandate, x.attempt)),
       Cause(Indeterminate(OutcomeUnknown), x.receipt.outcome == UnknownOutcome)]
    case _ => []
  }

  function TemporalCauses(x: Input, time: U64): seq<Cause>
  {
    [Cause(Fails(MandateNotYetValid), time < x.mandate.validFrom),
     Cause(Fails(MandateExpired), x.mandate.expiresAt <= time),
     Cause(Fails(MandateRevoked), x.revocation == Revoked),
     Cause(Fails(AlgorithmDisallowed), x.algorithm == SignatureDisallowed),
     Cause(Indeterminate(RevocationStatusUnknown), x.revocation == RevocationUnknown),
     Cause(Indeterminate(AlgorithmStatusUnknown), x.algorithm == SignatureUndecided)]
  }

  function CorroborationCauses(x: Input): seq<Cause>
  {
    [Cause(Unsupported(IndependentSingleUseUnverified), x.anchor.None?),
     Cause(Indeterminate(IndependentSingleUseInconsistent), !Corroborated(x))]
  }

  predicate SomeUnmet(r: ExecutionReceipt)
  {
    exists i :: 0 <= i < |r.requirementStatuses| && !r.requirementStatuses[i].satisfied
  }

  function EvidenceCauses(x: Input, graph: bool): seq<Cause>
  {
    [Cause(Fails(EvidenceInvalid), !graph || !CanonicalAssessments(x.evidence, x.authenticity)),
     Cause(Fails(EvidenceReferenceMissing), !ReferencesPresent(x.receipt, x.evidence)),
     Cause(Fails(EvidenceAuthenticityRejected), SomeAssessed(x.authenticity, Rejected)),
     Cause(Indeterminate(RequiredEvidenceMissing), SomeUnmet(x.receipt) || SomeNode(x.evidence, S.IsGap)),
     Cause(Indeterminate(EvidenceAuthenticityUnknown),
           SomeAssessed(x.authenticity, Unknown) || SomeUnassessed(x.evidence, x.authenticity)),
     Cause(Indeterminate(SelectiveDisclosureLimitsEvaluation), SomeNode(x.evidence, S.IsWithheld))]
  }

  function ContradictionCauses(x: Input, graph: bool): seq<Cause>
  {
    [Cause(Fails(EvidenceInvalid), !graph),
     Cause(Indeterminate(ContradictoryEvidenceOmitted), HasUnpairedCounterclaim(x.evidence)),
     Cause(Indeterminate(ConflictingEvidencePreserved), SomeNode(x.evidence, S.IsContradiction)),
     Cause(Indeterminate(RequiredEvidenceMissing), SomeNode(x.evidence, S.IsGap))]
  }

  function CustodyCauses(x: Input, graph: bool): seq<Cause>
  {
    [Cause(Fails(EvidenceInvalid), !graph),
     Cause(Unsupported(CustodyEvidenceAbsent), !SomeNode(x.evidence, S.IsCustody)),
     Cause(Indeterminate(CustodyDisclosureLimited), SomeNode(x.evidence, WithheldCustody))]
  }

  /** What can be wrong with a stage's part of the input, in the order it is looked for. */
  ghost function CausesOf(h: Hashes, x: Input, time: U64, stage: Stage): seq<Cause>
  {
    match stage
    case Temporal => TemporalCauses(x, time)
    case EvidenceStage => EvidenceCauses(x, G.ValidGraph(h, x.evidence))
    case ContradictionAndGap => ContradictionCauses(x, G.ValidGraph(h, x.evidence))
    case ExternalCorroboration => CorroborationCauses(x)
    case Custody => CustodyCauses(x, G.ValidGraph(h, x.evidence))
    case PreservationStage =>
      PreservationCauses(h, x.generations, x.preservationAuthenticity, x.algorithmPolicy)
    case _ => ObjectCauses(h, x, stage)
  }

  lemma ObjectsExplained(h: Hashes, x: Input)
    ensures Explains(ObjectCauses(h, x, Structure), CheckStructure(h, x))
    ensures Explains(ObjectCauses(h, x, IntentStage), CheckIntent(h, x))
    ensures Explains(ObjectCauses(h, x, AuthorityStage), CheckAuthority(x))
    ensures Explains(ObjectCauses(h, x, Executor), CheckExecutor(x))
    ensures Explains(ObjectCauses(h, x, Replay), CheckReplay(x))
    ensures Explains(ObjectCauses(h, x, ReceiptStage), CheckReceipt(h, x))
  {
    hide ValidIntent, ValidMandate, ValidAttempt, ValidReceipt, IntentId, Explains;
    PickExplains(ObjectCauses(h, x, Structure));
    PickExplains(ObjectCauses(h, x, IntentStage));
    PickExplains(ObjectCauses(h, x, AuthorityStage));
    PickExplains(ObjectCauses(h, x, Executor));
    PickExplains(ObjectCauses(h, x, Replay));
    PickExplains(ObjectCauses(h, x, ReceiptStage));
  }

  lemma TemporalExplained(x: Input, time: U64)
    ensures Explains(TemporalCauses(x, time), CheckTemporal(x, time))
  {
    hide Explains;
    PickExplains(TemporalCauses(x, time));
  }

  lemma CorroborationExplained(x: Input)
    ensures Explains(CorroborationCauses(x), CheckCorroboration(x))
  {
    hide A.AssessSeal, Corroborated, Explains;
    CorroborationStage(x);
    PickExplains(CorroborationCauses(x));
  }

  lemma EvidenceExplained(x: Input, graph: bool, summary: S.Summary)
    requires graph ==> Counted(x.evidence, summary)
    ensures Explains(EvidenceCauses(x, graph), CheckEvidence(x, graph, summary))
  {
    hide CanonicalAssessments, ReferencesPresent, SomeNode, SomeAssessed, SomeUnassessed, Explains;
    PickExplains(EvidenceCauses(x, graph));
  }

  lemma ContradictionsExplained(x: Input, graph: bool, summary: S.Summary)
    requires graph ==> Counted(x.evidence, summary)
    ensures Explains(ContradictionCauses(x, graph), CheckContradictions(x, graph, summary))
  {
    hide SomeNode, HasUnpairedCounterclaim, Explains;
    PickExplains(ContradictionCauses(x, graph));
  }

  lemma CustodyExplained(x: Input, graph: bool, summary: S.Summary)
    requires graph ==> Counted(x.evidence, summary)
    ensures Explains(CustodyCauses(x, graph), CheckCustody(x, graph, summary))
  {
    hide SomeNode, Explains;
    PickExplains(CustodyCauses(x, graph));
  }

  /** Every stage of a report gives the first cause its part of the input gives. */
  lemma StageExplained(h: Hashes, x: Input, time: U64, preservation: Disposition, i: nat)
    requires i < 12
    requires Explains(PreservationCauses(h, x.generations, x.preservationAuthenticity, x.algorithmPolicy), preservation)
    ensures Explains(CausesOf(h, x, time, STAGE_ORDER[i]), StageList(h, x, time, preservation)[i].disposition)
  {
    hide CheckStructure, CheckIntent, CheckAuthority, CheckExecutor, CheckTemporal, CheckReplay, CheckEvidence,
         CheckContradictions, CheckReceipt, CheckCorroboration, CheckCustody, ObjectCauses, TemporalCauses,
         CorroborationCauses, EvidenceCauses, ContradictionCauses, CustodyCauses, PreservationCauses, Explains,
         Counted, S.Counts, G.ValidGraph;
    var graph, summary := G.ValidGraph(h, x.evidence), S.Counts(x.evidence);
    assert graph ==> Counted(x.evidence, summary) by {
      if graph { CountersDecide(h, x.evidence); }
    }
    ObjectsExplained(h, x);
    TemporalExplained(x, time);
    CorroborationExplained(x);
    EvidenceExplained(x, graph, summary);
    ContradictionsExplained(x, graph, summary);
    CustodyExplained(x, graph, summary);
  }

  // ---- The method -----------------------------------------------------------------------------

  /** The twelve stages, pushed in their stable order. */
  method RunStages(h: Hashes, x: Input, time: U64) returns (stages: seq<StageResult>, summary: S.Summary)
    ensures summary == S.Counts(x.evidence)
    ensures |stages| == 12 && stages == StageList(h, x, time, stages[11].disposition)
    ensures Clear(stages[11].disposition) <==> Preserved(h, x)
    ensures stages[11].disposition.Fails? <==>
              PreservationRefuted(h, x.generations, x.preservationAuthenticity, x.algorithmPolicy)
    ensures Explains(PreservationCauses(h, x.generations, x.preservationAuthenticity, x.algorithmPolicy),
                     stages[11].disposition)
  {
    hide CheckStructure, CheckIntent, CheckAuthority, CheckExecutor, CheckTemporal, CheckReplay, CheckEvidence,
         CheckContradictions, CheckReceipt, CheckCorroboration, CheckCustody, S.Counts, G.ValidGraph, G.Acyclic,
         G.Resolves, G.WalksBounded, G.UniqueIds, WellFormed, AllVerified, AllAllowed, SomeAre, Conclusion,
         G.Structured, G.FirstFaultIsInvalid, G.FirstFaultIsUnbounded, G.FirstFaultIsMisnamed, G.Identified,
         G.CustodyLinked, PreservationRefuted, PreservationCauses, Explains;
    stages := [StageResult(Structure, CheckStructure(h, x))];
    stages := stages + [StageResult(IntentStage, CheckIntent(h, x))];
    stages := stages + [StageResult(AuthorityStage, CheckAuthority(x))];
    stages := stages + [StageResult(Executor, CheckExecutor(x))];
    stages := stages + [StageResult(Temporal, CheckTemporal(x, time))];
    stages := stages + [StageResult(Replay, CheckReplay(x))];
    summary := S.Summarize(x.evidence);
    var graph := G.ValidateEvidenceGraph(h, x.evidence);
    stages := stages + [StageResult(EvidenceStage, CheckEvidence(x, graph.Ok?, summary))];
    stages := stages + [StageResult(ContradictionAndGap, CheckContradictions(x, graph.Ok?, summary))];
    stages := stages + [StageResult(ReceiptStage, CheckReceipt(h, x))];
    stages := stages + [StageResult(ExternalCorroboration, CheckCorroboration(x))];
    stages := stages + [StageResult(Custody, CheckCustody(x, graph.Ok?, summary))];
    var preservation := AssessPreservation(h, x.generations, x.preservationAuthenticity, x.algorithmPolicy);
    stages := stages + [StageResult(PreservationStage, preservation)];
  }

  lemma StageListIsInOrder(h: Hashes, x: Input, time: U64, preservation: Disposition)
    ensures var stages := StageList(h, x, time, preservation);
            && |stages| == |STAGE_ORDER|
            && (forall i :: 0 <= i < |stages| ==> stages[i].stage == STAGE_ORDER[i])
            && !stages[9].disposition.Fails?
  {
    hide CheckStructure, CheckIntent, CheckAuthority, CheckExecutor, CheckTemporal, CheckReplay, CheckEvidence,
         CheckContradictions, CheckReceipt, CheckCorroboration, CheckCustody, S.Counts, G.ValidGraph;
    CorroborationNeverFails(x);
  }

  method Verify(h: Hashes, context: C.VerificationContext, x: Input)
      returns (r: Result<C.Bound<Report>, C.ContextError>)
    ensures r.Ok? <==> C.ValidContext(context)
    ensures r.Err? ==> Err(r.error) == C.ValidateContext(context)
    ensures r.Ok? ==>
              && r.value.contextId == C.ContextId(h, context)
              && Complete(r.value.result)
              && r.value.result.summary == S.Counts(x.evidence)
              && r.value.result.evaluationTime == context.evaluationTime
              && r.value.result.revocationSnapshotDigest == context.revocationSnapshotDigest
              && r.value.result.algorithmPolicyDigest == context.algorithmPolicyDigest
              && r.value.result.stages == StageList(h, x, context.evaluationTime, r.value.result.stages[11].disposition)
              && (r.value.result.verdict == Valid <==> Accountable(h, x, context.evaluationTime))
              && (r.value.result.verdict == Invalid <==> Refuted(h, x, context.evaluationTime))
              && (forall i :: 0 <= i < |r.value.result.stages| ==>
                    Explains(CausesOf(h, x, context.evaluationTime, STAGE_ORDER[i]),
                             r.value.result.stages[i].disposition))
  {
    hide StageList, Overall, Accountable, Refuted, CausesOf, Explains, Preserved, PreservationRefuted,
         PreservationCauses, C.ValidateContext, C.ContextId, S.Counts;
    var stages, summary := RunStages(h, x, context.evaluationTime);
    StageListIsInOrder(h, x, context.evaluationTime, stages[11].disposition);
    TwelveStages(h, x, context.evaluationTime, stages[11].disposition);
    InvalidExactlyWhenRefuted(h, x, context.evaluationTime, stages[11].disposition);
    forall i | 0 <= i < 12
      ensures Explains(CausesOf(h, x, context.evaluationTime, STAGE_ORDER[i]), stages[i].disposition)
    {
      StageExplained(h, x, context.evaluationTime, stages[11].disposition, i);
    }
    var report := Report(Overall(stages), stages, summary, context.evaluationTime,
                         context.revocationSnapshotDigest, context.algorithmPolicyDigest);
    match C.ValidateContext(context) {
      case Ok(_) => r := Ok(C.Bound(C.ContextId(h, context), report));
      case Err(e) => r := Err(e);
    }
  }

  lemma CorroborationNeverFails(x: Input)
    ensures !CheckCorroboration(x).Fails?
  {
  }

  /** A requirement of the mandate, met by a node the graph contains. */
  predicate Backed(x: Input, k: nat)
  {
    && k < |x.mandate.evidenceRequirements| == |x.receipt.requirementStatuses|
    && Meets(x, x.receipt.requirementStatuses[k], x.mandate.evidenceRequirements[k])
  }

  predicate Meets(x: Input, status: RequirementStatus, requirement: Requirement)
  {
    && status.registryId == requirement.registryId && status.parametersDigest == requirement.parametersDigest
    && exists i, j :: 0 <= i < |status.evidenceRefs| && 0 <= j < |x.evidence| &&
        x.evidence[j].id == status.evidenceRefs[i]
  }

  lemma RequirementsAreBacked(h: Hashes, x: Input, time: U64, k: nat)
    requires Accountable(h, x, time) && k < |x.mandate.evidenceRequirements|
    ensures |x.receipt.requirementStatuses| == |x.mandate.evidenceRequirements| && Backed(x, k)
  {
    hide G.ValidGraph, ValidIntent, ValidAttempt, BoundTo, ValidMandate, IntentId, OutcomeConsistent, ValidRefs,
         CanonicalAssessments, Undisputed, Corroborated, Preserved;
    var status := x.receipt.requirementStatuses[k];
    assert Covers(status, x.mandate.evidenceRequirements[k]);
    assert AllPresent(x.evidence, status.evidenceRefs);
    assert Present(x.evidence, status.evidenceRefs[0]);
  }

  /**
    A valid verdict reaches across every layer: identifiers bind receipt to attempt to
    mandate to intent, the mandate is in force, every requirement is backed by a node of an
    acyclic graph, and the attempt reached a definite state.
   */
  lemma ValidVerdictMeans(h: Hashes, x: Input, time: U64)
    requires Accountable(h, x, time)
    ensures x.receipt.attemptId == AttemptId(h, x.attempt) && x.attempt.mandateId == MandateId(h, x.mandate)
    ensures x.receipt.mandateId == x.attempt.mandateId &&
        x.receipt.intentId == x.mandate.intentId == IntentId(h, x.intent)
    ensures x.mandate.validFrom <= time < x.mandate.expiresAt
    ensures x.anchor.Some? ==>
              && x.anchor.value.nullifier == x.attempt.reservationTokenDigest
              && x.anchor.value.commitment == IntentId(h, x.intent)
    ensures G.ValidGraph(h, x.evidence) && G.Acyclic(x.evidence)
    ensures |x.receipt.requirementStatuses| == |x.mandate.evidenceRequirements| > 0
    ensures forall k :: 0 <= k < |x.mandate.evidenceRequirements| ==> Backed(x, k)
    ensures forall id: Digest :: Names(x.receipt, id) ==> Present(x.evidence, id)
    ensures x.attempt.state in {MS.Accepted, MS.ReconciledAccepted, MS.Rejected}
  {
    hide ValidIntent, IntentId, MandateId, AttemptId, StateConsistent, ValidRefs, Covers, CanonicalAssessments,
         ReferencesPresent, Undisputed, A.AnchorField, Preserved, Backed, G.WalksBounded, G.Resolves, G.Acyclic,
         G.UniqueIds, Names, Present;
    G.BoundedWalksAreAcyclic(x.evidence);
    ReferencesPresentExactlyWhen(x.receipt, x.evidence);
    forall k | 0 <= k < |x.mandate.evidenceRequirements|
      ensures |x.receipt.requirementStatuses| == |x.mandate.evidenceRequirements| && Backed(x, k)
    {
      RequirementsAreBacked(h, x, time, k);
    }
  }

  /** Under a valid verdict the whole renewal history is verified, and all it ever relied on is allowed. */
  lemma ValidVerdictCoversTheHistory(h: Hashes, x: Input, time: U64, i: nat)
    requires Accountable(h, x, time) && i < |x.generations|
    ensures Conclusion(x.preservationAuthenticity, x.generations[i].id) == Some(Verified)
    ensures AllAllowed(x.generations[i].envelope.algorithmIds, x.algorithmPolicy)
    ensures x.generations[i].envelope.originalBytes == x.generations[0].envelope.originalBytes
  {
    hide CaseSound, EvidenceSound, ValidChain, AllVerified, AllAllowed, Conclusion;
    PassCoversTheWholeHistory(h, x.generations, x.preservationAuthenticity, x.algorithmPolicy, i);
  }

  function CaseOf(x: Input): Case { Case(x.intent, x.mandate, x.attempt, x.receipt) }

  /**
    Two valid verdicts on one receipt identifier are about one receipt, attempt and mandate,
    and about one intent as soon as one of the two is short, unless a hash collides.
   */
  lemma ValidVerdictsShareTheirCase(h: Hashes, x: Input, s: U64, y: Input, t: U64)
    requires Accountable(h, x, s) && Accountable(h, y, t) && ReceiptId(h, x.receipt) == ReceiptId(h, y.receipt)
    ensures
      || (x.receipt == y.receipt && x.attempt == y.attempt && x.mandate == y.mandate)
      || LineagesCollide(h, x.receipt, x.attempt, x.mandate, y.receipt, y.attempt, y.mandate)
    ensures Short(x.intent) ==> CaseOf(x) == CaseOf(y) || CollisionBetween(h, CaseOf(x), CaseOf(y))
  {
    hide EvidenceSound, Corroborated, Preserved, ValidReceipt, ValidIntent, Short, IntentId, ReceiptId,
         CollisionBetween, LineagesCollide;
    ReceiptIdCommitsToTheLineage(h, x.receipt, x.mandate, x.attempt, y.receipt, y.mandate, y.attempt);
    if Short(x.intent) {
      ReceiptIdCommitsToTheCase(h, CaseOf(x), CaseOf(y));
    }
  }
}
