/**
  Execution receipts (csv-accountability/src/receipt.rs). Receipts are encoded and
  identified but never decoded; integers are big-endian.
 */
module Receipt {
  import opened Bytes
  import opened Text
  import opened Wire
  import opened Hashing
  import opened Writers
  import opened Mandate
  import opened MandateState
  import opened Execution

  const MAX_RECEIPT_EVIDENCE_ITEMS: nat := 128
  const MAX_RECEIPT_REGISTRY_ID_BYTES: nat := 128
  const MAX_RECEIPT_SIGNATURE_BYTES: nat := 8192
  const MAX_PRODUCER_IDENTITY_BYTES: nat := 512

  datatype Outcome = Succeeded | Failed | RejectedOutcome | UnknownOutcome

  datatype RequirementStatus = RequirementStatus(
    registryId: Text, parametersDigest: Digest, satisfied: bool, evidenceRefs: seq<Digest>)

  datatype ExecutionReceipt = ExecutionReceipt(
    protocolMajor: U16,
    protocolMinor: U16,
    receiptVersion: ObjectVersion,
    mandateId: Digest,
    mandateDigest: Digest,
    intentId: Digest,
    attemptId: Digest,
    executorIdentity: Bytes,
    mandateRevision: U64,
    journalEntryDigest: Digest,
    dispatchEvidenceRefs: seq<Digest>,
    targetEvidenceRefs: seq<Digest>,
    startedAt: U64,
    completedAt: Option<U64>,
    outcome: Outcome,
    resultCommitment: Option<Digest>,
    requirementStatuses: seq<RequirementStatus>,
    producerIdentity: Bytes,
    producerSignature: Bytes)

  // ---- Validation ---------------------------------------------------------------

  predicate ValidRefs(refs: seq<Digest>)
  {
    |refs| <= MAX_RECEIPT_EVIDENCE_ITEMS && Ascending(refs)
  }

  /** The reported outcome agrees with the attempt's projection. */
  predicate OutcomeConsistent(r: ExecutionReceipt, a: ExecutionAttempt)
  {
    match r.outcome
    case Succeeded | Failed => a.state in {Accepted, ReconciledAccepted} && r.completedAt.Some?
    case RejectedOutcome => a.state == Rejected && r.completedAt.Some? && r.resultCommitment.None?
    case UnknownOutcome => a.state in {OutcomeAmbiguous, AbandonedAmbiguous}
  }

  datatype ReceiptError =
    | UnsupportedReceiptVersion | InvalidAttempt | ReceiptBindingMismatch | OutcomeMismatch | InvalidReceiptField
    | InvalidEvidenceRequirements

  /** Status and requirement agree, and a requirement is met exactly when evidence is named. */
  predicate Answers(s: RequirementStatus, q: Requirement)
  {
    && s.registryId == q.registryId
    && s.parametersDigest == q.parametersDigest
    && 0 < |s.registryId| <= MAX_RECEIPT_REGISTRY_ID_BYTES
    && (s.satisfied <==> s.evidenceRefs != [])
  }

  predicate Covers(s: RequirementStatus, q: Requirement)
  {
    Answers(s, q) && ValidRefs(s.evidenceRefs)
  }

  predicate StatusesCover(statuses: seq<RequirementStatus>, requirements: seq<Requirement>)
  {
    && |statuses| == |requirements| <= MAX_RECEIPT_EVIDENCE_ITEMS
    && forall i :: 0 <= i < |statuses| ==> Covers(statuses[i], requirements[i])
  }

  predicate FirstUncovered(statuses: seq<RequirementStatus>, requirements: seq<Requirement>, i: nat)
  {
    && i < |statuses| == |requirements| && !Covers(statuses[i], requirements[i])
    && forall j :: 0 <= j < i ==> Covers(statuses[j], requirements[j])
  }

  /** The first status that fails does so by its references alone. */
  predicate FirstFailsByItsReferences(statuses: seq<RequirementStatus>, requirements: seq<Requirement>)
  {
    exists i :: 0 <= i < |statuses| && FirstUncovered(statuses, requirements, i) &&
        Answers(statuses[i], requirements[i])
  }

  method ValidateRequirementStatuses(statuses: seq<RequirementStatus>, requirements: seq<Requirement>)
      returns (r: Result<(), ReceiptError>)
    ensures r.Ok? <==> StatusesCover(statuses, requirements)
    ensures r == Err(InvalidReceiptField) <==>
              |statuses| <= MAX_RECEIPT_EVIDENCE_ITEMS && FirstFailsByItsReferences(statuses, requirements)
    ensures r.Err? ==> r.error in {InvalidReceiptField, InvalidEvidenceRequirements}
  {
    hide ValidRefs;
    if |statuses| != |requirements| || |statuses| > MAX_RECEIPT_EVIDENCE_ITEMS {
      return Err(InvalidEvidenceRequirements);
    }
    for i := 0 to |statuses|
      invariant forall j :: 0 <= j < i ==> Covers(statuses[j], requirements[j])
    {
      var s, q := statuses[i], requirements[i];
      if s.registryId != q.registryId
         || s.parametersDigest != q.parametersDigest
         || s.registryId == []
         || |s.registryId| > MAX_RECEIPT_REGISTRY_ID_BYTES
         || (s.satisfied && s.evidenceRefs == [])
         || (!s.satisfied && s.evidenceRefs != [])
      {
        assert FirstUncovered(statuses, requirements, i);
        return Err(InvalidEvidenceRequirements);
      }
      if !ValidRefs(s.evidenceRefs) {
        assert FirstUncovered(statuses, requirements, i);
        return Err(InvalidReceiptField);
      }
    }
    return Ok(());
  }

  predicate BoundTo(h: Hashes, r: ExecutionReceipt, a: ExecutionAttempt)
  {
    && r.mandateId == a.mandateId
    && r.mandateDigest == a.mandateDigest
    && r.intentId == a.intentId
    && r.attemptId == AttemptId(h, a)
    && r.executorIdentity == a.executorIdentity
    && r.startedAt == a.startedAt
  }

  predicate NotCompletedEarly(r: ExecutionReceipt)
  {
    r.completedAt.Some? ==> r.startedAt <= r.completedAt.value
  }

  predicate ValidReceipt(h: Hashes, r: ExecutionReceipt, m: ActionMandate, a: ExecutionAttempt)
  {
    && r.protocolMajor == PROTOCOL_MAJOR && r.protocolMinor == PROTOCOL_MINOR
    && r.receiptVersion == OBJECT_VERSION
    && ValidAttempt(h, a, m)
    && BoundTo(h, r, a)
    && 0 < |r.producerIdentity| <= MAX_PRODUCER_IDENTITY_BYTES
    && 0 < |r.producerSignature| <= MAX_RECEIPT_SIGNATURE_BYTES
    && r.journalEntryDigest != ZERO
    && NotCompletedEarly(r)
    && r.resultCommitment != Some(ZERO)
    && OutcomeConsistent(r, a)
    && ValidRefs(r.dispatchEvidenceRefs)
    && ValidRefs(r.targetEvidenceRefs)
    && StatusesCover(r.requirementStatuses, m.evidenceRequirements)
  }

  // ---- Layout -------------------------------------------------------------------

  function OutcomeTag(o: Outcome): Byte
  {
    match o
    case Succeeded => 0
    case Failed => 1
    case RejectedOutcome => 2
    case UnknownOutcome => 3
  }

  predicate BoundedStatus(s: RequirementStatus) { |s.registryId| <= NO_LIMIT && |s.evidenceRefs| <= NO_LIMIT }

  function PushStatus(s: RequirementStatus, tail: Bytes): (b: Bytes)
    ensures BoundedStatus(s) ==> ReadStatus(b) == Got(s, tail)
  {
    PushText(Big, s.registryId,
        PushDigest(s.parametersDigest, PushBool(s.satisfied, PushDigests(s.evidenceRefs, tail))))
  }

  /** The inverse of `PushStatus`; the source has no receipt decoder, so only proofs use it. */
  function ReadStatus(b: Bytes): Parsed<RequirementStatus>
  {
    var (id, b) :- ReadText(Big, NO_LIMIT, b);
    var (d, b) :- ReadDigest(b);
    var (satisfied, b) :- ReadBool(b);
    var (refs, b) :- ReadDigests(NO_LIMIT, b);
    Got(RequirementStatus(id, d, satisfied, refs), b)
  }

  predicate BoundedStatuses(vs: seq<RequirementStatus>)
  {
    |vs| <= NO_LIMIT && forall i :: 0 <= i < |vs| ==> BoundedStatus(vs[i])
  }

  function PushStatuses(vs: seq<RequirementStatus>, tail: Bytes): (b: Bytes)
    ensures BoundedStatuses(vs) ==> ReadList(Big, NO_LIMIT, ReadStatus, b) == Got(vs, tail)
  {
    var b := PushList(Big, PushStatus, vs, tail);
    assert BoundedStatuses(vs) ==> ReadList(Big, NO_LIMIT, ReadStatus, b) == Got(vs, tail) by {
      if BoundedStatuses(vs) {
        ReadPushedList(Big, NO_LIMIT, ReadStatus, PushStatus, BoundedStatus, vs, tail);
      }
    }
    b
  }

  function PushReceipt(r: ExecutionReceipt, tail: Bytes): Bytes
  {
    PushU16(Big, r.protocolMajor,
    PushU16(Big, r.protocolMinor,
    PushU16(Big, r.receiptVersion,
    PushDigest(r.mandateId,
    PushDigest(r.mandateDigest,
    PushDigest(r.intentId,
    PushDigest(r.attemptId,
    PushBytes(Big, r.executorIdentity,
    PushU64(Big, r.mandateRevision,
    PushDigest(r.journalEntryDigest,
    PushDigests(r.dispatchEvidenceRefs,
    PushDigests(r.targetEvidenceRefs,
    PushU64(Big, r.startedAt,
    PushOptionU64(r.completedAt,
    PushByte(OutcomeTag(r.outcome),
    PushOptionDigest(r.resultCommitment,
    PushStatuses(r.requirementStatuses,
    PushBytes(Big, r.producerIdentity,
    PushBytes(Big, r.producerSignature, tail)))))))))))))))))))
  }

  function ReceiptBytes(r: ExecutionReceipt): Bytes
  {
    PushReceipt(r, [])
  }

  method EncodeReceipt(h: Hashes, x: ExecutionReceipt, m: ActionMandate, a: ExecutionAttempt) returns (r: Option<Bytes>)
    ensures r == if ValidReceipt(h, x, m, a) then Some(ReceiptBytes(x)) else None
  {
    hide PushU16, PushDigest, PushDigests, PushBytes, PushU64, PushOptionU64, PushOptionDigest, PushByte, PushStatuses;
    hide ReadU16, ReadDigest, ReadBytes, ReadU64, ReadOptionU64, ReadOptionDigest, ReadByte, ReadList, BoundedStatuses,
         OutcomeTag, ValidReceipt;
    if !ValidReceipt(h, x, m, a) {
      return None;
    }
    ValidReceiptIsBounded(h, x, m, a);
    var w := new Writer(Big, ReceiptBytes(x));
    w.U16(x.protocolMajor);
    w.U16(x.protocolMinor);
    w.U16(x.receiptVersion);
    w.Digest(x.mandateId);
    w.Digest(x.mandateDigest);
    w.Digest(x.intentId);
    w.Digest(x.attemptId);
    w.Bytes(x.executorIdentity);
    w.U64(x.mandateRevision);
    w.Digest(x.journalEntryDigest);
    w.Digests(x.dispatchEvidenceRefs);
    w.Digests(x.targetEvidenceRefs);
    w.U64(x.startedAt);
    w.OptionU64(x.completedAt);
    w.Byte(OutcomeTag(x.outcome));
    w.OptionDigest(x.resultCommitment);
    EncodeStatuses(w, x.requirementStatuses);
    w.Bytes(x.producerIdentity);
    w.Bytes(x.producerSignature);
    var bytes := w.Finish();
    return Some(bytes);
  }

  method EncodeStatuses(w: Writer, statuses: seq<RequirementStatus>)
    requires w.order == Big && w.Valid() && BoundedStatuses(statuses)
    requires Next(ReadList(Big, NO_LIMIT, ReadStatus, w.rest), statuses)
    modifies w`out, w`rest
    ensures w.Valid() && w.rest == ReadList(Big, NO_LIMIT, ReadStatus, old(w.rest)).rest
  {
    hide ReadU32, ReadStatus, Utf8;
    w.U32(LengthPrefix(|statuses|));
    ghost var start := w.rest;
    for i := 0 to |statuses|
      invariant w.Valid()
      invariant ReadAll(ReadStatus, i, start) == Got(statuses[..i], w.rest)
    {
      ReadAllStep(ReadStatus, i, statuses, start);
      EncodeStatus(w, statuses[i]);
    }
    assert statuses[..|statuses|] == statuses;
  }

  method EncodeStatus(w: Writer, s: RequirementStatus)
    requires w.order == Big && w.Valid() && BoundedStatus(s) && Next(ReadStatus(w.rest), s)
    modifies w`out, w`rest
    ensures w.Valid() && w.rest == ReadStatus(old(w.rest)).rest
  {
    hide ReadText, ReadDigest, ReadBool, ReadList, Utf8;
    w.Text(s.registryId);
    w.Digest(s.parametersDigest);
    w.Bool(s.satisfied);
    w.Digests(s.evidenceRefs);
  }

  predicate BoundedReceipt(r: ExecutionReceipt)
  {
    && |r.executorIdentity| <= NO_LIMIT
    && |r.dispatchEvidenceRefs| <= NO_LIMIT
    && |r.targetEvidenceRefs| <= NO_LIMIT
    && BoundedStatuses(r.requirementStatuses)
    && |r.producerIdentity| <= NO_LIMIT
    && |r.producerSignature| <= NO_LIMIT
  }

  lemma ReceiptBytesInjective(r: ExecutionReceipt, s: ExecutionReceipt)
    requires BoundedReceipt(r) && BoundedReceipt(s) && ReceiptBytes(r) == ReceiptBytes(s)
    ensures r == s
  {
    hide PushU16, PushDigest, PushDigests, PushBytes, PushU64, PushOptionU64, PushOptionDigest, PushByte, PushStatuses;
    hide ReadU16, ReadDigest, ReadDigests, ReadBytes, ReadU64, ReadOptionU64, ReadOptionDigest, ReadByte, ReadList,
         BoundedStatuses;
  }

  lemma ValidReceiptIsBounded(h: Hashes, r: ExecutionReceipt, m: ActionMandate, a: ExecutionAttempt)
    requires ValidReceipt(h, r, m, a)
    ensures BoundedReceipt(r)
  {
    hide ValidMandate, MandateId, AttemptId, Ascending, StateConsistent, OutcomeConsistent, Utf8;
  }

  function ReceiptId(h: Hashes, r: ExecutionReceipt): Digest
  {
    h.Id(ReceiptDomain, ReceiptBytes(r))
  }

  lemma ReceiptIdCommits(h: Hashes,
                         r: ExecutionReceipt, m: ActionMandate, a: ExecutionAttempt,
                         s: ExecutionReceipt, n: ActionMandate, b: ExecutionAttempt)
    requires ValidReceipt(h, r, m, a) && ValidReceipt(h, s, n, b) && ReceiptId(h, r) == ReceiptId(h, s)
    ensures r == s || h.Collides(ReceiptDomain, ReceiptBytes(r), ReceiptBytes(s))
  {
    hide ReceiptBytes, ValidReceipt;
    ValidReceiptIsBounded(h, r, m, a);
    ValidReceiptIsBounded(h, s, n, b);
    if ReceiptBytes(r) == ReceiptBytes(s) { ReceiptBytesInjective(r, s); }
  }

  // ---- Outcome and mandate ---------------------------------------------------------

  /**
    The reported outcome fixes the mandate's final state, for a valid receipt and an
    accepted journal whose last entry carries the attempt's projection.
   */
  lemma OutcomeFixesTheMandate(
    h: Hashes, r: ExecutionReceipt, m: ActionMandate, a: ExecutionAttempt,
    initial: State, revision: U64, entries: seq<JournalEntry>)
    requires ValidReceipt(h, r, m, a)
    requires AcceptedJournal(a.mandateId, initial, revision, entries) && entries != []
    requires entries[|entries| - 1].attempt == Some(a.state)
    ensures match r.outcome
            case Succeeded | Failed => StateAfter(initial, entries) == Consumed
            case RejectedOutcome => StateAfter(initial, entries) == Released && entries[|entries| - 1].from == Reserved
            case UnknownOutcome =>
              StateAfter(initial, entries) == if a.state == OutcomeAmbiguous then Quarantined else Abandoned
  {
    hide ValidAttempt, BoundTo, StatusesCover, ValidRefs, ValidateNonAcceptance;
    assert CheckAt(a.mandateId, initial, revision, entries, |entries| - 1).Ok?;
  }
}
