/**
  Execution attempts (csv-accountability/src/execution.rs). Attempts are encoded and
  identified but never decoded; integers are big-endian.
 */
module Execution {
  import opened Bytes
  import opened Text
  import opened Wire
  import opened Hashing
  import opened Writers
  import opened Mandate
  import opened MandateState

  const MAX_EXECUTION_IDENTITY_BYTES: nat := 512
  const MAX_CORRELATION_KEY_BYTES: nat := 1024

  datatype ExecutionAttempt = ExecutionAttempt(
    protocolMajor: U16,
    protocolMinor: U16,
    attemptVersion: ObjectVersion,
    mandateId: Digest,
    mandateDigest: Digest,
    intentId: Digest,
    reservationTokenDigest: Digest,
    executorIdentity: Bytes,
    correlationKey: Bytes,
    startedAt: U64,
    dispatchBoundaryAt: Option<U64>,
    providerRequestDigest: Digest,
    providerResponseDigest: Option<Digest>,
    state: AttemptState)

  /** Whether dispatch and response are recorded exactly as the attempt's state requires. */
  predicate StateConsistent(a: ExecutionAttempt)
  {
    match a.state
    case Prepared => a.dispatchBoundaryAt.None? && a.providerResponseDigest.None?
    case Dispatching | OutcomeAmbiguous => a.dispatchBoundaryAt.Some? && a.providerResponseDigest.None?
    case Accepted | Rejected | ReconciledAccepted | ReconciledNotAccepted =>
      a.dispatchBoundaryAt.Some? && a.providerResponseDigest.Some?
    case AbandonedAmbiguous => a.dispatchBoundaryAt.Some?
  }

  predicate ValidAttempt(h: Hashes, a: ExecutionAttempt, m: ActionMandate)
  {
    && a.protocolMajor == PROTOCOL_MAJOR && a.protocolMinor == PROTOCOL_MINOR
    && a.attemptVersion == OBJECT_VERSION
    && ValidMandate(m)
    && a.mandateId == MandateId(h, m)
    && a.mandateDigest == a.mandateId
    && a.intentId == m.intentId
    && 0 < |a.executorIdentity| <= MAX_EXECUTION_IDENTITY_BYTES
    && 0 < |a.correlationKey| <= MAX_CORRELATION_KEY_BYTES
    && a.reservationTokenDigest != ZERO && a.providerRequestDigest != ZERO
    && (a.dispatchBoundaryAt.Some? ==> a.startedAt <= a.dispatchBoundaryAt.value)
    && StateConsistent(a)
  }

  function StateTag(s: AttemptState): Byte
  {
    match s
    case Prepared => 0
    case Dispatching => 1
    case Accepted => 2
    case Rejected => 3
    case OutcomeAmbiguous => 4
    case ReconciledAccepted => 5
    case ReconciledNotAccepted => 6
    case AbandonedAmbiguous => 7
  }

  function PushAttempt(a: ExecutionAttempt, tail: Bytes): Bytes
  {
    PushU16(Big, a.protocolMajor,
    PushU16(Big, a.protocolMinor,
    PushU16(Big, a.attemptVersion,
    PushDigest(a.mandateId,
    PushDigest(a.mandateDigest,
    PushDigest(a.intentId,
    PushDigest(a.reservationTokenDigest,
    PushBytes(Big, a.executorIdentity,
    PushBytes(Big, a.correlationKey,
    PushU64(Big, a.startedAt,
    PushOptionU64(a.dispatchBoundaryAt,
    PushDigest(a.providerRequestDigest,
    PushOptionDigest(a.providerResponseDigest,
    PushByte(StateTag(a.state), tail))))))))))))))
  }

  function AttemptBytes(a: ExecutionAttempt): Bytes
  {
    PushAttempt(a, [])
  }

  method EncodeAttempt(h: Hashes, a: ExecutionAttempt, m: ActionMandate) returns (r: Option<Bytes>)
    ensures r == if ValidAttempt(h, a, m) then Some(AttemptBytes(a)) else None
  {
    hide PushU16, PushDigest, PushBytes, PushU64, PushOptionU64, PushOptionDigest, PushByte, ValidMandate, MandateId,
         StateConsistent;
    hide ReadU16, ReadDigest, ReadBytes, ReadU64, ReadOptionU64, ReadOptionDigest, ReadByte, StateTag;
    if !ValidAttempt(h, a, m) {
      return None;
    }
    var w := new Writer(Big, AttemptBytes(a));
    w.U16(a.protocolMajor);
    w.U16(a.protocolMinor);
    w.U16(a.attemptVersion);
    w.Digest(a.mandateId);
    w.Digest(a.mandateDigest);
    w.Digest(a.intentId);
    w.Digest(a.reservationTokenDigest);
    w.Bytes(a.executorIdentity);
    w.Bytes(a.correlationKey);
    w.U64(a.startedAt);
    w.OptionU64(a.dispatchBoundaryAt);
    w.Digest(a.providerRequestDigest);
    w.OptionDigest(a.providerResponseDigest);
    w.Byte(StateTag(a.state));
    var bytes := w.Finish();
    return Some(bytes);
  }

  /** The encoding determines every field of an attempt whose fields fit their length prefixes. */
  lemma AttemptBytesInjective(a: ExecutionAttempt, b: ExecutionAttempt)
    requires |a.executorIdentity| <= NO_LIMIT && |a.correlationKey| <= NO_LIMIT
    requires |b.executorIdentity| <= NO_LIMIT && |b.correlationKey| <= NO_LIMIT
    requires AttemptBytes(a) == AttemptBytes(b)
    ensures a == b
  {
    hide PushU16, PushDigest, PushBytes, PushU64, PushOptionU64, PushOptionDigest, PushByte;
    hide ReadU16, ReadDigest, ReadBytes, ReadU64, ReadOptionU64, ReadOptionDigest, ReadByte;
  }

  function AttemptId(h: Hashes, a: ExecutionAttempt): Digest
  {
    h.Id(AttemptDomain, AttemptBytes(a))
  }

  lemma AttemptIdCommits(h: Hashes, a: ExecutionAttempt, m: ActionMandate, b: ExecutionAttempt, n: ActionMandate)
    requires ValidAttempt(h, a, m) && ValidAttempt(h, b, n) && AttemptId(h, a) == AttemptId(h, b)
    ensures a == b || h.Collides(AttemptDomain, AttemptBytes(a), AttemptBytes(b))
  {
    hide AttemptBytes, ValidMandate, MandateId;
    if AttemptBytes(a) == AttemptBytes(b) { AttemptBytesInjective(a, b); }
  }
}
