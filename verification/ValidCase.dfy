/**
  A complete case the verifier accepts, for every choice of hash functions, every valid
  intent and all times in order. The conditions under which the theorems about valid cases speak can therefore
  always be met, and what a valid verdict leaves open can be seen on it.
 */
module ValidCase {
  import opened Bytes
  import opened Text
  import opened Hashing
  import opened Mandate
  import opened Intent
  import opened Execution
  import opened Receipt
  import opened Registry
  import opened Verifier
  import MS = MandateState
  import E = Evidence
  import G = EvidenceGraph
  import P = Profile

  const NAME: Text := [0x78]
  const IDENTITY: Bytes := [1]
  const ONE: Digest := [1, 0, 0, 0, 0, 0, 0, 0, 0, 0, 0, 0, 0, 0, 0, 0,
                        0, 0, 0, 0, 0, 0, 0, 0, 0, 0, 0, 0, 0, 0, 0, 0]

  lemma NameIsFine()
    ensures forall n: nat :: n > 0 ==> Printable(NAME, n) && RegisteredId(NAME, n)
    ensures P.StableIdentifier(NAME) && ONE != ZERO
  {
    CharsOfAscii(NAME);
    assert ONE[0] != ZERO[0];
  }

  /** The times a case carries. */
  datatype Times = Times(
    issuedAt: U64, validFrom: U64, expiresAt: U64, startedAt: U64, dispatchedAt: U64, completedAt: U64)

  const AT_ONCE: Times := Times(0, 0, 1, 0, 0, 0)

  /** What the objects check of their own times. */
  predicate Ordered(t: Times)
  {
    t.issuedAt <= t.validFrom < t.expiresAt && t.startedAt <= t.dispatchedAt && t.startedAt <= t.completedAt
  }

  predicate HasTimes(x: Input, t: Times)
  {
    && x.mandate.issuedAt == t.issuedAt && x.mandate.validFrom == t.validFrom && x.mandate.expiresAt == t.expiresAt
    && x.attempt.startedAt == t.startedAt && x.attempt.dispatchBoundaryAt == Some(t.dispatchedAt)
    && x.receipt.completedAt == Some(t.completedAt)
  }

  function TheMandate(intentId: Digest, t: Times): ActionMandate
  {
    var requirement := Requirement(NAME, ZERO);
    ActionMandate(PROTOCOL_MAJOR, PROTOCOL_MINOR, OBJECT_VERSION, intentId, IDENTITY, Identity(IDENTITY), IDENTITY,
                  t.validFrom, t.expiresAt, 1, [], [requirement], requirement, None, None, t.issuedAt, ZERO,
                  SignatureRequirements(ED25519, IDENTITY))
  }

  function TheAttempt(h: Hashes, m: ActionMandate, t: Times): ExecutionAttempt
  {
    ExecutionAttempt(PROTOCOL_MAJOR, PROTOCOL_MINOR, OBJECT_VERSION, MandateId(h, m), MandateId(h, m), m.intentId,
                     ONE, IDENTITY, IDENTITY, t.startedAt, Some(t.dispatchedAt), ONE, Some(ZERO), MS.Accepted)
  }

  function TheNode(): E.EvidenceNode
  {
    E.EvidenceNode(E.Claim(ONE), IDENTITY, 0, None, ONE, NAME, E.Disclosed(NAME), None, NAME, [])
  }

  function TheReceipt(h: Hashes, a: ExecutionAttempt, t: Times): ExecutionReceipt
  {
    ExecutionReceipt(PROTOCOL_MAJOR, PROTOCOL_MINOR, OBJECT_VERSION, a.mandateId, a.mandateDigest, a.intentId,
                     AttemptId(h, a), IDENTITY, 0, ONE, [], [], a.startedAt, Some(t.completedAt), Succeeded, None,
                     [RequirementStatus(NAME, ZERO, true, [E.NodeId(h, TheNode())])], IDENTITY, IDENTITY)
  }

  function TheGraph(h: Hashes): seq<G.Entry>
  {
    [G.Entry(E.NodeId(h, TheNode()), TheNode())]
  }

  function TheInput(h: Hashes, i: ActionIntent, t: Times): Input
  {
    var m := TheMandate(IntentId(h, i), t);
    var a := TheAttempt(h, m, t);
    Input(i, m, a, TheReceipt(h, a, t), TheGraph(h), [], IDENTITY, NotRevoked, SignatureAllowed, Fresh, None, [], [],
          [])
  }

  lemma MandateIsValid(intentId: Digest, t: Times)
    requires Ordered(t)
    ensures ValidMandate(TheMandate(intentId, t))
  {
    hide Printable, RegisteredId, Utf8;
    NameIsFine();
  }

  lemma AttemptIsValid(h: Hashes, m: ActionMandate, t: Times)
    requires ValidMandate(m) && Ordered(t)
    ensures ValidAttempt(h, TheAttempt(h, m, t), m)
  {
    hide MandateId, ValidMandate, Utf8;
    NameIsFine();
  }

  lemma ReceiptIsValid(h: Hashes, m: ActionMandate, a: ExecutionAttempt, t: Times)
    requires ValidAttempt(h, a, m) && a.state == MS.Accepted && a.executorIdentity == IDENTITY
    requires m.evidenceRequirements == [Requirement(NAME, ZERO)] && a.startedAt <= t.completedAt
    ensures ValidReceipt(h, TheReceipt(h, a, t), m, a)
  {
    hide AttemptId, ValidAttempt, E.NodeId, Utf8, Printable, RegisteredId;
    NameIsFine();
  }

  lemma NodeIsValid()
    ensures E.ValidNode(TheNode())
  {
    hide Printable, RegisteredId, Utf8;
    NameIsFine();
  }

  lemma GraphIsValid(h: Hashes)
    ensures G.ValidGraph(h, TheGraph(h))
  {
    hide E.ValidNode, E.NodeId, G.Position, Utf8;
    NodeIsValid();
    var nodes := TheGraph(h);
    forall w
      ensures G.Walk(nodes, w) ==> |w| == 1
    {
      assert |w| > 1 ==> !G.Edge(nodes, w[0], w[1]);
    }
  }

  lemma EvidenceIsSound(h: Hashes, i: ActionIntent, t: Times)
    ensures EvidenceSound(h, TheInput(h, i, t))
  {
    hide G.ValidGraph, E.NodeId, TheMandate, TheAttempt, AttemptId, IntentId, Utf8;
    GraphIsValid(h);
    assert TheGraph(h)[0].id == TheInput(h, i, t).receipt.requirementStatuses[0].evidenceRefs[0];
  }

  lemma CaseIsSound(h: Hashes, i: ActionIntent, t: Times, time: U64)
    requires ValidIntent(i) && Ordered(t) && t.validFrom <= time < t.expiresAt
    ensures CaseSound(h, TheInput(h, i, t), time)
  {
    hide ValidIntent, ValidReceipt, ValidMandate, IntentId, AttemptId, MandateId, E.NodeId, TheGraph, Utf8, Printable,
         RegisteredId;
    var m := TheMandate(IntentId(h, i), t);
    MandateIsValid(IntentId(h, i), t);
    AttemptIsValid(h, m, t);
    ReceiptIsValid(h, m, TheAttempt(h, m, t), t);
  }

  /** Whatever the hash functions, every valid intent can be the subject of a valid verdict. */
  lemma EveryValidIntentCanBeVindicated(h: Hashes, i: ActionIntent, t: Times, time: U64)
    requires ValidIntent(i) && Ordered(t) && t.validFrom <= time < t.expiresAt
    ensures Accountable(h, TheInput(h, i, t), time) && TheInput(h, i, t).intent == i && HasTimes(TheInput(h, i, t), t)
  {
    hide EvidenceSound, CaseSound, ValidIntent, TheGraph, IntentId, MandateId, AttemptId, E.NodeId, Ordered, Utf8;
    CaseIsSound(h, i, t, time);
    EvidenceIsSound(h, i, t);
  }

  // ---- What a valid verdict leaves open ----------------------------------------------------------

  lemma PlainIsValid()
    ensures ValidIntent(Plain(1))
  {
  }

  /**
    The times a valid verdict admits: only the evaluation time is held against the mandate's
    window, and dispatch and completion only against the start.
   */
  lemma TimesOfAValidVerdictExactly(h: Hashes, t: Times, time: U64)
    ensures (exists x :: Accountable(h, x, time) && HasTimes(x, t)) <==>
              Ordered(t) && t.validFrom <= time < t.expiresAt
  {
    hide Accountable, TheInput, ValidIntent, Plain;
    forall x | Accountable(h, x, time) && HasTimes(x, t) ensures Ordered(t) && t.validFrom <= time < t.expiresAt {
      AccountableTimesAreOrdered(h, x, t, time);
    }
    if Ordered(t) && t.validFrom <= time < t.expiresAt {
      PlainIsValid();
      EveryValidIntentCanBeVindicated(h, Plain(1), t, time);
    }
  }

  lemma EveryValidVerdictHasTimes(h: Hashes, x: Input, time: U64)
    requires Accountable(h, x, time)
    ensures exists t :: HasTimes(x, t)
  {
    hide EvidenceSound, Corroborated, Preserved, ValidIntent, IntentId, MandateId, AttemptId, StatusesCover,
         ValidRefs, ValidMandate, Utf8;
    assert HasTimes(x, Times(x.mandate.issuedAt, x.mandate.validFrom, x.mandate.expiresAt, x.attempt.startedAt,
                             x.attempt.dispatchBoundaryAt.value, x.receipt.completedAt.value));
  }

  lemma AccountableTimesAreOrdered(h: Hashes, x: Input, t: Times, time: U64)
    requires Accountable(h, x, time) && HasTimes(x, t)
    ensures Ordered(t) && t.validFrom <= time < t.expiresAt
  {
    hide EvidenceSound, Corroborated, Preserved, ValidIntent, IntentId, MandateId, AttemptId, OutcomeConsistent,
         StateConsistent, StatusesCover, ValidRefs, ValidRequirements, RegisteredId, Utf8;
  }

  /** So a verdict can be valid although dispatch followed the mandate's expiry and the reported completion. */
  lemma AValidVerdictMayDispatchLate(h: Hashes)
    ensures exists x, t :: Accountable(h, x, 0) && HasTimes(x, t) &&
              t.expiresAt <= t.dispatchedAt && t.completedAt < t.dispatchedAt
  {
    hide Accountable, HasTimes;
    var t := Times(0, 0, 1, 0, 9, 0);
    TimesOfAValidVerdictExactly(h, t, 0);
    var x :| Accountable(h, x, 0) && HasTimes(x, t);
  }

  /** Single use is a conclusion the verifier is given: one mandate can have valid verdicts on two attempts. */
  lemma OneMandateMayHaveTwoAttempts(h: Hashes)
    ensures exists x, y :: Accountable(h, x, 0) && Accountable(h, y, 0) && x.mandate == y.mandate &&
              x.attempt != y.attempt
  {
    hide Accountable, ValidIntent, Plain, TheGraph, TheReceipt, IntentId, MandateId, Utf8;
    var late := AT_ONCE.(dispatchedAt := 9);
    PlainIsValid();
    EveryValidIntentCanBeVindicated(h, Plain(1), AT_ONCE, 0);
    EveryValidIntentCanBeVindicated(h, Plain(1), late, 0);
    var x, y := TheInput(h, Plain(1), AT_ONCE), TheInput(h, Plain(1), late);
    assert x.attempt.dispatchBoundaryAt != y.attempt.dispatchBoundaryAt;
    assert x.mandate == y.mandate;
  }

  /** The replay conclusion of a caller that records one attempt for each mandate. */
  function ReplayOf(recorded: map<Digest, Digest>, r: ExecutionReceipt): ReplayStatus
  {
    if r.mandateId !in recorded then ReplayUnknown
    else if recorded[r.mandateId] == r.attemptId then Fresh
    else Replayed
  }

  /**
    What has to be added is such a record. Then valid verdicts on one mandate are about one
    attempt, unless two attempts collide.
   */
  lemma OneRecordOneAttempt(h: Hashes, recorded: map<Digest, Digest>, x: Input, s: U64, y: Input, t: U64)
    requires Accountable(h, x, s) && Accountable(h, y, t) && x.mandate == y.mandate
    requires x.replay == ReplayOf(recorded, x.receipt) && y.replay == ReplayOf(recorded, y.receipt)
    ensures x.attempt == y.attempt || h.Collides(AttemptDomain, AttemptBytes(x.attempt), AttemptBytes(y.attempt))
  {
    hide EvidenceSound, Corroborated, Preserved, ValidIntent, IntentId, MandateId, AttemptBytes, ValidMandate,
         OutcomeConsistent, StateConsistent, StatusesCover, ValidRefs, Utf8;
    AttemptIdCommits(h, x.attempt, x.mandate, y.attempt, y.mandate);
  }

  predicate VerifiesUnder(h: Hashes, i: ActionIntent, profile: Text)
  {
    profile in BuiltIns(h) && VerifiesWith(h, i, BuiltIns(h)[profile].descriptor, BuiltIns(h)[profile])
  }

  lemma PlainIsUnregistered(h: Hashes, profile: Text)
    ensures !VerifiesUnder(h, Plain(1), profile)
  {
    hide BuiltIns, GITHUB_PROFILE, MIGRATION_PROFILE, PAYMENT_PROFILE, GitHubDescriptor, MigrationDescriptor,
         PaymentDescriptor, ParametersCommitment, Utf8;
    if profile in BuiltIns(h) {
      BuiltInsAreThree(h, profile);
      BuiltInsNameTheirProfile();
    }
  }

  lemma BuiltInsNameTheirProfile()
    ensures |GitHubDescriptor().profileId| > 1 && |MigrationDescriptor().profileId| > 1 &&
        |PaymentDescriptor().profileId| > 1
  {
    hide GitHubDescriptor, MigrationDescriptor, PaymentDescriptor, GITHUB_PROFILE, MIGRATION_PROFILE, PAYMENT_PROFILE,
         Utf8;
    GitHubDescriptorIsValid();
    MigrationDescriptorIsValid();
    PaymentDescriptorIsValid();
  }

  /** The verifier never consults a profile: a verdict can be valid for an intent no built-in profile verifies. */
  lemma AValidVerdictNeedsNoProfile(h: Hashes)
    ensures exists x :: Accountable(h, x, 0) && forall profile :: !VerifiesUnder(h, x.intent, profile)
  {
    hide Accountable, VerifiesUnder, TheInput, ValidIntent, Plain;
    forall profile ensures !VerifiesUnder(h, Plain(1), profile) {
      PlainIsUnregistered(h, profile);
    }
    PlainIsValid();
    EveryValidIntentCanBeVindicated(h, Plain(1), AT_ONCE, 0);
    assert Accountable(h, TheInput(h, Plain(1), AT_ONCE), 0);
  }

  /**
    What has to be added is that one of the intents verifies under a built-in profile. Then
    valid verdicts under mandates for one intent identifier are about one intent, so the
    other one's target, commitment, action and media type are also what the profile derives.
   */
  lemma ARegisteredVerdictFixesTheProfile(h: Hashes, x: Input, s: U64, y: Input, t: U64, profile: Text)
    requires Accountable(h, x, s) && Accountable(h, y, t) && x.mandate.intentId == y.mandate.intentId
    requires VerifiesUnder(h, x.intent, profile)
    ensures x.intent == y.intent || h.Collides(IntentDomain, IntentPreimage(x.intent), IntentPreimage(y.intent))
    ensures VerifiesUnder(h, y.intent, profile) ||
            h.Collides(IntentDomain, IntentPreimage(x.intent), IntentPreimage(y.intent))
  {
    hide EvidenceSound, Corroborated, Preserved, BuiltIns, ValidIntent, ValidReceipt, ValidMandate, IntentId,
         IntentPreimage, Short, ParametersCommitment, Utf8;
    BuiltInIntentsAreShort(h, profile, x.intent);
    IntentIdCommits(h, x.intent, y.intent);
  }

  /**
    Without a short intent on either side the intent is not fixed: two valid verdicts share
    receipt, attempt and mandate and differ in the intent, with no collision anywhere.
   */
  lemma LongIntentsShareAVerdict(h: Hashes)
    ensures exists x, y ::
              && Accountable(h, x, 0) && Accountable(h, y, 0)
              && x.receipt == y.receipt && x.attempt == y.attempt && x.mandate == y.mandate
              && x.intent != y.intent && IntentPreimage(x.intent) == IntentPreimage(y.intent)
  {
    hide Accountable, IntentBytes, ValidIntent, ACTION_INTENT_TAG, TheMandate, TheAttempt, TheReceipt, TheGraph, Utf8;
    var i, j := LongIntentsAreConfused(AMBIGUOUS_SIZE);
    EveryValidIntentCanBeVindicated(h, i, AT_ONCE, 0);
    EveryValidIntentCanBeVindicated(h, j, AT_ONCE, 0);
    var x, y := TheInput(h, i, AT_ONCE), TheInput(h, j, AT_ONCE);
    assert IntentId(h, i) == IntentId(h, j) && IntentPreimage(i) == IntentPreimage(j);
    assert x.mandate == y.mandate && x.attempt == y.attempt && x.receipt == y.receipt;
  }
}
