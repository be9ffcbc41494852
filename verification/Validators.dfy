/**
  The validators of the protocol objects, check by check as they run and with the error each
  check gives (csv-accountability/src/mandate.rs, execution.rs, receipt.rs, intent.rs, profile.rs
  and evidence.rs). Each is proved against the predicate that says what a valid object is.
 */
module Validators {
  import opened Bytes
  import opened Text
  import opened Hashing
  import opened Mandate
  import opened MandateState
  import opened Execution
  import opened Receipt
  import opened Profile
  import opened Intent
  import opened Evidence
  import opened IntentProfiles
  import Au = Authority
  import Pr = Preservation
  import C = Context

  // ---- Mandates -----------------------------------------------------------------------------

  datatype MandateError =
    | UnsupportedMandateVersion | InvalidMandateField | InvalidValidity | InvalidDispatchLimit | InvalidRequirements
    | InvalidSignatureRequirements

  predicate CurrentVersion(major: U16, minor: U16, version: ObjectVersion)
  {
    major == PROTOCOL_MAJOR && minor == PROTOCOL_MINOR && version == OBJECT_VERSION
  }

  /** Who issues, who may act, and where. */
  predicate ValidParties(m: ActionMandate)
  {
    && 0 < |m.issuerIdentity| <= MAX_MANDATE_IDENTITY_BYTES
    && 0 < |m.authorityDomain| <= MAX_MANDATE_IDENTITY_BYTES
    && ValidSubject(m.subject)
  }

  predicate ValidWindow(m: ActionMandate) { m.issuedAt <= m.validFrom < m.expiresAt }

  /** Some requirement identifier is malformed; identifiers are looked at before their order. */
  predicate SomeIdMalformed(rs: seq<Requirement>)
  {
    exists i :: 0 <= i < |rs| && !RegisteredId(rs[i].registryId, MAX_REGISTRY_ID_BYTES)
  }

  predicate WrongNumber(rs: seq<Requirement>, requireNonempty: bool)
  {
    |rs| > MAX_MANDATE_REQUIREMENTS || (requireNonempty && |rs| == 0)
  }

  /** The list fails by its number or its order, not by an identifier. */
  predicate Disordered(rs: seq<Requirement>, requireNonempty: bool)
  {
    WrongNumber(rs, requireNonempty) || (!SomeIdMalformed(rs) && !ValidRequirements(rs, requireNonempty))
  }

  method ValidateRequirements(rs: seq<Requirement>, requireNonempty: bool) returns (r: Result<(), MandateError>)
    ensures r.Ok? <==> ValidRequirements(rs, requireNonempty)
    ensures r == Err(InvalidMandateField) <==> !WrongNumber(rs, requireNonempty) && SomeIdMalformed(rs)
    ensures r == Err(InvalidRequirements) <==> Disordered(rs, requireNonempty)
    ensures r.Err? ==> r.error in {InvalidMandateField, InvalidRequirements}
  {
    hide RegisteredId, Less;
    if |rs| > MAX_MANDATE_REQUIREMENTS || (requireNonempty && rs == []) {
      return Err(InvalidRequirements);
    }
    for i := 0 to |rs|
      invariant forall j :: 0 <= j < i ==> RegisteredId(rs[j].registryId, MAX_REGISTRY_ID_BYTES)
    {
      if !RegisteredId(rs[i].registryId, MAX_REGISTRY_ID_BYTES) {
        return Err(InvalidMandateField);
      }
    }
    OutOfOrderExactlyWhen(rs);
    if exists i :: 0 < i < |rs| && !Less(rs[i - 1].registryId, rs[i].registryId) {
      return Err(InvalidRequirements);
    }
    return Ok(());
  }

  lemma OutOfOrderExactlyWhen(rs: seq<Requirement>)
    ensures (exists i :: 0 < i < |rs| && !Less(rs[i - 1].registryId, rs[i].registryId)) <==>
              !Ascending(RegistryIds(rs))
  {
    hide Less;
    var ids := RegistryIds(rs);
    forall i | 0 < i < |rs| ensures Less(ids[i - 1], ids[i]) <==> Less(rs[i - 1].registryId, rs[i].registryId) {}
    if !Ascending(ids) {
      var i :| 0 < i < |ids| && !Less(ids[i - 1], ids[i]);
      assert !Less(rs[i - 1].registryId, rs[i].registryId);
    }
  }

  /** What is sound of a mandate before each kind of error is looked for. */
  predicate SoundUpToDispatch(m: ActionMandate)
  {
    && CurrentVersion(m.protocolMajor, m.protocolMinor, m.mandateVersion) && ValidParties(m) && ValidWindow(m)
    && m.maximumDispatches == 1
  }

  method ValidateMandate(m: ActionMandate) returns (r: Result<(), MandateError>)
    ensures r.Ok? <==> ValidMandate(m)
    ensures var current := CurrentVersion(m.protocolMajor, m.protocolMinor, m.mandateVersion);
            var required := ValidRequirements(m.constraints, false) && ValidRequirements(m.evidenceRequirements, true);
            && (r == Err(UnsupportedMandateVersion) <==> !current)
            && (r == Err(InvalidValidity) <==> current && ValidParties(m) && !ValidWindow(m))
            && (r == Err(InvalidDispatchLimit) <==>
                current && ValidParties(m) && ValidWindow(m) && !SoundUpToDispatch(m))
            && (r == Err(InvalidRequirements) <==>
                && SoundUpToDispatch(m)
                && (|| Disordered(m.constraints, false)
                    || (ValidRequirements(m.constraints, false) && Disordered(m.evidenceRequirements, true))))
            && (r == Err(InvalidSignatureRequirements) <==>
                && SoundUpToDispatch(m) && required && !ValidMandate(m)
                && RegisteredId(m.executionPolicy.registryId, MAX_REGISTRY_ID_BYTES))
  {
    hide RegisteredId, ValidRequirements, Disordered;
    if m.protocolMajor != PROTOCOL_MAJOR || m.protocolMinor != PROTOCOL_MINOR || m.mandateVersion != OBJECT_VERSION {
      return Err(UnsupportedMandateVersion);
    }
    if m.issuerIdentity == [] || |m.issuerIdentity| > MAX_MANDATE_IDENTITY_BYTES {
      return Err(InvalidMandateField);
    }
    if m.authorityDomain == [] || |m.authorityDomain| > MAX_MANDATE_IDENTITY_BYTES {
      return Err(InvalidMandateField);
    }
    match m.subject {
      case Identity(identity) =>
        if identity == [] || |identity| > MAX_MANDATE_IDENTITY_BYTES {
          return Err(InvalidMandateField);
        }
      case ExecutorClass(c) =>
        if !RegisteredId(c, MAX_REGISTRY_ID_BYTES) {
          return Err(InvalidMandateField);
        }
    }
    if m.validFrom >= m.expiresAt || m.issuedAt > m.validFrom {
      return Err(InvalidValidity);
    }
    if m.maximumDispatches != 1 {
      return Err(InvalidDispatchLimit);
    }
    r := ValidateRequirements(m.constraints, false);
    if r.Err? {
      return;
    }
    r := ValidateRequirements(m.evidenceRequirements, true);
    if r.Err? {
      return;
    }
    if !RegisteredId(m.executionPolicy.registryId, MAX_REGISTRY_ID_BYTES) {
      return Err(InvalidMandateField);
    }
    if m.signatureRequirements.algorithm != ED25519
       || m.signatureRequirements.keyId == [] || |m.signatureRequirements.keyId| > MAX_KEY_ID_BYTES {
      return Err(InvalidSignatureRequirements);
    }
  }

  // ---- Attempts -----------------------------------------------------------------------------

  datatype AttemptError = UnsupportedAttemptVersion | InvalidAttemptField | AttemptBindingMismatch | InvalidAttemptState

  predicate BoundToMandate(h: Hashes, a: ExecutionAttempt, m: ActionMandate)
  {
    ValidMandate(m) && a.mandateId == a.mandateDigest == MandateId(h, m) && a.intentId == m.intentId
  }

  predicate ValidAttemptFields(a: ExecutionAttempt)
  {
    && 0 < |a.executorIdentity| <= MAX_EXECUTION_IDENTITY_BYTES && 0 < |a.correlationKey| <= MAX_CORRELATION_KEY_BYTES
    && ZERO !in [a.reservationTokenDigest, a.providerRequestDigest]
  }

  method ValidateAttempt(h: Hashes, a: ExecutionAttempt, m: ActionMandate) returns (r: Result<(), AttemptError>)
    ensures r.Ok? <==> ValidAttempt(h, a, m)
    ensures var current := CurrentVersion(a.protocolMajor, a.protocolMinor, a.attemptVersion);
            && (r == Err(UnsupportedAttemptVersion) <==> !current)
            && (r == Err(AttemptBindingMismatch) <==> current && !BoundToMandate(h, a, m))
            && (r == Err(InvalidAttemptField) <==> current && BoundToMandate(h, a, m) && !ValidAttemptFields(a))
  {
    hide ValidMandate, MandateId;
    if a.protocolMajor != PROTOCOL_MAJOR || a.protocolMinor != PROTOCOL_MINOR || a.attemptVersion != OBJECT_VERSION {
      return Err(UnsupportedAttemptVersion);
    }
    var mandate := ValidateMandate(m);
    if mandate.Err? || a.mandateId != MandateId(h, m) || a.mandateDigest != a.mandateId || a.intentId != m.intentId {
      return Err(AttemptBindingMismatch);
    }
    if a.executorIdentity == [] || |a.executorIdentity| > MAX_EXECUTION_IDENTITY_BYTES {
      return Err(InvalidAttemptField);
    }
    if a.correlationKey == [] || |a.correlationKey| > MAX_CORRELATION_KEY_BYTES {
      return Err(InvalidAttemptField);
    }
    if a.reservationTokenDigest == ZERO || a.providerRequestDigest == ZERO {
      return Err(InvalidAttemptField);
    }
    if a.dispatchBoundaryAt.Some? && a.dispatchBoundaryAt.value < a.startedAt {
      return Err(InvalidAttemptState);
    }
    var dispatched, answered := a.dispatchBoundaryAt.Some?, a.providerResponseDigest.Some?;
    var consistent := match a.state
      case Prepared => !dispatched && !answered
      case Dispatching | OutcomeAmbiguous => dispatched && !answered
      case Accepted | Rejected | ReconciledAccepted | ReconciledNotAccepted => dispatched && answered
      case AbandonedAmbiguous => dispatched;
    return if consistent then Ok(()) else Err(InvalidAttemptState);
  }

  // ---- Receipts -----------------------------------------------------------------------------

  predicate ValidProduction(x: ExecutionReceipt)
  {
    && 0 < |x.producerIdentity| <= MAX_PRODUCER_IDENTITY_BYTES
    && 0 < |x.producerSignature| <= MAX_RECEIPT_SIGNATURE_BYTES
    && x.journalEntryDigest != ZERO && NotCompletedEarly(x) && x.resultCommitment != Some(ZERO)
  }

  method ValidateReceipt(h: Hashes, x: ExecutionReceipt, m: ActionMandate, a: ExecutionAttempt)
      returns (r: Result<(), ReceiptError>)
    ensures r.Ok? <==> ValidReceipt(h, x, m, a)
    ensures var current := CurrentVersion(x.protocolMajor, x.protocolMinor, x.receiptVersion);
            var bound := current && ValidAttempt(h, a, m) && BoundTo(h, x, a);
            && (r == Err(UnsupportedReceiptVersion) <==> !current)
            && (r == Err(InvalidAttempt) <==> current && !ValidAttempt(h, a, m))
            && (r == Err(ReceiptBindingMismatch) <==> current && ValidAttempt(h, a, m) && !BoundTo(h, x, a))
            && (r == Err(OutcomeMismatch) <==> bound && ValidProduction(x) && !OutcomeConsistent(x, a))
            && (r == Err(InvalidEvidenceRequirements) <==>
                && bound && ValidProduction(x) && OutcomeConsistent(x, a)
                && ValidRefs(x.dispatchEvidenceRefs) && ValidRefs(x.targetEvidenceRefs)
                && !StatusesCover(x.requirementStatuses, m.evidenceRequirements)
                && (|x.requirementStatuses| <= MAX_RECEIPT_EVIDENCE_ITEMS ==>
                    !FirstFailsByItsReferences(x.requirementStatuses, m.evidenceRequirements)))
  {
    hide ValidAttempt, BoundTo, ValidProduction, OutcomeConsistent, StatusesCover, ValidRefs, FirstFailsByItsReferences;
    ReceiptInParts(h, x, m, a);
    if x.protocolMajor != PROTOCOL_MAJOR || x.protocolMinor != PROTOCOL_MINOR || x.receiptVersion != OBJECT_VERSION {
      return Err(UnsupportedReceiptVersion);
    }
    var attempt := ValidateAttempt(h, a, m);
    if attempt.Err? {
      return Err(InvalidAttempt);
    }
    var bound := NamesItsAttempt(h, x, a);
    if !bound {
      return Err(ReceiptBindingMismatch);
    }
    var produced := IsProduced(x);
    if !produced {
      return Err(InvalidReceiptField);
    }
    var outcome := AgreesWithItsAttempt(x, a);
    if !outcome {
      return Err(OutcomeMismatch);
    }
    if !ValidRefs(x.dispatchEvidenceRefs) || !ValidRefs(x.targetEvidenceRefs) {
      return Err(InvalidReceiptField);
    }
    r := ValidateRequirementStatuses(x.requirementStatuses, m.evidenceRequirements);
  }

  lemma ReceiptInParts(h: Hashes, x: ExecutionReceipt, m: ActionMandate, a: ExecutionAttempt)
    ensures ValidReceipt(h, x, m, a) <==>
              && CurrentVersion(x.protocolMajor, x.protocolMinor, x.receiptVersion) && ValidAttempt(h, a, m)
              && BoundTo(h, x, a) && ValidProduction(x) && OutcomeConsistent(x, a)
              && ValidRefs(x.dispatchEvidenceRefs) && ValidRefs(x.targetEvidenceRefs)
              && StatusesCover(x.requirementStatuses, m.evidenceRequirements)
  {
    hide ValidAttempt, BoundTo, OutcomeConsistent, StatusesCover, ValidRefs, NotCompletedEarly;
  }

  method NamesItsAttempt(h: Hashes, x: ExecutionReceipt, a: ExecutionAttempt) returns (r: bool)
    ensures r <==> BoundTo(h, x, a)
  {
    hide AttemptId;
    if x.mandateId != a.mandateId || x.mandateDigest != a.mandateDigest || x.intentId != a.intentId {
      return false;
    }
    return x.attemptId == AttemptId(h, a) && x.executorIdentity == a.executorIdentity && x.startedAt == a.startedAt;
  }

  method IsProduced(x: ExecutionReceipt) returns (r: bool)
    ensures r <==> ValidProduction(x)
  {
    if x.producerIdentity == [] || |x.producerIdentity| > MAX_PRODUCER_IDENTITY_BYTES
       || x.producerSignature == [] || |x.producerSignature| > MAX_RECEIPT_SIGNATURE_BYTES {
      return false;
    }
    var early := x.completedAt.Some? && x.completedAt.value < x.startedAt;
    var blank := x.resultCommitment.Some? && x.resultCommitment.value == ZERO;
    return x.journalEntryDigest != ZERO && !early && !blank;
  }

  method AgreesWithItsAttempt(x: ExecutionReceipt, a: ExecutionAttempt) returns (r: bool)
    ensures r <==> OutcomeConsistent(x, a)
  {
    var completed := x.completedAt.Some?;
    r := match x.outcome
      case Succeeded | Failed => (a.state == Accepted || a.state == ReconciledAccepted) && completed
      case RejectedOutcome => a.state == Rejected && completed && x.resultCommitment.None?
      case UnknownOutcome => a.state == OutcomeAmbiguous || a.state == AbandonedAmbiguous;
  }

  // ---- Intents and descriptors ----------------------------------------------------------------

  datatype IntentError =
    | UnsupportedIntentVersion | InvalidProfileId | EmptyField | IdentityTooLong | TooManyContextCommitments
    | InvalidEvidenceSourceDeclaration | InvalidStableId | DisplayFieldTooLong | InvalidCommitSha
    | InvalidRequiredContexts | GatePolicyMismatch

  method ValidateIntent(i: ActionIntent) returns (r: Result<(), IntentError>)
    ensures r.Ok? <==> ValidIntent(i)
    ensures var current := CurrentVersion(i.protocolMajor, i.protocolMinor, i.intentVersion);
            var named := current && StableIdentifier(i.profileId);
            var filled := named && [] !in [i.actionType, i.parametersMediaType, i.requestedBy];
            && (r == Err(UnsupportedIntentVersion) <==> !current)
            && (r == Err(InvalidProfileId) <==> current && !named)
            && (r == Err(EmptyField) <==> named && !filled)
            && (r == Err(IdentityTooLong) <==> filled && |i.requestedBy| > MAX_IDENTITY_BYTES)
            && (r == Err(TooManyContextCommitments) <==>
                filled && |i.requestedBy| <= MAX_IDENTITY_BYTES && |i.contextCommitments| > MAX_CONTEXT_COMMITMENTS)
  {
    hide StableIdentifier, Utf8;
    if i.protocolMajor != PROTOCOL_MAJOR || i.protocolMinor != PROTOCOL_MINOR {
      return Err(UnsupportedIntentVersion);
    }
    if i.intentVersion != OBJECT_VERSION {
      return Err(UnsupportedIntentVersion);
    }
    if !StableIdentifier(i.profileId) {
      return Err(InvalidProfileId);
    }
    if i.actionType == [] || i.parametersMediaType == [] || i.requestedBy == [] {
      return Err(EmptyField);
    }
    if |i.requestedBy| > MAX_IDENTITY_BYTES {
      return Err(IdentityTooLong);
    }
    if |i.contextCommitments| > MAX_CONTEXT_COMMITMENTS {
      return Err(TooManyContextCommitments);
    }
    return Ok(());
  }

  /** The sources a descriptor declares, by class. */
  function SourcesOf(sources: seq<EvidenceSource>, c: SourceClass): set<Text>
  {
    set s | s in sources && s.sourceClass == c :: s.id
  }

  method ValidateDescriptor(d: Descriptor) returns (r: Result<(), IntentError>)
    ensures r.Ok? <==> ValidDescriptor(d)
    ensures r == Err(InvalidProfileId) <==>
              !StableIdentifier(d.profileId) || exists s :: s in d.evidenceSources && !StableIdentifier(s.id)
    ensures r.Ok? ==>
              && SourcesOf(d.evidenceSources, ExecutorSource) != {}
              && (SourcesOf(d.evidenceSources, ProviderCorroborating) != {} ||
                  SourcesOf(d.evidenceSources, ExternalAnchor) != {})
    ensures r.Err? ==> r.error in {InvalidProfileId, InvalidEvidenceSourceDeclaration}
  {
    hide StableIdentifier, Utf8;
    var sources := d.evidenceSources;
    if !StableIdentifier(d.profileId) {
      return Err(InvalidProfileId);
    }
    if exists i :: 0 <= i < |sources| && !StableIdentifier(sources[i].id) {
      return Err(InvalidProfileId);
    }
    if |sources| == 0 {
      return Err(InvalidEvidenceSourceDeclaration);
    }
    var duplicate := exists i, j :: 0 <= i < j < |sources| && sources[i].id == sources[j].id;
    var executor := exists i :: 0 <= i < |sources| && sources[i].sourceClass.ExecutorSource?;
    var corroborating := exists i :: 0 <= i < |sources| && !sources[i].sourceClass.ExecutorSource?;
    if duplicate || !executor || !corroborating {
      return Err(InvalidEvidenceSourceDeclaration);
    }
    DeclaresBoth(d);
    return Ok(());
  }

  lemma DeclaresBoth(d: Descriptor)
    requires ValidDescriptor(d)
    ensures SourcesOf(d.evidenceSources, ExecutorSource) != {}
    ensures SourcesOf(d.evidenceSources, ProviderCorroborating) != {} ||
            SourcesOf(d.evidenceSources, ExternalAnchor) != {}
  {
    hide StableIdentifier, Utf8;
    var sources := d.evidenceSources;
    var i :| 0 <= i < |sources| && sources[i].sourceClass == ExecutorSource;
    assert sources[i] in sources;
    assert sources[i].id in SourcesOf(sources, ExecutorSource);
    var j :| 0 <= j < |sources| && Corroborating(sources[j].sourceClass);
    assert sources[j] in sources;
    assert sources[j].id in SourcesOf(sources, sources[j].sourceClass);
  }

  // ---- Evidence nodes -------------------------------------------------------------------------

  datatype NodeError = InvalidNodeField | SemanticConfusion | RelationshipBoundsExceeded

  /** An observation whose method is named as a claim, in a node that is otherwise in order up to its kind. */
  predicate Confused(n: EvidenceNode)
  {
    && ValidSource(n) && n.kind.Observation? && ValidText(n.kind.methodId) && Contains(n.kind.methodId, CLAIM_WORD)
  }

  /** Where a node comes from, whatever its kind. */
  predicate ValidSource(n: EvidenceNode)
  {
    && ValidBytes(n.producerIdentity) && ValidText(n.mediaType) && ValidText(n.disclosureClassification)
    && n.contentDigest != ZERO && (n.assertedEventAt.Some? ==> n.assertedEventAt.value <= n.collectedAt)
    && ValidLocator(n.sourceLocator) && ValidAuthenticity(n.authenticity)
  }

  method ValidateNode(n: EvidenceNode) returns (r: Result<(), NodeError>)
    ensures r.Ok? <==> ValidNode(n)
    ensures r == Err(RelationshipBoundsExceeded) <==> ValidContent(n) && !BoundedRelationships(n)
    ensures r == Err(SemanticConfusion) <==> Confused(n)
  {
    hide Printable, Contains, Ascending;
    if n.producerIdentity == [] || |n.producerIdentity| > MAX_EVIDENCE_TEXT_BYTES {
      return Err(InvalidNodeField);
    }
    if !ValidText(n.mediaType) || !ValidText(n.disclosureClassification) {
      return Err(InvalidNodeField);
    }
    if n.contentDigest == ZERO || (n.assertedEventAt.Some? && n.assertedEventAt.value > n.collectedAt) {
      return Err(InvalidNodeField);
    }
    match n.sourceLocator {
      case Disclosed(locator) => if !ValidText(locator) { return Err(InvalidNodeField); }
      case Withheld(commitment) => if commitment == ZERO { return Err(InvalidNodeField); }
    }
    if n.authenticity.Some? {
      if !ValidText(n.authenticity.value.schemeId) || n.authenticity.value.materialDigest == ZERO {
        return Err(InvalidNodeField);
      }
    }
    r := ValidateNodeKind(n);
    if r.Err? {
      return;
    }
    if |n.relationships| > MAX_EVIDENCE_RELATIONSHIPS || !Ascending(n.relationships) {
      return Err(RelationshipBoundsExceeded);
    }
  }

  method ValidateNodeKind(n: EvidenceNode) returns (r: Result<(), NodeError>)
    ensures r.Ok? <==> ValidKind(n)
    ensures r == Err(SemanticConfusion) <==>
              n.kind.Observation? && ValidText(n.kind.methodId) && Contains(n.kind.methodId, CLAIM_WORD)
    ensures r != Err(RelationshipBoundsExceeded)
  {
    hide ValidText, Contains;
    var related := n.relationships;
    match n.kind {
      case Claim(proposition) =>
        if proposition == ZERO { return Err(InvalidNodeField); }
      case Observation(methodId) =>
        if !ValidText(methodId) { return Err(InvalidNodeField); }
        if Contains(methodId, CLAIM_WORD) { return Err(SemanticConfusion); }
      case Attestation(attester) =>
        if attester == [] || |attester| > MAX_EVIDENCE_TEXT_BYTES { return Err(InvalidNodeField); }
        if n.authenticity.None? { return Err(InvalidNodeField); }
      case EvidenceGap(missing, reason) =>
        if !ValidText(missing) || reason == ZERO { return Err(InvalidNodeField); }
      case Counterclaim(challenged, proposition) =>
        if proposition == ZERO || challenged !in related { return Err(InvalidNodeField); }
      case Contradiction(left, right, analysis) =>
        if left == right || analysis == ZERO || left !in related || right !in related {
          return Err(InvalidNodeField);
        }
      case CustodyRecord(subject, previous, custodian) =>
        if custodian == [] || |custodian| > MAX_EVIDENCE_TEXT_BYTES { return Err(InvalidNodeField); }
        if subject !in related
           || (previous.Some? && (previous.value == subject || previous.value !in related)) {
          return Err(InvalidNodeField);
        }
    }
    return Ok(());
  }

  // ---- Profiles -------------------------------------------------------------------------------

  predicate Display(s: Text) { Printable(s, MAX_DISPLAY_BYTES) }

  /** The first field that cannot be displayed is not empty. */
  predicate FirstUndisplayable(fields: seq<Text>)
  {
    exists i :: 0 <= i < |fields| && fields[i] != [] && !Display(fields[i]) &&
      forall j :: 0 <= j < i ==> Display(fields[j])
  }

  method ValidateDisplay(fields: seq<Text>) returns (r: Result<(), IntentError>)
    ensures r.Ok? <==> forall i :: 0 <= i < |fields| ==> Display(fields[i])
    ensures r == Err(DisplayFieldTooLong) <==> FirstUndisplayable(fields)
    ensures r.Err? ==> r.error in {EmptyField, DisplayFieldTooLong}
  {
    hide Trimmed, HasControl, Utf8;
    for i := 0 to |fields|
      invariant forall j :: 0 <= j < i ==> Display(fields[j])
    {
      var value := fields[i];
      if value == [] {
        return Err(EmptyField);
      }
      if |value| > MAX_DISPLAY_BYTES || !Trimmed(value) || HasControl(value) {
        return Err(DisplayFieldTooLong);
      }
    }
    return Ok(());
  }

  method ValidateGitHub(h: Hashes, p: GitHubDeployment) returns (r: Result<(), IntentError>)
    ensures r.Ok? <==> ValidGitHub(h, p)
    ensures var stable := p.repositoryId > 0 && p.environmentId > 0;
            var displayed := Display(p.repositoryOwner) && Display(p.repositoryName) && Display(p.environmentName);
            var exact := stable && displayed && LowerHexSha(p.commitSha) && p.exactRef == p.commitSha;
            && (r == Err(InvalidStableId) <==> !stable)
            && (r in {Err(EmptyField), Err(DisplayFieldTooLong)} <==> stable && !displayed)
            && (r == Err(DisplayFieldTooLong) <==>
                stable && FirstUndisplayable([p.repositoryOwner, p.repositoryName, p.environmentName]))
            && (r == Err(InvalidCommitSha) <==> stable && displayed && !exact)
            && (r == Err(InvalidRequiredContexts) <==> exact && !ValidContexts(p.requiredContexts))
  {
    hide Display, LowerHexSha, ValidContexts, GatePolicyId, Utf8;
    if p.repositoryId == 0 || p.environmentId == 0 {
      return Err(InvalidStableId);
    }
    var fields := [p.repositoryOwner, p.repositoryName, p.environmentName];
    r := ValidateDisplay(fields);
    DisplayedIsPrintable(fields);
    assert (forall i :: 0 <= i < 3 ==> Display(fields[i])) <==>
             Display(fields[0]) && Display(fields[1]) && Display(fields[2]);
    if r.Err? {
      return;
    }
    if !LowerHexSha(p.commitSha) || p.exactRef != p.commitSha {
      return Err(InvalidCommitSha);
    }
    if !ValidContexts(p.requiredContexts) {
      return Err(InvalidRequiredContexts);
    }
    if p.gatePolicyDigest != GatePolicyId(h, p.requiredContexts) {
      return Err(GatePolicyMismatch);
    }
  }

  lemma DisplayedIsPrintable(fields: seq<Text>)
    ensures forall i :: 0 <= i < |fields| ==> (Display(fields[i]) <==> Printable(fields[i], MAX_DISPLAY_BYTES))
  {
  }

  method ValidateMigration(p: DbMigration) returns (r: Result<(), IntentError>)
    ensures r.Ok? <==> ValidMigration(p)
    ensures r == Err(InvalidStableId) <==> p.databaseId == 0 || p.environmentId == 0
    ensures r == Err(DisplayFieldTooLong) <==>
              && p.databaseId > 0 && p.environmentId > 0
              && FirstUndisplayable([p.databaseName, p.environmentName, p.changeTicket, p.migrationId])
    ensures r.Err? ==> r.error in {InvalidStableId, EmptyField, DisplayFieldTooLong}
  {
    hide Display, Utf8, Printable;
    if p.databaseId == 0 || p.environmentId == 0 {
      return Err(InvalidStableId);
    }
    var fields := [p.databaseName, p.environmentName, p.changeTicket, p.migrationId];
    r := ValidateDisplay(fields);
    DisplayedIsPrintable(fields);
    assert (forall i :: 0 <= i < 4 ==> Display(fields[i])) <==>
             Display(fields[0]) && Display(fields[1]) && Display(fields[2]) && Display(fields[3]);
    if r.Err? {
      return;
    }
    if p.migrationDigest == ZERO || p.statementCount == 0 {
      return Err(EmptyField);
    }
  }

  method ValidatePayment(p: Payment) returns (r: Result<(), IntentError>)
    ensures r.Ok? <==> ValidPayment(p)
    ensures r == Err(DisplayFieldTooLong) <==> FirstUndisplayable([p.payerId, p.merchantId, p.paymentReference])
    ensures r.Ok? ==> 1 <= p.amountMinor <= p.capMinor
    ensures r.Err? ==> r.error in {EmptyField, DisplayFieldTooLong}
  {
    hide Display, Utf8, Printable;
    var fields := [p.payerId, p.merchantId, p.paymentReference];
    r := ValidateDisplay(fields);
    DisplayedIsPrintable(fields);
    assert (forall i :: 0 <= i < 3 ==> Display(fields[i])) <==>
             Display(fields[0]) && Display(fields[1]) && Display(fields[2]);
    if r.Err? {
      return;
    }
    if p.recipientAccountDigest == ZERO {
      return Err(EmptyField);
    }
    if p.amountMinor == 0 || p.capMinor == 0 || p.amountMinor > p.capMinor {
      return Err(EmptyField);
    }
    if |p.currency| != 3 || exists i :: 0 <= i < |p.currency| && !(0x41 <= p.currency[i] <= 0x5A) {
      return Err(EmptyField);
    }
    if p.expiresAt == 0 {
      return Err(EmptyField);
    }
  }

  // ---- Reconstructions, preservation envelopes and context extensions -----------------------------

  datatype ReconstructionError = InvalidReconstructionField | NonCanonicalOrder

  /** Everything about a reconstruction but the order of its lists and the number of contradictions. */
  predicate WellFilled(x: Au.Reconstruction)
  {
    && x.registryId == Au.AUTHORITY_REGISTRY_ID() && x.evaluationTime > 0 && x.snapshotDigest != ZERO
    && Printable(x.inferenceMethod, Au.MAX_AUTHORITY_FIELD_BYTES)
    && 1 <= |x.links| <= Au.MAX_AUTHORITY_LINKS && forall i :: 0 <= i < |x.links| ==> Au.ValidLink(x.links[i])
  }

  method ValidateReconstruction(x: Au.Reconstruction) returns (r: Result<(), ReconstructionError>)
    ensures r.Ok? <==> Au.ValidReconstruction(x)
    ensures r == Err(NonCanonicalOrder) <==> WellFilled(x) && !Au.ValidReconstruction(x)
  {
    hide Au.AUTHORITY_REGISTRY_ID, Printable, Ascending, Au.LinkBefore, Utf8;
    if x.registryId != Au.AUTHORITY_REGISTRY_ID() || x.evaluationTime == 0 || x.snapshotDigest == ZERO {
      return Err(InvalidReconstructionField);
    }
    if !Printable(x.inferenceMethod, Au.MAX_AUTHORITY_FIELD_BYTES) {
      return Err(InvalidReconstructionField);
    }
    if x.links == [] || |x.links| > Au.MAX_AUTHORITY_LINKS {
      return Err(InvalidReconstructionField);
    }
    for i := 0 to |x.links|
      invariant forall j :: 0 <= j < i ==> Au.ValidLink(x.links[j])
    {
      var link := x.links[i];
      if link.issuer == [] || |link.issuer| > Au.MAX_AUTHORITY_FIELD_BYTES
         || link.subject == [] || |link.subject| > Au.MAX_AUTHORITY_FIELD_BYTES
         || link.domain == [] || |link.domain| > Au.MAX_AUTHORITY_FIELD_BYTES {
        return Err(InvalidReconstructionField);
      }
      if link.effectiveFrom >= link.effectiveUntil || link.scopeDigest == ZERO {
        return Err(InvalidReconstructionField);
      }
    }
    if exists i :: 0 < i < |x.links| && !Au.LinkBefore(x.links[i - 1], x.links[i]) {
      return Err(NonCanonicalOrder);
    }
    if |x.contradictions| > Au.MAX_AUTHORITY_CONTRADICTIONS || !Ascending(x.contradictions) {
      return Err(NonCanonicalOrder);
    }
    return Ok(());
  }

  method ValidateEnvelope(e: Pr.Envelope) returns (r: Result<(), Pr.PreservationError>)
    ensures r.Ok? <==> Pr.ValidEnvelope(e)
    ensures r == Err(Pr.UnsupportedVersion) <==> e.version != OBJECT_VERSION
    ensures r.Err? ==> r.error in {Pr.UnsupportedVersion, Pr.InvalidField}
  {
    hide RegisteredId, Ascending, Utf8;
    if e.version != OBJECT_VERSION {
      return Err(Pr.UnsupportedVersion);
    }
    if !RegisteredId(e.objectRegistryId, Pr.MAX_PRESERVATION_TEXT_BYTES)
       || e.originalBytes == [] || |e.originalBytes| > Pr.MAX_PRESERVATION_BYTES
       || e.algorithmIds == [] || |e.algorithmIds| > Pr.MAX_PRESERVATION_ALGORITHMS
       || (exists i :: 0 <= i < |e.algorithmIds| && !RegisteredId(e.algorithmIds[i], Pr.MAX_PRESERVATION_TEXT_BYTES))
       || !Ascending(e.algorithmIds)
       || e.preservedAt == 0 || e.renewalMaterialDigest == ZERO {
      return Err(Pr.InvalidField);
    }
    return Ok(());
  }

  method ValidateExtensions(es: seq<C.Extension>) returns (r: bool)
    ensures r <==> C.ValidExtensions(es)
  {
    hide Trimmed, IsAscii, Less, Utf8;
    if |es| > C.MAX_CONTEXT_EXTENSIONS {
      return false;
    }
    for i := 0 to |es|
      invariant forall j :: 0 <= j < i ==> C.ValidExtension(es[j])
    {
      var id := es[i].registryId;
      if id == [] || |id| > C.MAX_CONTEXT_EXTENSION_ID_BYTES || !Trimmed(id) || !IsAscii(id)
         || es[i].parametersDigest == ZERO {
        return false;
      }
    }
    ExtensionsOutOfOrder(es);
    return !exists i :: 0 < i < |es| && !Less(es[i - 1].registryId, es[i].registryId);
  }

  lemma ExtensionsOutOfOrder(es: seq<C.Extension>)
    ensures (exists i :: 0 < i < |es| && !Less(es[i - 1].registryId, es[i].registryId)) <==>
              !Ascending(C.ExtensionIds(es))
  {
    hide Less;
    var ids := C.ExtensionIds(es);
    forall i | 0 < i < |es| ensures Less(ids[i - 1], ids[i]) <==> Less(es[i - 1].registryId, es[i].registryId) {}
    if !Ascending(ids) {
      var i :| 0 < i < |ids| && !Less(ids[i - 1], ids[i]);
      assert !Less(es[i - 1].registryId, es[i].registryId);
    }
  }
}
