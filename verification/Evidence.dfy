/**
  Evidence nodes: local validation and the canonical codec
  (csv-accountability/src/evidence.rs). Integers are big-endian.
 */
module Evidence {
  import opened Bytes
  import opened Text
  import opened Wire
  import opened Hashing
  import opened Cursors

  const MAX_EVIDENCE_RELATIONSHIPS: nat := 64
  const MAX_EVIDENCE_TEXT_BYTES: nat := 1024

  const CLAIM_WORD: Text := Ascii("claim")

  datatype SourceLocator = Disclosed(locator: Text) | Withheld(commitment: Digest)

  datatype Authenticity = Authenticity(schemeId: Text, materialDigest: Digest)

  datatype EvidenceKind =
    | Claim(propositionDigest: Digest)
    | Observation(methodId: Text)
    | Attestation(attesterIdentity: Bytes)
    | EvidenceGap(missingRegistryId: Text, reasonDigest: Digest)
    | Counterclaim(challengedId: Digest, opposingDigest: Digest)
    | Contradiction(leftId: Digest, rightId: Digest, analysisDigest: Digest)
    | CustodyRecord(subjectId: Digest, previousId: Option<Digest>, custodianIdentity: Bytes)

  datatype EvidenceNode = EvidenceNode(
    kind: EvidenceKind,
    producerIdentity: Bytes,
    collectedAt: U64,
    assertedEventAt: Option<U64>,
    contentDigest: Digest,
    mediaType: Text,
    sourceLocator: SourceLocator,
    authenticity: Option<Authenticity>,
    disclosureClassification: Text,
    relationships: seq<Digest>)

  // ---- Validation -----------------------------------------------------------

  predicate ValidBytes(v: Bytes) { 0 < |v| <= MAX_EVIDENCE_TEXT_BYTES }

  predicate ValidText(v: Text) { Printable(v, MAX_EVIDENCE_TEXT_BYTES) }

  predicate ValidLocator(l: SourceLocator)
  {
    match l
    case Disclosed(locator) => ValidText(locator)
    case Withheld(commitment) => commitment != ZERO
  }

  predicate ValidAuthenticity(a: Option<Authenticity>)
  {
    a.Some? ==> ValidText(a.value.schemeId) && a.value.materialDigest != ZERO
  }

  predicate ValidKind(n: EvidenceNode)
  {
    match n.kind
    case Claim(proposition) => proposition != ZERO
    case Observation(methodId) => ValidText(methodId) && !Contains(methodId, CLAIM_WORD)
    case Attestation(attester) => ValidBytes(attester) && n.authenticity.Some?
    case EvidenceGap(missing, reason) => ValidText(missing) && reason != ZERO
    case Counterclaim(challenged, proposition) => proposition != ZERO && challenged in n.relationships
    case Contradiction(left, right, analysis) =>
      left != right && analysis != ZERO && left in n.relationships && right in n.relationships
    case CustodyRecord(subject, previous, custodian) =>
      && ValidBytes(custodian)
      && subject in n.relationships
      && (previous.Some? ==> previous.value != subject && previous.value in n.relationships)
  }

  predicate ValidContent(n: EvidenceNode)
  {
    && ValidBytes(n.producerIdentity)
    && ValidText(n.mediaType)
    && ValidText(n.disclosureClassification)
    && n.contentDigest != ZERO
    && (n.assertedEventAt.Some? ==> n.assertedEventAt.value <= n.collectedAt)
    && ValidLocator(n.sourceLocator)
    && ValidAuthenticity(n.authenticity)
    && ValidKind(n)
  }

  predicate BoundedRelationships(n: EvidenceNode)
  {
    |n.relationships| <= MAX_EVIDENCE_RELATIONSHIPS && Ascending(n.relationships)
  }

  predicate ValidNode(n: EvidenceNode)
  {
    ValidContent(n) && BoundedRelationships(n)
  }

  // ---- Layout of the kind -----------------------------------------------------

  datatype KindTag =
    | ClaimTag | ObservationTag | AttestationTag | GapTag | CounterclaimTag | ContradictionTag | CustodyTag

  function TagOf(k: EvidenceKind): KindTag
  {
    match k
    case Claim(_) => ClaimTag
    case Observation(_) => ObservationTag
    case Attestation(_) => AttestationTag
    case EvidenceGap(_, _) => GapTag
    case Counterclaim(_, _) => CounterclaimTag
    case Contradiction(_, _, _) => ContradictionTag
    case CustodyRecord(_, _, _) => CustodyTag
  }

  /** A registered identifier of the evidence namespace. */
  function EvidenceId(name: string): (id: Text)
    requires name != ""
    ensures |id| == 20 + |name| && id[20] == ByteOf(name[0])
  {
    Ascii("org.diewan.evidence." + name)
  }

  function ClaimId(): (id: Text)
    ensures |id| == 28
  {
    EvidenceId("claim.v1")
  }

  function ObservationId(): (id: Text)
    ensures |id| == 34 && id[20] == 'o' as int
  {
    EvidenceId("observation.v1")
  }

  function AttestationId(): (id: Text)
    ensures |id| == 34 && id[20] == 'a' as int
  {
    EvidenceId("attestation.v1")
  }

  function GapId(): (id: Text)
    ensures |id| == 26
  {
    EvidenceId("gap.v1")
  }

  function CounterclaimId(): (id: Text)
    ensures |id| == 35
  {
    EvidenceId("counterclaim.v1")
  }

  function ContradictionId(): (id: Text)
    ensures |id| == 36
  {
    EvidenceId("contradiction.v1")
  }

  function CustodyId(): (id: Text)
    ensures |id| == 37
  {
    EvidenceId("custody-record.v1")
  }

  function RegistryId(t: KindTag): (id: Text)
    ensures |id| <= MAX_EVIDENCE_TEXT_BYTES
  {
    match t
    case ClaimTag => ClaimId()
    case ObservationTag => ObservationId()
    case AttestationTag => AttestationId()
    case GapTag => GapId()
    case CounterclaimTag => CounterclaimId()
    case ContradictionTag => ContradictionId()
    case CustodyTag => CustodyId()
  }

  function Registered(id: Text): Option<KindTag>
  {
    if id == RegistryId(ClaimTag) then Some(ClaimTag)
    else if id == RegistryId(ObservationTag) then Some(ObservationTag)
    else if id == RegistryId(AttestationTag) then Some(AttestationTag)
    else if id == RegistryId(GapTag) then Some(GapTag)
    else if id == RegistryId(CounterclaimTag) then Some(CounterclaimTag)
    else if id == RegistryId(ContradictionTag) then Some(ContradictionTag)
    else if id == RegistryId(CustodyTag) then Some(CustodyTag)
    else None
  }

  /** Registered identifiers do not collide, so an identifier names one kind. */
  lemma RegistryIdsAreDistinct(t: KindTag)
    ensures Registered(RegistryId(t)) == Some(t)
  {
    hide ClaimId, ObservationId, AttestationId, GapId, CounterclaimId, ContradictionId, CustodyId;
  }

  predicate BoundedKind(k: EvidenceKind)
  {
    match k
    case Observation(methodId) => |methodId| <= MAX_EVIDENCE_TEXT_BYTES
    case Attestation(attester) => |attester| <= MAX_EVIDENCE_TEXT_BYTES
    case EvidenceGap(missing, _) => |missing| <= MAX_EVIDENCE_TEXT_BYTES
    case CustodyRecord(_, _, custodian) => |custodian| <= MAX_EVIDENCE_TEXT_BYTES
    case _ => true
  }

  function PushKindBody(k: EvidenceKind, tail: Bytes): (b: Bytes)
    ensures BoundedKind(k) ==> ReadKindBody(TagOf(k), b) == Got(k, tail)
  {
    hide PushDigest, PushText, PushBytes, PushOptionDigest, ReadDigest, ReadText, ReadBytes, ReadOptionDigest, Utf8;
    match k
    case Claim(d) => PushDigest(d, tail)
    case Observation(methodId) => PushText(Big, methodId, tail)
    case Attestation(attester) => PushBytes(Big, attester, tail)
    case EvidenceGap(missing, reason) => PushText(Big, missing, PushDigest(reason, tail))
    case Counterclaim(challenged, d) => PushDigest(challenged, PushDigest(d, tail))
    case Contradiction(left, right, d) => PushDigest(left, PushDigest(right, PushDigest(d, tail)))
    case CustodyRecord(subject, previous, custodian) =>
      PushDigest(subject, PushOptionDigest(previous, PushBytes(Big, custodian, tail)))
  }

  function ReadKindBody(t: KindTag, b: Bytes): Parsed<EvidenceKind>
  {
    match t
    case ClaimTag =>
      var (d, b) :- ReadDigest(b); Got(Claim(d), b)
    case ObservationTag =>
      var (methodId, b) :- ReadText(Big, MAX_EVIDENCE_TEXT_BYTES, b); Got(Observation(methodId), b)
    case AttestationTag =>
      var (attester, b) :- ReadBytes(Big, MAX_EVIDENCE_TEXT_BYTES, b); Got(Attestation(attester), b)
    case GapTag =>
      var (missing, b) :- ReadText(Big, MAX_EVIDENCE_TEXT_BYTES, b);
      var (reason, b) :- ReadDigest(b);
      Got(EvidenceGap(missing, reason), b)
    case CounterclaimTag =>
      var (challenged, b) :- ReadDigest(b);
      var (d, b) :- ReadDigest(b);
      Got(Counterclaim(challenged, d), b)
    case ContradictionTag =>
      var (left, b) :- ReadDigest(b);
      var (right, b) :- ReadDigest(b);
      var (d, b) :- ReadDigest(b);
      Got(Contradiction(left, right, d), b)
    case CustodyTag =>
      var (subject, b) :- ReadDigest(b);
      var (previous, b) :- ReadOptionDigest(b);
      var (custodian, b) :- ReadBytes(Big, MAX_EVIDENCE_TEXT_BYTES, b);
      Got(CustodyRecord(subject, previous, custodian), b)
  }

  function PushKind(k: EvidenceKind, tail: Bytes): (b: Bytes)
    ensures BoundedKind(k) ==> ReadKind(b) == Got(k, tail)
  {
    hide RegistryId;
    RegistryIdsAreDistinct(TagOf(k));
    PushText(Big, RegistryId(TagOf(k)), PushKindBody(k, tail))
  }

  function ReadKind(b: Bytes): Parsed<EvidenceKind>
  {
    var (id, b) :- ReadText(Big, MAX_EVIDENCE_TEXT_BYTES, b);
    match Registered(id)
    case Some(t) => ReadKindBody(t, b)
    case None => Fail
  }

  // ---- Layout of the node -----------------------------------------------------

  function PushLocator(l: SourceLocator, tail: Bytes): (b: Bytes)
    ensures (l.Disclosed? ==> |l.locator| <= MAX_EVIDENCE_TEXT_BYTES) ==> ReadLocator(b) == Got(l, tail)
  {
    match l
    case Disclosed(locator) => PushByte(0, PushText(Big, locator, tail))
    case Withheld(d) => PushByte(1, PushDigest(d, tail))
  }

  function ReadLocator(b: Bytes): Parsed<SourceLocator>
  {
    var (tag, b) :- ReadByte(b);
    match tag
    case 0 => var (locator, b) :- ReadText(Big, MAX_EVIDENCE_TEXT_BYTES, b); Got(Disclosed(locator), b)
    case 1 => var (d, b) :- ReadDigest(b); Got(Withheld(d), b)
    case _ => Fail
  }

  function PushAuthenticity(a: Option<Authenticity>, tail: Bytes): (b: Bytes)
    ensures (a.Some? ==> |a.value.schemeId| <= MAX_EVIDENCE_TEXT_BYTES) ==> ReadAuthenticity(b) == Got(a, tail)
  {
    match a
    case Some(m) => PushByte(1, PushText(Big, m.schemeId, PushDigest(m.materialDigest, tail)))
    case None => PushByte(0, tail)
  }

  function ReadAuthenticity(b: Bytes): Parsed<Option<Authenticity>>
  {
    var (tag, b) :- ReadByte(b);
    match tag
    case 0 => Got(None, b)
    case 1 =>
      var (schemeId, b) :- ReadText(Big, MAX_EVIDENCE_TEXT_BYTES, b);
      var (d, b) :- ReadDigest(b);
      Got(Some(Authenticity(schemeId, d)), b)
    case _ => Fail
  }

  function PushNode(n: EvidenceNode, tail: Bytes): Bytes
  {
    PushKind(n.kind,
    PushBytes(Big, n.producerIdentity,
    PushU64(Big, n.collectedAt,
    PushOptionU64(n.assertedEventAt,
    PushDigest(n.contentDigest,
    PushText(Big, n.mediaType,
    PushLocator(n.sourceLocator,
    PushAuthenticity(n.authenticity,
    PushText(Big, n.disclosureClassification,
    PushDigests(n.relationships, tail))))))))))
  }

  function ReadNode(b: Bytes): Parsed<EvidenceNode>
  {
    var (kind, b) :- ReadKind(b);
    var (producer, b) :- ReadBytes(Big, MAX_EVIDENCE_TEXT_BYTES, b);
    var (collectedAt, b) :- ReadU64(Big, b);
    var (assertedAt, b) :- ReadOptionU64(b);
    var (content, b) :- ReadDigest(b);
    var (mediaType, b) :- ReadText(Big, MAX_EVIDENCE_TEXT_BYTES, b);
    var (locator, b) :- ReadLocator(b);
    var (authenticity, b) :- ReadAuthenticity(b);
    var (classification, b) :- ReadText(Big, MAX_EVIDENCE_TEXT_BYTES, b);
    var (relationships, b) :- ReadDigests(MAX_EVIDENCE_RELATIONSHIPS, b);
    Got(EvidenceNode(kind, producer, collectedAt, assertedAt, content, mediaType, locator, authenticity,
                     classification, relationships), b)
  }

  predicate BoundedNode(n: EvidenceNode)
  {
    && BoundedKind(n.kind)
    && |n.producerIdentity| <= MAX_EVIDENCE_TEXT_BYTES
    && |n.mediaType| <= MAX_EVIDENCE_TEXT_BYTES
    && |n.disclosureClassification| <= MAX_EVIDENCE_TEXT_BYTES
    && (n.sourceLocator.Disclosed? ==> |n.sourceLocator.locator| <= MAX_EVIDENCE_TEXT_BYTES)
    && (n.authenticity.Some? ==> |n.authenticity.value.schemeId| <= MAX_EVIDENCE_TEXT_BYTES)
    && |n.relationships| <= MAX_EVIDENCE_RELATIONSHIPS
  }

  lemma ReadPushedNode(n: EvidenceNode, tail: Bytes)
    requires BoundedNode(n)
    ensures ReadNode(PushNode(n, tail)) == Got(n, tail)
  {
    hide PushKind, PushBytes, PushU64, PushOptionU64, PushDigest, PushText, PushLocator, PushAuthenticity, PushDigests;
    hide ReadKind, ReadBytes, ReadU64, ReadOptionU64, ReadDigest, ReadText, ReadLocator, ReadAuthenticity, ReadDigests,
         BoundedKind;
  }

  lemma ReadKindBodyConsumes(t: KindTag, b: Bytes)
    ensures var r := ReadKindBody(t, b); r.Got? ==> TagOf(r.value) == t && b == PushKindBody(r.value, r.rest)
  {
    hide PushBytes, PushDigest, PushText, PushOptionDigest, ReadBytes, ReadDigest, ReadText, ReadOptionDigest;
    ReadsConsume();
  }

  lemma ReadKindConsumes(b: Bytes)
    ensures var r := ReadKind(b); r.Got? ==> b == PushKind(r.value, r.rest)
  {
    hide PushText, PushKindBody, ReadText, ReadKindBody, RegistryId, Utf8;
    ReadsConsume();
    var id := ReadText(Big, MAX_EVIDENCE_TEXT_BYTES, b);
    if id.Got? && Registered(id.value).Some? {
      ReadKindBodyConsumes(Registered(id.value).value, id.rest);
    }
  }

  lemma NodeReadsConsume()
    ensures forall b {:trigger ReadKind(b)} :: var r := ReadKind(b); r.Got? ==> b == PushKind(r.value, r.rest)
    ensures forall b {:trigger ReadLocator(b)} :: var r := ReadLocator(b); r.Got? ==> b == PushLocator(r.value, r.rest)
    ensures forall b {:trigger ReadAuthenticity(b)} :: var r := ReadAuthenticity(b); r.Got? ==>
        b == PushAuthenticity(r.value, r.rest)
  {
    hide PushByte, PushDigest, PushText, PushKind, ReadByte, ReadDigest, ReadText, ReadKind;
    ReadsConsume();
    forall b: Bytes
      ensures var r := ReadKind(b); r.Got? ==> b == PushKind(r.value, r.rest)
    {
      ReadKindConsumes(b);
    }
  }

  lemma ReadNodeConsumes(b: Bytes)
    ensures var r := ReadNode(b); r.Got? ==> b == PushNode(r.value, r.rest)
  {
    hide PushKind, PushBytes, PushU64, PushOptionU64, PushDigest, PushText, PushLocator, PushAuthenticity, PushDigests;
    hide ReadKind, ReadBytes, ReadU64, ReadOptionU64, ReadDigest, ReadText, ReadLocator, ReadAuthenticity, ReadDigests;
    ReadsConsume();
    NodeReadsConsume();
  }

  // ---- The codec --------------------------------------------------------------

  function NodeBytes(n: EvidenceNode): Bytes
  {
    PushNode(n, [])
  }

  /** Parse everything, validate, and require the re-encoding to equal the input. */
  function NodeFromBytes(b: Bytes): Option<EvidenceNode>
  {
    var r := ReadNode(b);
    if r.Got? && r.rest == [] && ValidNode(r.value) && NodeBytes(r.value) == b then Some(r.value) else None
  }

  lemma NodeRoundTrip(n: EvidenceNode)
    requires ValidNode(n)
    ensures NodeFromBytes(NodeBytes(n)) == Some(n)
  {
    hide PushNode, ReadNode;
    assert BoundedNode(n);
    ReadPushedNode(n, []);
  }

  /** The re-encoding guard never fires: parsed and validated bytes already are canonical. */
  lemma NodeGuardNeverFires(b: Bytes)
    ensures var r := ReadNode(b); r.Got? && r.rest == [] ==> NodeBytes(r.value) == b
    ensures NodeFromBytes(b).Some? <==> exists n :: ValidNode(n) && NodeBytes(n) == b
  {
    hide PushNode, ReadNode, ValidNode;
    ReadNodeConsumes(b);
    forall n | ValidNode(n) && NodeBytes(n) == b
      ensures NodeFromBytes(b) == Some(n)
    {
      NodeRoundTrip(n);
    }
  }

  function NodeId(h: Hashes, n: EvidenceNode): Digest
  {
    h.Id(EvidenceDomain, NodeBytes(n))
  }

  lemma NodeIdCommits(h: Hashes, m: EvidenceNode, n: EvidenceNode)
    requires ValidNode(m) && ValidNode(n) && NodeId(h, m) == NodeId(h, n)
    ensures m == n || h.Collides(EvidenceDomain, NodeBytes(m), NodeBytes(n))
  {
    hide NodeBytes, NodeFromBytes, ValidNode;
    NodeRoundTrip(m);
    NodeRoundTrip(n);
  }

  method DecodeNode(bytes: Bytes) returns (r: Option<EvidenceNode>)
    ensures r == NodeFromBytes(bytes)
  {
    hide ReadKind, ReadBytes, ReadU64, ReadOptionU64, ReadDigest, ReadText, ReadLocator, ReadAuthenticity, ReadDigests;
    hide ValidNode, NodeBytes, Utf8;
    var c := new Cursor(Big, bytes);
    var kind := DecodeKind(c); if kind.None? { return None; }
    var producer := c.Bytes(MAX_EVIDENCE_TEXT_BYTES); if producer.None? { return None; }
    var collectedAt := c.U64(); if collectedAt.None? { return None; }
    var assertedAt := c.OptionU64(); if assertedAt.None? { return None; }
    var content := c.Digest(); if content.None? { return None; }
    var mediaType := c.Text(MAX_EVIDENCE_TEXT_BYTES); if mediaType.None? { return None; }
    var locator := DecodeLocator(c); if locator.None? { return None; }
    var authenticity := DecodeAuthenticity(c); if authenticity.None? { return None; }
    var classification := c.Text(MAX_EVIDENCE_TEXT_BYTES); if classification.None? { return None; }
    var relationships := c.Digests(MAX_EVIDENCE_RELATIONSHIPS); if relationships.None? { return None; }
    if c.remaining != [] { return None; }
    var n := EvidenceNode(kind.value, producer.value, collectedAt.value, assertedAt.value, content.value,
                          mediaType.value, locator.value, authenticity.value, classification.value,
                              relationships.value);
    r := if ValidNode(n) && NodeBytes(n) == bytes then Some(n) else None;
  }

  method DecodeKind(c: Cursor) returns (r: Option<EvidenceKind>)
    requires c.order == Big
    modifies c`remaining
    ensures c.Follows(ReadKind(old(c.remaining)), r)
  {
    hide ReadBytes, ReadDigest, ReadText, ReadOptionDigest, Utf8;
    var id := c.Text(MAX_EVIDENCE_TEXT_BYTES);
    if id.None? || Registered(id.value).None? { return None; }
    match Registered(id.value).value
    case ClaimTag =>
      var d := c.Digest(); if d.None? { return None; }
      r := Some(Claim(d.value));
    case ObservationTag =>
      var methodId := c.Text(MAX_EVIDENCE_TEXT_BYTES); if methodId.None? { return None; }
      r := Some(Observation(methodId.value));
    case AttestationTag =>
      var attester := c.Bytes(MAX_EVIDENCE_TEXT_BYTES); if attester.None? { return None; }
      r := Some(Attestation(attester.value));
    case GapTag =>
      var missing := c.Text(MAX_EVIDENCE_TEXT_BYTES); if missing.None? { return None; }
      var reason := c.Digest(); if reason.None? { return None; }
      r := Some(EvidenceGap(missing.value, reason.value));
    case CounterclaimTag =>
      var challenged := c.Digest(); if challenged.None? { return None; }
      var d := c.Digest(); if d.None? { return None; }
      r := Some(Counterclaim(challenged.value, d.value));
    case ContradictionTag =>
      var left := c.Digest(); if left.None? { return None; }
      var right := c.Digest(); if right.None? { return None; }
      var d := c.Digest(); if d.None? { return None; }
      r := Some(Contradiction(left.value, right.value, d.value));
    case CustodyTag =>
      var subject := c.Digest(); if subject.None? { return None; }
      var previous := c.OptionDigest(); if previous.None? { return None; }
      var custodian := c.Bytes(MAX_EVIDENCE_TEXT_BYTES); if custodian.None? { return None; }
      r := Some(CustodyRecord(subject.value, previous.value, custodian.value));
  }

  method DecodeLocator(c: Cursor) returns (r: Option<SourceLocator>)
    requires c.order == Big
    modifies c`remaining
    ensures c.Follows(ReadLocator(old(c.remaining)), r)
  {
    var tag := c.Byte();
    if tag == Some(0) {
      var locator := c.Text(MAX_EVIDENCE_TEXT_BYTES);
      r := if locator.Some? then Some(Disclosed(locator.value)) else None;
    } else if tag == Some(1) {
      var d := c.Digest();
      r := if d.Some? then Some(Withheld(d.value)) else None;
    } else {
      r := None;
    }
  }

  method DecodeAuthenticity(c: Cursor) returns (r: Option<Option<Authenticity>>)
    requires c.order == Big
    modifies c`remaining
    ensures c.Follows(ReadAuthenticity(old(c.remaining)), r)
  {
    var tag := c.Byte();
    if tag == Some(0) { return Some(None); }
    if tag != Some(1) { return None; }
    var schemeId := c.Text(MAX_EVIDENCE_TEXT_BYTES); if schemeId.None? { return None; }
    var d := c.Digest(); if d.None? { return None; }
    r := Some(Some(Authenticity(schemeId.value, d.value)));
  }
}
