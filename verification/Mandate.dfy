/**
  Action mandates and their detached signature envelopes (csv-accountability/src/mandate.rs).
  Integers are little-endian. The decoder does not re-encode and compare.
 */
module Mandate {
  import opened Bytes
  import opened Text
  import opened Wire
  import opened Hashing
  import opened Cursors

  const MAX_MANDATE_IDENTITY_BYTES: nat := 512
  const MAX_MANDATE_REQUIREMENTS: nat := 64
  const MAX_REGISTRY_ID_BYTES: nat := 128
  const MAX_SIGNATURE_BYTES: nat := 8192
  const MAX_KEY_ID_BYTES: nat := 512
  const PROTOCOL_MAJOR: U16 := 0
  const PROTOCOL_MINOR: U16 := 1
  const OBJECT_VERSION: ObjectVersion := 1
  const ED25519: Text := Ascii("org.diewan.signature.ed25519.v1")

  function MANDATE_TAG(): (s: Text)
    ensures ZeroFree(s)
  {
    Ascii("action-mandate-v1")
  }

  type ObjectVersion = v: U16 | v != 0 witness 1

  datatype MandateSubject = Identity(identity: Bytes) | ExecutorClass(executorClass: Text)

  datatype Requirement = Requirement(registryId: Text, parametersDigest: Digest)

  datatype SignatureRequirements = SignatureRequirements(algorithm: Text, keyId: Bytes)

  datatype ActionMandate = ActionMandate(
    protocolMajor: U16,
    protocolMinor: U16,
    mandateVersion: ObjectVersion,
    intentId: Digest,
    issuerIdentity: Bytes,
    subject: MandateSubject,
    authorityDomain: Bytes,
    validFrom: U64,
    expiresAt: U64,
    maximumDispatches: U32,
    constraints: seq<Requirement>,
    evidenceRequirements: seq<Requirement>,
    executionPolicy: Requirement,
    parentMandate: Option<Digest>,
    revocationReference: Option<Digest>,
    issuedAt: U64,
    nonce: Digest,
    signatureRequirements: SignatureRequirements)

  // ---- Validation -----------------------------------------------------------

  function RegistryIds(rs: seq<Requirement>): seq<Text>
  {
    seq(|rs|, i requires 0 <= i < |rs| => rs[i].registryId)
  }

  predicate ValidRequirements(rs: seq<Requirement>, requireNonempty: bool)
  {
    && |rs| <= MAX_MANDATE_REQUIREMENTS
    && (requireNonempty ==> rs != [])
    && (forall i :: 0 <= i < |rs| ==> RegisteredId(rs[i].registryId, MAX_REGISTRY_ID_BYTES))
    && Ascending(RegistryIds(rs))
  }

  predicate ValidSubject(s: MandateSubject)
  {
    match s
    case Identity(identity) => 0 < |identity| <= MAX_MANDATE_IDENTITY_BYTES
    case ExecutorClass(c) => RegisteredId(c, MAX_REGISTRY_ID_BYTES)
  }

  predicate ValidMandate(m: ActionMandate)
  {
    && m.protocolMajor == PROTOCOL_MAJOR && m.protocolMinor == PROTOCOL_MINOR
    && m.mandateVersion == OBJECT_VERSION
    && 0 < |m.issuerIdentity| <= MAX_MANDATE_IDENTITY_BYTES
    && 0 < |m.authorityDomain| <= MAX_MANDATE_IDENTITY_BYTES
    && ValidSubject(m.subject)
    && m.validFrom < m.expiresAt && m.issuedAt <= m.validFrom
    && m.maximumDispatches == 1
    && ValidRequirements(m.constraints, false)
    && ValidRequirements(m.evidenceRequirements, true)
    && RegisteredId(m.executionPolicy.registryId, MAX_REGISTRY_ID_BYTES)
    && m.signatureRequirements.algorithm == ED25519
    && 0 < |m.signatureRequirements.keyId| <= MAX_KEY_ID_BYTES
  }

  /** Whether `timestamp` is inside the half-open validity interval of a valid mandate. */
  predicate ValidAt(m: ActionMandate, timestamp: U64)
  {
    ValidMandate(m) && m.validFrom <= timestamp < m.expiresAt
  }

  // ---- Layout ---------------------------------------------------------------

  function PushSubject(s: MandateSubject, tail: Bytes): (b: Bytes)
    ensures ValidSubject(s) ==> ReadSubject(b) == Got(s, tail)
  {
    match s
    case Identity(identity) => PushByte(0, PushBytes(Little, identity, tail))
    case ExecutorClass(c) => PushByte(1, PushText(Little, c, tail))
  }

  function ReadSubject(b: Bytes): (r: Parsed<MandateSubject>)
  {
    var (tag, b) :- ReadByte(b);
    match tag
    case 0 => var (identity, b) :- ReadBytes(Little, MAX_SIGNATURE_BYTES, b); Got(Identity(identity), b)
    case 1 => var (c, b) :- ReadText(Little, MAX_SIGNATURE_BYTES, b); Got(ExecutorClass(c), b)
    case _ => Fail
  }

  predicate BoundedId(v: Requirement) { |v.registryId| <= MAX_SIGNATURE_BYTES }

  predicate BoundedIds(vs: seq<Requirement>)
  {
    |vs| <= MAX_MANDATE_REQUIREMENTS && forall i :: 0 <= i < |vs| ==> BoundedId(vs[i])
  }

  function PushRequirement(v: Requirement, tail: Bytes): (b: Bytes)
    ensures BoundedId(v) ==> ReadRequirement(b) == Got(v, tail)
  {
    PushText(Little, v.registryId, PushDigest(v.parametersDigest, tail))
  }

  function ReadRequirement(b: Bytes): (r: Parsed<Requirement>)
  {
    var (id, b) :- ReadText(Little, MAX_SIGNATURE_BYTES, b);
    var (d, b) :- ReadDigest(b);
    Got(Requirement(id, d), b)
  }

  function PushRequirements(vs: seq<Requirement>, tail: Bytes): (b: Bytes)
    ensures BoundedIds(vs) ==> ReadRequirements(b) == Got(vs, tail)
  {
    assert Undoes(ReadRequirement, PushRequirement, BoundedId);
    var b := PushList(Little, PushRequirement, vs, tail);
    assert BoundedIds(vs) ==> ReadRequirements(b) == Got(vs, tail) by {
      if BoundedIds(vs) {
        ReadPushedList(Little, MAX_MANDATE_REQUIREMENTS, ReadRequirement, PushRequirement, BoundedId, vs, tail);
      }
    }
    b
  }

  function ReadRequirements(b: Bytes): (r: Parsed<seq<Requirement>>)
  {
    ReadList(Little, MAX_MANDATE_REQUIREMENTS, ReadRequirement, b)
  }

  function PushMandate(m: ActionMandate, tail: Bytes): Bytes
  {
    PushU16(Little, m.protocolMajor,
    PushU16(Little, m.protocolMinor,
    PushU16(Little, m.mandateVersion,
    PushDigest(m.intentId,
    PushBytes(Little, m.issuerIdentity,
    PushSubject(m.subject,
    PushBytes(Little, m.authorityDomain,
    PushU64(Little, m.validFrom,
    PushU64(Little, m.expiresAt,
    PushU32(Little, m.maximumDispatches,
    PushRequirements(m.constraints,
    PushRequirements(m.evidenceRequirements,
    PushRequirement(m.executionPolicy,
    PushOptionDigest(m.parentMandate,
    PushOptionDigest(m.revocationReference,
    PushU64(Little, m.issuedAt,
    PushDigest(m.nonce,
    PushText(Little, m.signatureRequirements.algorithm,
    PushBytes(Little, m.signatureRequirements.keyId, tail)))))))))))))))))))
  }

  /** The leading fields of a mandate, up to the authority domain. */
  datatype Parties = Parties(
    major: U16, minor: U16, version: ObjectVersion, intentId: Digest, issuer: Bytes, subject: MandateSubject,
        domain: Bytes)

  function ReadParties(b: Bytes): Parsed<Parties>
  {
    var (major, b) :- ReadU16(Little, b);
    var (minor, b) :- ReadU16(Little, b);
    var (version, b) :- ReadU16(Little, b);
    if version == 0 then Fail else
    var (intentId, b) :- ReadDigest(b);
    var (issuer, b) :- ReadBytes(Little, MAX_SIGNATURE_BYTES, b);
    var (subject, b) :- ReadSubject(b);
    var (domain, b) :- ReadBytes(Little, MAX_SIGNATURE_BYTES, b);
    Got(Parties(major, minor, version, intentId, issuer, subject, domain), b)
  }

  function ReadMandate(b: Bytes): Parsed<ActionMandate>
  {
    var (p, b) :- ReadParties(b);
    var (validFrom, b) :- ReadU64(Little, b);
    var (expiresAt, b) :- ReadU64(Little, b);
    var (dispatches, b) :- ReadU32(Little, b);
    var (constraints, b) :- ReadRequirements(b);
    var (evidence, b) :- ReadRequirements(b);
    var (policy, b) :- ReadRequirement(b);
    var (parent, b) :- ReadOptionDigest(b);
    var (revocation, b) :- ReadOptionDigest(b);
    var (issuedAt, b) :- ReadU64(Little, b);
    var (nonce, b) :- ReadDigest(b);
    var (algorithm, b) :- ReadText(Little, MAX_SIGNATURE_BYTES, b);
    var (keyId, b) :- ReadBytes(Little, MAX_SIGNATURE_BYTES, b);
    Got(ActionMandate(p.major, p.minor, p.version, p.intentId, p.issuer, p.subject, p.domain, validFrom, expiresAt,
                      dispatches, constraints, evidence, policy, parent, revocation, issuedAt, nonce,
                      SignatureRequirements(algorithm, keyId)), b)
  }

  /** The bounds validation puts on the variable-length fields. */
  predicate Bounded(m: ActionMandate)
  {
    && |m.issuerIdentity| <= MAX_SIGNATURE_BYTES
    && |m.authorityDomain| <= MAX_SIGNATURE_BYTES
    && ValidSubject(m.subject)
    && BoundedIds(m.constraints)
    && BoundedIds(m.evidenceRequirements)
    && BoundedId(m.executionPolicy)
    && |m.signatureRequirements.algorithm| <= MAX_SIGNATURE_BYTES
    && |m.signatureRequirements.keyId| <= MAX_SIGNATURE_BYTES
  }

  lemma ReadPushedMandate(m: ActionMandate, tail: Bytes)
    requires Bounded(m)
    ensures ReadMandate(PushMandate(m, tail)) == Got(m, tail)
  {
    hide PushU16, PushU32, PushU64, PushDigest, PushBytes, PushText, PushOptionDigest, PushSubject, PushRequirements,
         PushRequirement;
    hide ReadU16, ReadU32, ReadU64, ReadDigest, ReadBytes, ReadText, ReadOptionDigest, ReadSubject, ReadRequirements,
         ReadRequirement;
  }

  lemma MandateReadsConsume()
    ensures forall b {:trigger ReadSubject(b)} :: var r := ReadSubject(b); r.Got? ==> b == PushSubject(r.value, r.rest)
    ensures forall b {:trigger ReadRequirement(b)} :: var r := ReadRequirement(b); r.Got? ==>
        b == PushRequirement(r.value, r.rest)
    ensures forall b {:trigger ReadRequirements(b)} :: var r := ReadRequirements(b); r.Got? ==>
        b == PushRequirements(r.value, r.rest)
  {
    hide PushByte, PushBytes, PushText, PushDigest, ReadByte, ReadBytes, ReadText, ReadDigest;
    ReadsConsume();
    assert Consumes(ReadRequirement, PushRequirement);
    forall b: Bytes
      ensures var r := ReadRequirements(b); r.Got? ==> b == PushRequirements(r.value, r.rest)
    {
      ReadListConsumes(Little, MAX_MANDATE_REQUIREMENTS, ReadRequirement, PushRequirement, b);
    }
  }

  lemma ReadMandateConsumes(b: Bytes)
    ensures var r := ReadMandate(b); r.Got? ==> b == PushMandate(r.value, r.rest)
  {
    hide PushU16, PushU32, PushU64, PushDigest, PushBytes, PushText, PushOptionDigest, PushSubject, PushRequirements,
         PushRequirement;
    hide ReadU16, ReadU32, ReadU64, ReadDigest, ReadBytes, ReadText, ReadOptionDigest, ReadSubject, ReadRequirements,
         ReadRequirement;
    ReadsConsume();
    MandateReadsConsume();
  }

  // ---- The codec --------------------------------------------------------------

  /** Canonical bytes; the source refuses to produce them for an invalid mandate. */
  function MandateBytes(m: ActionMandate): Bytes
  {
    PushMandate(m, [])
  }

  function MandateFromBytes(b: Bytes): Option<ActionMandate>
  {
    var r := ReadMandate(b);
    if r.Got? && r.rest == [] && ValidMandate(r.value) then Some(r.value) else None
  }

  /** Every valid mandate is decoded from its canonical bytes. */
  lemma MandateRoundTrip(m: ActionMandate)
    requires ValidMandate(m)
    ensures MandateFromBytes(MandateBytes(m)) == Some(m)
  {
    hide PushMandate, ReadMandate, ValidMandate, Bounded;
    ValidMandateIsBounded(m);
    ReadPushedMandate(m, []);
  }

  lemma ValidMandateIsBounded(m: ActionMandate)
    requires ValidMandate(m)
    ensures Bounded(m)
  {
    hide Trimmed, Utf8;
  }

  /** The decoder accepts exactly the image of the encoder, although it never re-encodes. */
  lemma MandateDecoderAcceptsTheImage(b: Bytes)
    ensures var r := MandateFromBytes(b); r.Some? ==> ValidMandate(r.value) && MandateBytes(r.value) == b
    ensures MandateFromBytes(b).Some? <==> exists m :: ValidMandate(m) && MandateBytes(m) == b
  {
    hide PushMandate, ReadMandate, ValidMandate;
    ReadMandateConsumes(b);
    forall m | ValidMandate(m) && MandateBytes(m) == b
      ensures MandateFromBytes(b) == Some(m)
    {
      MandateRoundTrip(m);
    }
  }

  lemma MandateBytesInjective(m: ActionMandate, n: ActionMandate)
    requires ValidMandate(m) && ValidMandate(n) && MandateBytes(m) == MandateBytes(n)
    ensures m == n
  {
    hide MandateBytes, MandateFromBytes, ValidMandate;
    MandateRoundTrip(m);
    MandateRoundTrip(n);
  }

  method DecodeMandate(bytes: Bytes) returns (r: Option<ActionMandate>)
    ensures r == MandateFromBytes(bytes)
  {
    hide ReadParties, ReadU32, ReadU64, ReadDigest, ReadBytes, ReadText, ReadOptionDigest, ReadRequirements,
         ReadRequirement, ValidMandate, Utf8;
    var c := new Cursor(Little, bytes);
    var parties := DecodeParties(c); if parties.None? { return None; }
    var p := parties.value;
    var validFrom := c.U64(); if validFrom.None? { return None; }
    var expiresAt := c.U64(); if expiresAt.None? { return None; }
    var dispatches := c.U32(); if dispatches.None? { return None; }
    var constraints := DecodeRequirements(c); if constraints.None? { return None; }
    var evidence := DecodeRequirements(c); if evidence.None? { return None; }
    var policy := DecodeRequirement(c); if policy.None? { return None; }
    var parent := c.OptionDigest(); if parent.None? { return None; }
    var revocation := c.OptionDigest(); if revocation.None? { return None; }
    var issuedAt := c.U64(); if issuedAt.None? { return None; }
    var nonce := c.Digest(); if nonce.None? { return None; }
    var algorithm := c.Text(MAX_SIGNATURE_BYTES); if algorithm.None? { return None; }
    var keyId := c.Bytes(MAX_SIGNATURE_BYTES); if keyId.None? { return None; }
    if c.remaining != [] { return None; }
    var m := ActionMandate(p.major, p.minor, p.version, p.intentId, p.issuer, p.subject, p.domain, validFrom.value,
                           expiresAt.value, dispatches.value, constraints.value, evidence.value, policy.value,
                           parent.value, revocation.value, issuedAt.value, nonce.value,
                               SignatureRequirements(algorithm.value, keyId.value));
    r := if ValidMandate(m) then Some(m) else None;
  }

  method DecodeParties(c: Cursor) returns (r: Option<Parties>)
    requires c.order == Little
    modifies c`remaining
    ensures c.Follows(ReadParties(old(c.remaining)), r)
  {
    hide ReadU16, ReadDigest, ReadBytes, ReadSubject;
    var major := c.U16(); if major.None? { return None; }
    var minor := c.U16(); if minor.None? { return None; }
    var version := c.U16(); if version.None? || version.value == 0 { return None; }
    var intentId := c.Digest(); if intentId.None? { return None; }
    var issuer := c.Bytes(MAX_SIGNATURE_BYTES); if issuer.None? { return None; }
    var subject := DecodeSubject(c); if subject.None? { return None; }
    var domain := c.Bytes(MAX_SIGNATURE_BYTES); if domain.None? { return None; }
    r := Some(Parties(major.value, minor.value, version.value, intentId.value, issuer.value, subject.value,
        domain.value));
  }

  method DecodeSubject(c: Cursor) returns (r: Option<MandateSubject>)
    requires c.order == Little
    modifies c`remaining
    ensures c.Follows(ReadSubject(old(c.remaining)), r)
  {
    var tag := c.Byte();
    if tag == Some(0) {
      var identity := c.Bytes(MAX_SIGNATURE_BYTES);
      r := if identity.Some? then Some(Identity(identity.value)) else None;
    } else if tag == Some(1) {
      var executorClass := c.Text(MAX_SIGNATURE_BYTES);
      r := if executorClass.Some? then Some(ExecutorClass(executorClass.value)) else None;
    } else {
      r := None;
    }
  }

  method DecodeRequirement(c: Cursor) returns (r: Option<Requirement>)
    requires c.order == Little
    modifies c`remaining
    ensures c.Follows(ReadRequirement(old(c.remaining)), r)
  {
    var id := c.Text(MAX_SIGNATURE_BYTES); if id.None? { return None; }
    var digest := c.Digest(); if digest.None? { return None; }
    r := Some(Requirement(id.value, digest.value));
  }

  method DecodeRequirements(c: Cursor) returns (r: Option<seq<Requirement>>)
    requires c.order == Little
    modifies c`remaining
    ensures c.Follows(ReadRequirements(old(c.remaining)), r)
  {
    hide ReadU32, ReadRequirement;
    var n := c.U32();
    if n.None? || n.value > MAX_MANDATE_REQUIREMENTS { return None; }
    var count := n.value;
    ghost var start := c.remaining;
    var values: seq<Requirement> := [];
    for i := 0 to count
      invariant ReadAll(ReadRequirement, i, start) == Got(values, c.remaining)
    {
      var v := DecodeRequirement(c);
      if v.None? {
        ReadAllFails(ReadRequirement, i + 1, count, start);
        return None;
      }
      values := values + [v.value];
    }
    r := Some(values);
  }

  // ---- Identity ---------------------------------------------------------------

  function MandateId(h: Hashes, m: ActionMandate): Digest
  {
    h.TaggedId(MandateDomain, MANDATE_TAG(), MandateBytes(m))
  }

  /** What the identifier hashes: the tag, a zero byte and the canonical bytes. */
  function MandatePreimage(m: ActionMandate): Bytes
  {
    Join(MANDATE_TAG(), MandateBytes(m))
  }

  /** Two valid mandates with one identifier are equal, or exhibit a hash collision. */
  lemma MandateIdCommits(h: Hashes, m: ActionMandate, n: ActionMandate)
    requires ValidMandate(m) && ValidMandate(n) && MandateId(h, m) == MandateId(h, n)
    ensures m == n || h.Collides(MandateDomain, MandatePreimage(m), MandatePreimage(n))
  {
    hide MandateBytes, ValidMandate, MANDATE_TAG;
    var prefix := MANDATE_TAG() + [0];
    if MandatePreimage(m) == MandatePreimage(n) {
      assert MandateBytes(m) == (prefix + MandateBytes(m))[|prefix|..] == MandateBytes(n);
      MandateBytesInjective(m, n);
    }
  }

  // ---- Signature envelope ------------------------------------------------------

  datatype SignatureEnvelope = SignatureEnvelope(
    version: ObjectVersion,
    algorithm: Text,
    keyId: Bytes,
    signature: Bytes)

  predicate ValidFor(e: SignatureEnvelope, m: ActionMandate)
  {
    && ValidMandate(m)
    && e.version == OBJECT_VERSION
    && e.algorithm == m.signatureRequirements.algorithm == ED25519
    && e.keyId == m.signatureRequirements.keyId
    && |e.signature| == 64
  }

  function PushEnvelope(e: SignatureEnvelope, tail: Bytes): Bytes
  {
    PushU16(Little, e.version,
    PushText(Little, e.algorithm,
    PushBytes(Little, e.keyId,
    PushBytes(Little, e.signature, tail))))
  }

  function ReadEnvelope(b: Bytes): Parsed<SignatureEnvelope>
  {
    var (version, b) :- ReadU16(Little, b);
    if version == 0 then Fail else
    var (algorithm, b) :- ReadText(Little, MAX_SIGNATURE_BYTES, b);
    var (keyId, b) :- ReadBytes(Little, MAX_SIGNATURE_BYTES, b);
    var (signature, b) :- ReadBytes(Little, MAX_SIGNATURE_BYTES, b);
    Got(SignatureEnvelope(version, algorithm, keyId, signature), b)
  }

  function EnvelopeBytes(e: SignatureEnvelope): Bytes
  {
    PushEnvelope(e, [])
  }

  function EnvelopeFromBytes(b: Bytes, m: ActionMandate): Option<SignatureEnvelope>
  {
    var r := ReadEnvelope(b);
    if r.Got? && r.rest == [] && ValidFor(r.value, m) then Some(r.value) else None
  }

  lemma ReadPushedEnvelope(e: SignatureEnvelope, tail: Bytes)
    requires |e.algorithm| <= MAX_SIGNATURE_BYTES && |e.keyId| <= MAX_SIGNATURE_BYTES
    requires |e.signature| <= MAX_SIGNATURE_BYTES
    ensures ReadEnvelope(PushEnvelope(e, tail)) == Got(e, tail)
  {
    hide PushU16, PushText, PushBytes, ReadU16, ReadText, ReadBytes;
  }

  lemma EnvelopeRoundTrip(e: SignatureEnvelope, m: ActionMandate)
    requires ValidFor(e, m)
    ensures EnvelopeFromBytes(EnvelopeBytes(e), m) == Some(e)
  {
    hide PushEnvelope, ReadEnvelope, ValidRequirements, ValidSubject, RegisteredId, Utf8;
    ReadPushedEnvelope(e, []);
  }

  lemma EnvelopeDecoderAcceptsTheImage(b: Bytes, m: ActionMandate)
    ensures var r := EnvelopeFromBytes(b, m); r.Some? ==> ValidFor(r.value, m) && EnvelopeBytes(r.value) == b
    ensures EnvelopeFromBytes(b, m).Some? <==> exists e :: ValidFor(e, m) && EnvelopeBytes(e) == b
  {
    hide PushU16, PushText, PushBytes, ReadU16, ReadText, ReadBytes, ValidFor;
    ReadsConsume();
    forall e | ValidFor(e, m) && EnvelopeBytes(e) == b
      ensures EnvelopeFromBytes(b, m) == Some(e)
    {
      EnvelopeRoundTrip(e, m);
    }
  }

  method DecodeEnvelope(bytes: Bytes, m: ActionMandate) returns (r: Option<SignatureEnvelope>)
    ensures r == EnvelopeFromBytes(bytes, m)
  {
    hide ReadU16, ReadText, ReadBytes, ValidFor, Utf8;
    var c := new Cursor(Little, bytes);
    var version := c.U16(); if version.None? || version.value == 0 { return None; }
    var algorithm := c.Text(MAX_SIGNATURE_BYTES); if algorithm.None? { return None; }
    var keyId := c.Bytes(MAX_SIGNATURE_BYTES); if keyId.None? { return None; }
    var signature := c.Bytes(MAX_SIGNATURE_BYTES); if signature.None? { return None; }
    if c.remaining != [] { return None; }
    var e := SignatureEnvelope(version.value, algorithm.value, keyId.value, signature.value);
    r := if ValidFor(e, m) then Some(e) else None;
  }
}
