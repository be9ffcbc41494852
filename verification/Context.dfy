/** Hash-bound verification contexts (csv-accountability/src/context.rs). Integers are big-endian. */
module Context {
  import opened Bytes
  import opened Text
  import opened Wire
  import opened Hashing
  import opened Writers
  import opened Mandate

  const MAX_CONTEXT_EXTENSIONS: nat := 64
  const MAX_CONTEXT_EXTENSION_ID_BYTES: nat := 128

  datatype Extension = Extension(registryId: Text, parametersDigest: Digest)

  datatype VerificationContext = VerificationContext(
    contextVersion: ObjectVersion,
    protocolMajor: U16,
    protocolMinor: U16,
    evaluationTime: U64,
    verifierPolicyDigest: Digest,
    trustPackageDigest: Digest,
    revocationSnapshotDigest: Digest,
    algorithmPolicyDigest: Digest,
    externalEvidencePolicyDigest: Digest,
    assuranceThresholdsDigest: Digest,
    extensions: seq<Extension>)

  datatype ContextError = UnsupportedVersion | MissingPolicyDigest | InvalidExtensions

  function ExtensionIds(es: seq<Extension>): seq<Text>
  {
    seq(|es|, i requires 0 <= i < |es| => es[i].registryId)
  }

  predicate ValidExtension(e: Extension)
  {
    && 0 < |e.registryId| <= MAX_CONTEXT_EXTENSION_ID_BYTES
    && Trimmed(e.registryId) && IsAscii(e.registryId) && e.parametersDigest != ZERO
  }

  predicate ValidExtensions(es: seq<Extension>)
  {
    && |es| <= MAX_CONTEXT_EXTENSIONS
    && (forall i :: 0 <= i < |es| ==> ValidExtension(es[i]))
    && Ascending(ExtensionIds(es))
  }

  function ValidateContext(c: VerificationContext): Result<(), ContextError>
  {
    if c.contextVersion != OBJECT_VERSION || c.protocolMajor != PROTOCOL_MAJOR || c.protocolMinor != PROTOCOL_MINOR then
      Err(UnsupportedVersion)
    else if ZERO in {c.verifierPolicyDigest, c.trustPackageDigest, c.revocationSnapshotDigest, c.algorithmPolicyDigest,
                     c.externalEvidencePolicyDigest, c.assuranceThresholdsDigest} then
      Err(MissingPolicyDigest)
    else if !ValidExtensions(c.extensions) then
      Err(InvalidExtensions)
    else
      Ok(())
  }

  predicate ValidContext(c: VerificationContext) { ValidateContext(c).Ok? }

  predicate Supported(c: VerificationContext)
  {
    c.contextVersion == OBJECT_VERSION && c.protocolMajor == PROTOCOL_MAJOR && c.protocolMinor == PROTOCOL_MINOR
  }

  /** All six policies are named. */
  predicate NamesItsPolicies(c: VerificationContext)
  {
    && c.verifierPolicyDigest != ZERO && c.trustPackageDigest != ZERO && c.revocationSnapshotDigest != ZERO
    && c.algorithmPolicyDigest != ZERO && c.externalEvidencePolicyDigest != ZERO
    && c.assuranceThresholdsDigest != ZERO
  }

  lemma ContextErrorsExactlyWhen(c: VerificationContext)
    ensures ValidContext(c) <==> Supported(c) && NamesItsPolicies(c) && ValidExtensions(c.extensions)
    ensures ValidateContext(c) == Err(UnsupportedVersion) <==> !Supported(c)
    ensures ValidateContext(c) == Err(MissingPolicyDigest) <==> Supported(c) && !NamesItsPolicies(c)
    ensures ValidateContext(c) == Err(InvalidExtensions) <==>
              Supported(c) && NamesItsPolicies(c) && !ValidExtensions(c.extensions)
  {
    hide ValidExtensions;
  }

  // ---- Canonical bytes and identity ---------------------------------------------------

  predicate BoundedExtension(e: Extension) { |e.registryId| <= NO_LIMIT }

  predicate BoundedExtensions(es: seq<Extension>)
  {
    |es| <= NO_LIMIT && forall i :: 0 <= i < |es| ==> BoundedExtension(es[i])
  }

  function PushExtension(e: Extension, tail: Bytes): (b: Bytes)
    ensures BoundedExtension(e) ==> ReadExtension(b) == Got(e, tail)
  {
    PushText(Big, e.registryId, PushDigest(e.parametersDigest, tail))
  }

  /** The inverse of `PushExtension`; the source has no context decoder, so only proofs use it. */
  function ReadExtension(b: Bytes): Parsed<Extension>
  {
    var (id, b) :- ReadText(Big, NO_LIMIT, b);
    var (d, b) :- ReadDigest(b);
    Got(Extension(id, d), b)
  }

  function PushExtensions(es: seq<Extension>, tail: Bytes): (b: Bytes)
    ensures BoundedExtensions(es) ==> ReadList(Big, NO_LIMIT, ReadExtension, b) == Got(es, tail)
  {
    var b := PushList(Big, PushExtension, es, tail);
    assert BoundedExtensions(es) ==> ReadList(Big, NO_LIMIT, ReadExtension, b) == Got(es, tail) by {
      if BoundedExtensions(es) {
        ReadPushedList(Big, NO_LIMIT, ReadExtension, PushExtension, BoundedExtension, es, tail);
      }
    }
    b
  }

  function ContextBytes(c: VerificationContext): Bytes
  {
    PushU16(Big, c.contextVersion,
    PushU16(Big, c.protocolMajor,
    PushU16(Big, c.protocolMinor,
    PushU64(Big, c.evaluationTime,
    PushDigest(c.verifierPolicyDigest,
    PushDigest(c.trustPackageDigest,
    PushDigest(c.revocationSnapshotDigest,
    PushDigest(c.algorithmPolicyDigest,
    PushDigest(c.externalEvidencePolicyDigest,
    PushDigest(c.assuranceThresholdsDigest,
    PushExtensions(c.extensions, [])))))))))))
  }

  method EncodeContext(c: VerificationContext) returns (r: Result<Bytes, ContextError>)
    ensures r.Ok? <==> ValidContext(c)
    ensures r == match ValidateContext(c) case Ok(_) => Ok(ContextBytes(c)) case Err(e) => Err(e)
  {
    hide PushU16, PushU64, PushDigest, PushExtensions, ReadU16, ReadU64, ReadDigest, ReadList, Trimmed, IsAscii,
         Ascending, Utf8, ValidateContext;
    var v := ValidateContext(c);
    if v.Err? {
      return Err(v.error);
    }
    assert BoundedExtensions(c.extensions) by { ValidContextIsBounded(c); }
    var w := new Writer(Big, ContextBytes(c));
    w.U16(c.contextVersion);
    w.U16(c.protocolMajor);
    w.U16(c.protocolMinor);
    w.U64(c.evaluationTime);
    w.Digest(c.verifierPolicyDigest);
    w.Digest(c.trustPackageDigest);
    w.Digest(c.revocationSnapshotDigest);
    w.Digest(c.algorithmPolicyDigest);
    w.Digest(c.externalEvidencePolicyDigest);
    w.Digest(c.assuranceThresholdsDigest);
    EncodeExtensions(w, c.extensions);
    var bytes := w.Finish();
    return Ok(bytes);
  }

  lemma ValidContextIsBounded(c: VerificationContext)
    requires ValidContext(c)
    ensures BoundedExtensions(c.extensions)
  {
    hide Trimmed, IsAscii, Ascending, Utf8;
  }

  method EncodeExtensions(w: Writer, es: seq<Extension>)
    requires w.order == Big && w.Valid() && BoundedExtensions(es)
    requires Next(ReadList(Big, NO_LIMIT, ReadExtension, w.rest), es)
    modifies w`out, w`rest
    ensures w.Valid() && w.rest == ReadList(Big, NO_LIMIT, ReadExtension, old(w.rest)).rest
  {
    hide ReadU32, ReadText, ReadDigest, Utf8;
    w.U32(LengthPrefix(|es|));
    ghost var start := w.rest;
    for i := 0 to |es|
      invariant w.Valid()
      invariant ReadAll(ReadExtension, i, start) == Got(es[..i], w.rest)
    {
      ReadAllStep(ReadExtension, i, es, start);
      w.Text(es[i].registryId);
      w.Digest(es[i].parametersDigest);
    }
    assert es[..|es|] == es;
  }

  lemma ContextBytesInjective(c: VerificationContext, d: VerificationContext)
    requires ValidContext(c) && ValidContext(d) && ContextBytes(c) == ContextBytes(d)
    ensures c == d
  {
    hide PushU16, PushU64, PushDigest, PushExtensions, ReadU16, ReadU64, ReadDigest, ReadList, Trimmed, IsAscii,
         Ascending, Utf8;
    assert BoundedExtensions(c.extensions) && BoundedExtensions(d.extensions);
  }

  function ContextId(h: Hashes, c: VerificationContext): Digest
  {
    h.Id(ContextDomain, ContextBytes(c))
  }

  lemma ContextIdCommits(h: Hashes, c: VerificationContext, d: VerificationContext)
    requires ValidContext(c) && ValidContext(d) && ContextId(h, c) == ContextId(h, d)
    ensures c == d || h.Collides(ContextDomain, ContextBytes(c), ContextBytes(d))
  {
    hide ContextBytes, ValidContext;
    if ContextBytes(c) == ContextBytes(d) { ContextBytesInjective(c, d); }
  }

  /** An output that names the context it was computed under. */
  datatype Bound<T> = Bound(contextId: Digest, result: T)
}
