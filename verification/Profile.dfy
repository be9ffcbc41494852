/** Registerable action-profile descriptors (csv-accountability/src/profile.rs). */
module Profile {
  import opened Bytes
  import opened Text
  import opened MandateState

  const MAX_PROFILE_ID_BYTES: nat := 128

  predicate StableByte(b: Byte)
  {
    0x61 <= b <= 0x7A || 0x30 <= b <= 0x39 || b == 0x2E || b == 0x2D
  }

  predicate StableIdentifier(s: Bytes)
  {
    0 < |s| <= MAX_PROFILE_ID_BYTES && forall i :: 0 <= i < |s| ==> StableByte(s[i])
  }

  datatype SourceClass = ExecutorSource | ProviderCorroborating | ExternalAnchor

  predicate Corroborating(c: SourceClass) { c in {ProviderCorroborating, ExternalAnchor} }

  datatype EvidenceSource = EvidenceSource(id: Text, sourceClass: SourceClass)

  datatype ReleaseRule = NeverReleasable | DefinedByProfile(policyId: Text, policyDigest: Digest)

  datatype Descriptor = Descriptor(
    profileId: Text,
    actionType: Text,
    parametersMediaType: Text,
    parametersDomainTag: Bytes,
    evidenceSources: seq<EvidenceSource>,
    quarantineRelease: ReleaseRule,
    maxContextCommitments: nat,
    maxIdentityBytes: nat)

  predicate ValidDescriptor(d: Descriptor)
  {
    var sources := d.evidenceSources;
    && StableIdentifier(d.profileId)
    && (forall i :: 0 <= i < |sources| ==> StableIdentifier(sources[i].id))
    && (forall i, j :: 0 <= i < j < |sources| ==> sources[i].id != sources[j].id)
    && (exists i :: 0 <= i < |sources| && sources[i].sourceClass == ExecutorSource)
    && (exists i :: 0 <= i < |sources| && Corroborating(sources[i].sourceClass))
  }

  function PolicyOf(d: Descriptor): ReleasePolicy
  {
    match d.quarantineRelease
    case NeverReleasable => Never
    case DefinedByProfile(id, digest) => ProfileDefined(id, digest)
  }

  /** A descriptor with the check of its canonical parameter bytes, which yields their stable target. */
  datatype Codec = Codec(descriptor: Descriptor, target: Bytes -> Option<Bytes>)
}
