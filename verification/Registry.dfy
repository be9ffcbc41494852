/**
  The profile registry and the built-in profiles (csv-accountability/src/registry.rs,
  with the descriptors of csv-accountability/src/intent.rs).
 */
module Registry {
  import opened Bytes
  import opened Text
  import opened Hashing
  import opened Profile
  import opened IntentProfiles
  import opened Intent
  import opened MandateState

  datatype RegisterError = InvalidDescriptor | DuplicateProfile

  /** What registering `codec` makes of a table of entries. */
  function Registered(entries: map<Text, Codec>, codec: Codec): map<Text, Codec>
  {
    if ValidDescriptor(codec.descriptor) && codec.descriptor.profileId !in entries
    then entries[codec.descriptor.profileId := codec]
    else entries
  }

  class ProfileRegistry {
    var entries: map<Text, Codec>

    constructor ()
      ensures entries == map[]
    {
      entries := map[];
    }

    method Register(codec: Codec) returns (r: Result<(), RegisterError>)
      modifies this`entries
      ensures r.Ok? <==> ValidDescriptor(codec.descriptor) && codec.descriptor.profileId !in old(entries)
      ensures r == Err(InvalidDescriptor) <==> !ValidDescriptor(codec.descriptor)
      ensures r == Err(DuplicateProfile) <==>
                ValidDescriptor(codec.descriptor) && codec.descriptor.profileId in old(entries)
      ensures entries == Registered(old(entries), codec)
    {
      var id := codec.descriptor.profileId;
      if !ValidDescriptor(codec.descriptor) {
        return Err(InvalidDescriptor);
      }
      if id in entries {
        return Err(DuplicateProfile);
      }
      entries := entries[id := codec];
      return Ok(());
    }
  }

  /**
    Two registrations commute exactly when they do not compete for one identifier: of two
    different valid codecs for a free identifier the first wins.
   */
  lemma RegistrationsCommuteExactlyWhen(entries: map<Text, Codec>, a: Codec, b: Codec)
    ensures Registered(Registered(entries, a), b) == Registered(Registered(entries, b), a) <==>
              || a == b
              || a.descriptor.profileId != b.descriptor.profileId
              || !ValidDescriptor(a.descriptor) || !ValidDescriptor(b.descriptor)
              || a.descriptor.profileId in entries
  {
    hide ValidDescriptor, Registered, Utf8;
    RegisteredTwice(entries, a, b);
    RegisteredTwice(entries, b, a);
    var p, q := a.descriptor.profileId, b.descriptor.profileId;
    if ValidDescriptor(a.descriptor) && ValidDescriptor(b.descriptor) && p !in entries {
      if p == q {
        assert Registered(Registered(entries, a), b)[p] == a;
      } else {
        assert entries[p := a][q := b] == entries[q := b][p := a];
      }
    }
  }

  /** What two registrations in a row make of a table. */
  lemma RegisteredTwice(entries: map<Text, Codec>, a: Codec, b: Codec)
    ensures var p, q := a.descriptor.profileId, b.descriptor.profileId;
            var addA := ValidDescriptor(a.descriptor) && p !in entries;
            var addB := ValidDescriptor(b.descriptor) && q !in entries && !(addA && p == q);
            var first := if addA then entries[p := a] else entries;
            Registered(Registered(entries, a), b) == if addB then first[q := b] else first
  {
    hide ValidDescriptor, Utf8;
  }

  /** Two codecs for one identifier: on an empty table whoever registers first stays. */
  lemma RegistrationsMayNotCommute()
    ensures exists a: Codec, b: Codec ::
              && ValidDescriptor(a.descriptor) && ValidDescriptor(b.descriptor)
              && Registered(Registered(map[], a), b) != Registered(Registered(map[], b), a)
  {
    var x, y: Text := [0x61], [0x62];
    var sources := [EvidenceSource(x, ExecutorSource), EvidenceSource(y, ExternalAnchor)];
    assert sources[0].sourceClass == ExecutorSource && Corroborating(sources[1].sourceClass);
    var d := Descriptor(x, x, x, x, sources, NeverReleasable, 0, 0);
    var a, b := Codec(d, _ => None), Codec(d.(actionType := y), _ => None);
    assert ValidDescriptor(a.descriptor) && ValidDescriptor(b.descriptor);
    assert a.descriptor.actionType[0] != b.descriptor.actionType[0];
    RegistrationsCommuteExactlyWhen(map[], a, b);
  }

  // ---- Built-in profiles ---------------------------------------------------------------

  predicate StableChar(c: char) { 'a' <= c <= 'z' || '0' <= c <= '9' || c == '.' || c == '-' }

  function StableByteOf(c: char): (b: Byte)
    ensures StableByte(b)
    ensures StableChar(c) ==> b == c as int
  {
    if StableChar(c) then c as int else '-' as int
  }

  /** A protocol-owned identifier, written as a namespace and a name in stable characters. */
  function Identifier(namespace: string, name: string): (s: Text)
    requires 0 < |namespace| + |name| <= MAX_PROFILE_ID_BYTES
    ensures StableIdentifier(s)
    ensures |s| == |namespace| + |name|
    ensures name != "" ==> s[|namespace|] == StableByteOf(name[0])
  {
    var literal := namespace + name;
    var s := seq<Byte>(|literal|, i requires 0 <= i < |literal| => StableByteOf(literal[i]));
    AsciiIsUtf8(s);
    s
  }

  /** An evidence-source identifier of one area. */
  function SourceId(area: string, name: string): (s: Text)
    requires area != "" && |area| + |name| <= 64
    ensures StableIdentifier(s)
    ensures |s| == 10 + |area| + |name| && s[9] == StableByteOf(area[0])
  {
    hide Identifier, StableIdentifier, StableByteOf, Utf8;
    Identifier("evidence.", area + "." + name)
  }

  function GITHUB_PROFILE(): (s: Text)
    ensures StableIdentifier(s) && |s| == 53
  {
    hide Identifier, StableIdentifier, Utf8;
    Identifier("org.diewan.accountability.", "github-deployment.intent.v1")
  }

  function MIGRATION_PROFILE(): (s: Text)
    ensures StableIdentifier(s) && |s| == 48
  {
    hide Identifier, StableIdentifier, Utf8;
    Identifier("org.diewan.accountability.", "db-migration.intent.v1")
  }

  function PAYMENT_PROFILE(): (s: Text)
    ensures StableIdentifier(s) && |s| == 43
  {
    hide Identifier, StableIdentifier, Utf8;
    Identifier("org.diewan.accountability.", "payment.intent.v1")
  }

  function ATTEMPT_RECORD(): (s: Text)
    ensures StableIdentifier(s) && |s| == 32 && s[9] == StableByteOf('e')
  {
    hide SourceId, StableIdentifier, StableByteOf, Utf8;
    SourceId("executor", "attempt-record")
  }

  function GITHUB_DEPLOYMENT_RECORD(): (s: Text)
    ensures StableIdentifier(s) && |s| == 33
  {
    hide SourceId, StableIdentifier, StableByteOf, Utf8;
    SourceId("github", "deployment-record")
  }

  function GITHUB_WEBHOOK_DELIVERY(): (s: Text)
    ensures StableIdentifier(s) && |s| == 32 && s[9] == StableByteOf('g')
  {
    hide SourceId, StableIdentifier, StableByteOf, Utf8;
    SourceId("github", "webhook-delivery")
  }

  function GITHUB_ENVIRONMENT_CONFIGURATION(): (s: Text)
    ensures StableIdentifier(s) && |s| == 55
  {
    hide SourceId, StableIdentifier, StableByteOf, Utf8;
    SourceId("github", "authenticated-environment" + "-configuration")
  }

  function SEAL_CONSUMPTION_RECORD(): (s: Text)
    ensures StableIdentifier(s) && |s| == 36 && s[9] == StableByteOf('c')
  {
    hide SourceId, StableIdentifier, StableByteOf, Utf8;
    SourceId("csv-seal", "consumption-record")
  }

  function SEAL_COMMITMENT_ANCHOR(): (s: Text)
    ensures StableIdentifier(s) && |s| == 35
  {
    hide SourceId, StableIdentifier, StableByteOf, Utf8;
    SourceId("csv-seal", "commitment-anchor")
  }

  function CHAIN_COMMITMENT_ANCHOR(): (s: Text)
    ensures StableIdentifier(s) && |s| == 32 && s[9] == StableByteOf('c')
  {
    hide SourceId, StableIdentifier, StableByteOf, Utf8;
    SourceId("chain", "commitment-anchor")
  }

  function MIGRATION_APPLIED_RECORD(): (s: Text)
    ensures StableIdentifier(s) && |s| == 36 && s[9] == StableByteOf('d')
  {
    hide SourceId, StableIdentifier, StableByteOf, Utf8;
    SourceId("db-migration", "applied-record")
  }

  function PAYMENT_SETTLEMENT_RECORD(): (s: Text)
    ensures StableIdentifier(s) && |s| == 34
  {
    hide SourceId, StableIdentifier, StableByteOf, Utf8;
    SourceId("payment", "settlement-record")
  }

  function GITHUB_ACTION_TYPE(): (s: Text)
    ensures |s| <= 64
  {
    Ascii("github.deployment")
  }

  function GITHUB_MEDIA_TYPE(): (s: Text)
    ensures |s| <= 64
  {
    Ascii("application/vnd.diewan.github-deployment-v1+csv-binary")
  }

  function GITHUB_DOMAIN_TAG(): (s: Text)
    ensures |s| == 31 && ZeroFree(s)
  {
    Ascii("github-deployment-parameters-v1")
  }

  function GitHubDescriptor(): Descriptor
  {
    var sources := [EvidenceSource(ATTEMPT_RECORD(), ExecutorSource),
                    EvidenceSource(GITHUB_DEPLOYMENT_RECORD(), ProviderCorroborating),
                    EvidenceSource(GITHUB_WEBHOOK_DELIVERY(), ProviderCorroborating),
                    EvidenceSource(GITHUB_ENVIRONMENT_CONFIGURATION(), ProviderCorroborating),
                    EvidenceSource(SEAL_CONSUMPTION_RECORD(), ExternalAnchor),
                    EvidenceSource(SEAL_COMMITMENT_ANCHOR(), ExternalAnchor)];
    Descriptor(GITHUB_PROFILE(), GITHUB_ACTION_TYPE(), GITHUB_MEDIA_TYPE(), GITHUB_DOMAIN_TAG(), sources,
        NeverReleasable, 32, 4096)
  }

  lemma GitHubDescriptorIsValid()
    ensures ValidDescriptor(GitHubDescriptor()) && GitHubDescriptor().profileId == GITHUB_PROFILE()
  {
    hide Utf8, StableIdentifier, GITHUB_PROFILE, ATTEMPT_RECORD, GITHUB_DEPLOYMENT_RECORD, GITHUB_WEBHOOK_DELIVERY,
         GITHUB_ENVIRONMENT_CONFIGURATION, SEAL_CONSUMPTION_RECORD, SEAL_COMMITMENT_ANCHOR, GITHUB_ACTION_TYPE,
         GITHUB_MEDIA_TYPE, GITHUB_DOMAIN_TAG;
    var sources := GitHubDescriptor().evidenceSources;
    assert sources[0].sourceClass == ExecutorSource && Corroborating(sources[1].sourceClass);
  }

  function MIGRATION_ACTION_TYPE(): (s: Text)
    ensures |s| <= 64
  {
    Ascii("db.migration")
  }

  function MIGRATION_MEDIA_TYPE(): (s: Text)
    ensures |s| <= 64
  {
    Ascii("application/vnd.diewan.db-migration-v1+csv-binary")
  }

  function MIGRATION_DOMAIN_TAG(): (s: Text)
    ensures |s| == 26 && ZeroFree(s)
  {
    Ascii("db-migration-parameters-v1")
  }

  function MigrationDescriptor(): Descriptor
  {
    var sources := [EvidenceSource(ATTEMPT_RECORD(), ExecutorSource),
                    EvidenceSource(MIGRATION_APPLIED_RECORD(), ProviderCorroborating),
                    EvidenceSource(SEAL_CONSUMPTION_RECORD(), ExternalAnchor),
                    EvidenceSource(CHAIN_COMMITMENT_ANCHOR(), ExternalAnchor)];
    Descriptor(MIGRATION_PROFILE(), MIGRATION_ACTION_TYPE(), MIGRATION_MEDIA_TYPE(), MIGRATION_DOMAIN_TAG(), sources,
        NeverReleasable, 32, 4096)
  }

  lemma MigrationDescriptorIsValid()
    ensures ValidDescriptor(MigrationDescriptor()) && MigrationDescriptor().profileId == MIGRATION_PROFILE()
  {
    hide Utf8, StableIdentifier, MIGRATION_PROFILE, ATTEMPT_RECORD, MIGRATION_APPLIED_RECORD, SEAL_CONSUMPTION_RECORD,
         CHAIN_COMMITMENT_ANCHOR, MIGRATION_ACTION_TYPE, MIGRATION_MEDIA_TYPE, MIGRATION_DOMAIN_TAG;
    var sources := MigrationDescriptor().evidenceSources;
    assert sources[0].sourceClass == ExecutorSource && Corroborating(sources[1].sourceClass);
  }

  function PAYMENT_ACTION_TYPE(): (s: Text)
    ensures |s| <= 64
  {
    Ascii("payment.transfer")
  }

  function PAYMENT_MEDIA_TYPE(): (s: Text)
    ensures |s| <= 64
  {
    Ascii("application/vnd.diewan.payment-v1+csv-binary")
  }

  function PAYMENT_DOMAIN_TAG(): (s: Text)
    ensures |s| == 21 && ZeroFree(s)
  {
    Ascii("payment-parameters-v1")
  }

  function PaymentDescriptor(): Descriptor
  {
    var sources := [EvidenceSource(ATTEMPT_RECORD(), ExecutorSource),
                    EvidenceSource(PAYMENT_SETTLEMENT_RECORD(), ProviderCorroborating),
                    EvidenceSource(SEAL_CONSUMPTION_RECORD(), ExternalAnchor)];
    Descriptor(PAYMENT_PROFILE(), PAYMENT_ACTION_TYPE(), PAYMENT_MEDIA_TYPE(), PAYMENT_DOMAIN_TAG(), sources,
        NeverReleasable, 32, 4096)
  }

  lemma PaymentDescriptorIsValid()
    ensures ValidDescriptor(PaymentDescriptor()) && PaymentDescriptor().profileId == PAYMENT_PROFILE()
  {
    hide Utf8, StableIdentifier, PAYMENT_PROFILE, ATTEMPT_RECORD, PAYMENT_SETTLEMENT_RECORD, SEAL_CONSUMPTION_RECORD,
         PAYMENT_ACTION_TYPE, PAYMENT_MEDIA_TYPE, PAYMENT_DOMAIN_TAG;
    var sources := PaymentDescriptor().evidenceSources;
    assert sources[0].sourceClass == ExecutorSource && Corroborating(sources[1].sourceClass);
  }

  function GitHubCodec(h: Hashes): Codec
  {
    Codec(GitHubDescriptor(), b => match GitHubFromBytes(h, b) case Some(p) => Some(GitHubTarget(p)) case None => None)
  }

  function MigrationCodec(): Codec
  {
    Codec(MigrationDescriptor(),
        b => match MigrationFromBytes(b) case Some(p) => Some(MigrationTarget(p)) case None => None)
  }

  function PaymentCodec(): Codec
  {
    Codec(PaymentDescriptor(), b => match PaymentFromBytes(b) case Some(p) => Some(PaymentTarget(p)) case None => None)
  }

  function BuiltIns(h: Hashes): map<Text, Codec>
  {
    hide Utf8, GITHUB_PROFILE, MIGRATION_PROFILE, PAYMENT_PROFILE, GitHubDescriptor, MigrationDescriptor,
         PaymentDescriptor;
    map[GITHUB_PROFILE() := GitHubCodec(h),
        MIGRATION_PROFILE() := MigrationCodec(),
        PAYMENT_PROFILE() := PaymentCodec()]
  }

  method DefaultRegistry(h: Hashes) returns (registry: ProfileRegistry)
    ensures fresh(registry)
    ensures registry.entries == BuiltIns(h) && |registry.entries| == 3
  {
    hide Utf8, ValidDescriptor, GITHUB_PROFILE, MIGRATION_PROFILE, PAYMENT_PROFILE, GitHubDescriptor,
         MigrationDescriptor, PaymentDescriptor;
    GitHubDescriptorIsValid();
    MigrationDescriptorIsValid();
    PaymentDescriptorIsValid();
    registry := new ProfileRegistry();
    var r := registry.Register(GitHubCodec(h));
    if r.Err? {
      registry := new ProfileRegistry();
      return;
    }
    r := registry.Register(MigrationCodec());
    if r.Err? {
      registry := new ProfileRegistry();
      return;
    }
    r := registry.Register(PaymentCodec());
    if r.Err? {
      registry := new ProfileRegistry();
      return;
    }
  }

  /** A profile's release rule is the policy journals are held to. */
  lemma PolicyOfExactly(d: Descriptor)
    ensures PolicyOf(d) == Never <==> d.quarantineRelease.NeverReleasable?
    ensures forall id, digest :: PolicyOf(d) == ProfileDefined(id, digest) <==>
              d.quarantineRelease == DefinedByProfile(id, digest)
  {
  }

  /** No built-in profile has a sufficient absence predicate. */
  lemma BuiltInsNeverRelease(h: Hashes)
    ensures forall id :: id in BuiltIns(h) ==> PolicyOf(BuiltIns(h)[id].descriptor) == Never
  {
    hide Utf8, GITHUB_PROFILE, MIGRATION_PROFILE, PAYMENT_PROFILE, GITHUB_ACTION_TYPE, GITHUB_MEDIA_TYPE,
         GITHUB_DOMAIN_TAG, MIGRATION_ACTION_TYPE, MIGRATION_MEDIA_TYPE, MIGRATION_DOMAIN_TAG, PAYMENT_ACTION_TYPE,
         PAYMENT_MEDIA_TYPE, PAYMENT_DOMAIN_TAG, ATTEMPT_RECORD, GITHUB_DEPLOYMENT_RECORD, GITHUB_WEBHOOK_DELIVERY,
         GITHUB_ENVIRONMENT_CONFIGURATION, SEAL_CONSUMPTION_RECORD, SEAL_COMMITMENT_ANCHOR, CHAIN_COMMITMENT_ANCHOR,
         MIGRATION_APPLIED_RECORD, PAYMENT_SETTLEMENT_RECORD, StableIdentifier, StableByteOf;
  }

  predicate JournalledUnder(entries: seq<JournalEntry>, policy: ReleasePolicy)
  {
    forall i :: 0 <= i < |entries| ==> entries[i].context.releasePolicy == policy
  }

  /**
    Under a built-in profile, an accepted journal that quarantines its mandate leaves it
    quarantined, consumed or abandoned: it is never released.
   */
  lemma BuiltInQuarantineIsNeverReleased(
    h: Hashes, profile: Text, id: Digest, initial: State, revision: U64, entries: seq<JournalEntry>, k: nat)
    requires profile in BuiltIns(h)
    requires AcceptedJournal(id, initial, revision, entries) && k <= |entries|
    requires JournalledUnder(entries, PolicyOf(BuiltIns(h)[profile].descriptor))
    requires StateBefore(initial, entries, k) == Quarantined
    ensures StateAfter(initial, entries) in {Quarantined, Consumed, Abandoned}
  {
    hide BuiltIns, AcceptedJournal;
    BuiltInsNeverRelease(h);
    NeverPolicyNeverReleases(id, initial, revision, entries, k);
  }

  // ---- Intents under a built-in profile ------------------------------------------------------

  lemma BuiltInsAreThree(h: Hashes, profile: Text)
    requires profile in BuiltIns(h)
    ensures
      || (profile == GITHUB_PROFILE() && BuiltIns(h)[profile] == GitHubCodec(h))
      || (profile == MIGRATION_PROFILE() && BuiltIns(h)[profile] == MigrationCodec())
      || (profile == PAYMENT_PROFILE() && BuiltIns(h)[profile] == PaymentCodec())
  {
    hide Utf8, GITHUB_PROFILE, MIGRATION_PROFILE, PAYMENT_PROFILE, GitHubCodec, MigrationCodec, PaymentCodec;
  }

  /** The lengths a built-in descriptor contributes to an intent. */
  predicate Terse(d: Descriptor)
  {
    |d.actionType| <= 64 && |d.parametersMediaType| <= 64
  }

  lemma BuiltInsAreTerse()
    ensures Terse(GitHubDescriptor()) && Terse(MigrationDescriptor()) && Terse(PaymentDescriptor())
  {
    hide Utf8, GITHUB_ACTION_TYPE, GITHUB_MEDIA_TYPE, MIGRATION_ACTION_TYPE, MIGRATION_MEDIA_TYPE, PAYMENT_ACTION_TYPE,
         PAYMENT_MEDIA_TYPE, GITHUB_DOMAIN_TAG, MIGRATION_DOMAIN_TAG, PAYMENT_DOMAIN_TAG, GITHUB_PROFILE,
         MIGRATION_PROFILE, PAYMENT_PROFILE, ATTEMPT_RECORD, GITHUB_DEPLOYMENT_RECORD, GITHUB_WEBHOOK_DELIVERY,
         GITHUB_ENVIRONMENT_CONFIGURATION, SEAL_CONSUMPTION_RECORD, SEAL_COMMITMENT_ANCHOR, CHAIN_COMMITMENT_ANCHOR,
         MIGRATION_APPLIED_RECORD, PAYMENT_SETTLEMENT_RECORD;
  }

  lemma BuiltInsAreShort(h: Hashes, profile: Text, b: Bytes)
    requires profile in BuiltIns(h) && BuiltIns(h)[profile].target(b).Some?
    ensures |b| <= PROFILE_SIZE && |BuiltIns(h)[profile].target(b).value| <= PROFILE_SIZE
    ensures Terse(BuiltIns(h)[profile].descriptor)
  {
    hide BuiltIns, Utf8, GitHubDescriptor, MigrationDescriptor, PaymentDescriptor, GitHubBytes, MigrationBytes,
         PaymentBytes, GitHubTarget, MigrationTarget, PaymentTarget, ValidGitHub, ValidMigration, ValidPayment,
         ReadGitHub, ReadMigration, ReadPayment, Terse;
    BuiltInsAreThree(h, profile);
    BuiltInsAreTerse();
    if BuiltIns(h)[profile] == GitHubCodec(h) {
      GitHubSize(h, GitHubFromBytes(h, b).value);
    } else if BuiltIns(h)[profile] == MigrationCodec() {
      MigrationSize(MigrationFromBytes(b).value);
    } else {
      PaymentSize(PaymentFromBytes(b).value);
    }
  }

  /** An intent that verifies under a built-in profile is short, so its identifier commits to it. */
  lemma BuiltInIntentsAreShort(h: Hashes, profile: Text, i: ActionIntent)
    requires profile in BuiltIns(h)
    requires VerifiesWith(h, i, BuiltIns(h)[profile].descriptor, BuiltIns(h)[profile])
    ensures Short(i)
  {
    hide BuiltIns, IntentBytes, ParametersCommitment, Utf8;
    BuiltInsAreShort(h, profile, i.profileBytes);
    IntentSize(i);
  }
}
