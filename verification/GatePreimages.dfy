/**
  What the gate domain hashes. Parameter commitments, gate-policy identifiers and gate-profile
  identifiers share one hash domain; the first two are told apart by the tag in front, and the
  third has none (csv-accountability/src/intent.rs, csv-accountability/src/assurance.rs,
  csv-hash/src/domain_hash.rs).
 */
module GatePreimages {
  import opened Bytes
  import opened Text
  import opened Hashing
  import opened Mandate
  import opened Profile
  import opened Intent
  import opened IntentProfiles
  import opened Registry
  import opened GateIdentity
  import opened Assurance

  /** Every tag the protocol itself puts in front of a payload. */
  function ProtocolTags(): seq<Text>
  {
    [MANDATE_TAG(), ACTION_INTENT_TAG(), REQUIRED_CONTEXTS_TAG(),
     GITHUB_DOMAIN_TAG(), MIGRATION_DOMAIN_TAG(), PAYMENT_DOMAIN_TAG()]
  }

  /** No tag of the protocol contains the separator. */
  lemma ProtocolTagsAreZeroFree()
    ensures forall i :: 0 <= i < |ProtocolTags()| ==> ZeroFree(ProtocolTags()[i])
  {
    hide MANDATE_TAG, ACTION_INTENT_TAG, REQUIRED_CONTEXTS_TAG, GITHUB_DOMAIN_TAG, MIGRATION_DOMAIN_TAG,
         PAYMENT_DOMAIN_TAG;
    hide ZeroFree, Utf8;
  }

  function GatePolicyPreimage(rc: RequiredContexts): Bytes
  {
    Join(REQUIRED_CONTEXTS_TAG(), PushContexts(rc, []))
  }

  /**
    Some profile bytes make a parameters commitment hash what a gate policy hashes exactly
    when the descriptor's tag is the policy's own, or that tag, a zero byte and what stands
    before some zero byte of the encoded contexts.
   */
  lemma CommitmentMeetsPolicyExactlyWhen(tag: Bytes, rc: RequiredContexts)
    ensures (exists b :: Join(tag, b) == GatePolicyPreimage(rc)) <==> tag + [0] <= GatePolicyPreimage(rc)
    ensures (exists b :: Join(tag, b) == GatePolicyPreimage(rc)) <==>
              || tag == REQUIRED_CONTEXTS_TAG()
              || ExtendsPolicyTag(tag, PushContexts(rc, []))
  {
    hide PushContexts, REQUIRED_CONTEXTS_TAG, ZeroFree, Join, Utf8;
    TagOpensExactlyWhen(tag, GatePolicyPreimage(rc));
    PrefixesBeforeZeroes(tag, GatePolicyPreimage(rc));
    ZeroesOfAJoin(REQUIRED_CONTEXTS_TAG(), PushContexts(rc, []), tag);
  }

  /** The policy's tag, a zero byte and what stands before some zero byte of `body`. */
  predicate ExtendsPolicyTag(tag: Bytes, body: Bytes)
  {
    exists k :: 0 <= k < |body| && body[k] == 0 && tag == Join(REQUIRED_CONTEXTS_TAG(), body[..k])
  }

  lemma PrefixesBeforeZeroes(tag: Bytes, all: Bytes)
    ensures tag + [0] <= all <==> exists k :: 0 <= k < |all| && all[k] == 0 && tag == all[..k]
  {
    if tag + [0] <= all {
      assert all[|tag|] == 0 && tag == all[..|tag|];
    }
    if k :| 0 <= k < |all| && all[k] == 0 && tag == all[..k] {
      assert all[..k + 1] == tag + [0];
    }
  }

  /** The zero bytes of a joined input are its separator and those of the payload. */
  lemma ZeroesOfAJoin(t: Bytes, body: Bytes, tag: Bytes)
    requires ZeroFree(t)
    ensures (exists k :: 0 <= k < |Join(t, body)| && Join(t, body)[k] == 0 && tag == Join(t, body)[..k]) <==>
              tag == t || exists k :: 0 <= k < |body| && body[k] == 0 && tag == Join(t, body[..k])
  {
    var all, n := Join(t, body), |t| + 1;
    assert all[|t|] == 0 && all[..|t|] == t;
    forall k | 0 <= k < |body| ensures all[n + k] == body[k] && all[..n + k] == Join(t, body[..k]) {}
    if k :| 0 <= k < |all| && all[k] == 0 && tag == all[..k] {
      assert k < |t| ==> all[k] == t[k];
      assert k > |t| ==> body[k - n] == 0 && tag == Join(t, body[..k - n]);
    }
  }

  /** For a tag without zero bytes that leaves one tag: the gate policy's own. */
  lemma ZeroFreeTagMeetsPolicyExactlyWhen(tag: Bytes, rc: RequiredContexts)
    requires ZeroFree(tag)
    ensures (exists b :: Join(tag, b) == GatePolicyPreimage(rc)) <==> tag == REQUIRED_CONTEXTS_TAG()
  {
    hide REQUIRED_CONTEXTS_TAG, PushContexts, Join, Utf8;
    if b :| Join(tag, b) == GatePolicyPreimage(rc) {
      ZeroFreeTagsAreSeparated(tag, b, REQUIRED_CONTEXTS_TAG(), PushContexts(rc, []));
    }
    assert Join(REQUIRED_CONTEXTS_TAG(), PushContexts(rc, [])) == GatePolicyPreimage(rc);
  }

  /** A valid descriptor may carry that tag, and then its commitments are gate-policy identifiers. */
  lemma SomeCommitmentIsAGatePolicy(h: Hashes, rc: RequiredContexts)
    ensures exists d, b :: ValidDescriptor(d) && ParametersCommitment(h, d, b) == GatePolicyId(h, rc)
  {
    hide REQUIRED_CONTEXTS_TAG, PushContexts, Utf8;
    var x, y: Text := Ascii("a"), Ascii("b");
    var sources := [EvidenceSource(x, ExecutorSource), EvidenceSource(y, ExternalAnchor)];
    assert sources[0].sourceClass == ExecutorSource && Corroborating(sources[1].sourceClass);
    var d := Descriptor(x, x, x, REQUIRED_CONTEXTS_TAG(), sources, NeverReleasable, 0, 0);
    assert ValidDescriptor(d) && ParametersCommitment(h, d, PushContexts(rc, [])) == GatePolicyId(h, rc);
  }

  function TagOf(h: Hashes, profile: Text): Bytes
    requires profile in BuiltIns(h)
  {
    BuiltIns(h)[profile].descriptor.parametersDomainTag
  }

  /**
    Under the built-in profiles nothing is confused: neither a commitment with a gate policy
    nor two profiles' commitments.
   */
  lemma BuiltInCommitmentsAreSeparate(h: Hashes, p: Text, b: Bytes, q: Text, c: Bytes, rc: RequiredContexts)
    requires p in BuiltIns(h) && q in BuiltIns(h)
    ensures Join(TagOf(h, p), b) != GatePolicyPreimage(rc)
    ensures Join(TagOf(h, p), b) == Join(TagOf(h, q), c) ==> p == q && b == c
  {
    hide BuiltIns, REQUIRED_CONTEXTS_TAG, PushContexts, Join, Utf8;
    BuiltInTags(h, p);
    BuiltInTags(h, q);
    var s, t := TagOf(h, p), TagOf(h, q);
    if Join(s, b) == GatePolicyPreimage(rc) {
      ZeroFreeTagsAreSeparated(s, b, REQUIRED_CONTEXTS_TAG(), PushContexts(rc, []));
    }
    if Join(s, b) == Join(t, c) {
      ZeroFreeTagsAreSeparated(s, b, t, c);
    }
  }

  lemma BuiltInTags(h: Hashes, p: Text)
    requires p in BuiltIns(h)
    ensures var tag := TagOf(h, p);
            && ZeroFree(tag) && |tag| in {31, 26, 21}
            && (|tag| == 31 <==> p == GITHUB_PROFILE()) && (|tag| == 26 <==> p == MIGRATION_PROFILE())
            && (|tag| == 21 <==> p == PAYMENT_PROFILE())
  {
    hide BuiltIns, Utf8, ZeroFree, GITHUB_PROFILE, MIGRATION_PROFILE, PAYMENT_PROFILE, GitHubDescriptor,
         MigrationDescriptor, PaymentDescriptor, GITHUB_DOMAIN_TAG, MIGRATION_DOMAIN_TAG, PAYMENT_DOMAIN_TAG;
    BuiltInsAreThree(h, p);
    DescriptorTags();
  }

  lemma DescriptorTags()
    ensures GitHubDescriptor().parametersDomainTag == GITHUB_DOMAIN_TAG()
    ensures MigrationDescriptor().parametersDomainTag == MIGRATION_DOMAIN_TAG()
    ensures PaymentDescriptor().parametersDomainTag == PAYMENT_DOMAIN_TAG()
  {
    hide Utf8, GITHUB_DOMAIN_TAG, MIGRATION_DOMAIN_TAG, PAYMENT_DOMAIN_TAG;
  }

  // ---- Gate profiles ---------------------------------------------------------------------------

  /** A tag makes some commitment hash what a gate profile hashes exactly when it stands before a zero byte of it. */
  lemma CommitmentMeetsGateProfileExactlyWhen(tag: Bytes, g: Gate)
    ensures (exists b :: Join(tag, b) == GateBytes(g)) <==>
              exists k :: 0 <= k < |GateBytes(g)| && GateBytes(g)[k] == 0 && tag == GateBytes(g)[..k]
  {
    hide GateBytes, Join;
    TagOpensExactlyWhen(tag, GateBytes(g));
  }

  /** Whatever the profile, the empty tag and a lone zero are among them, and the others begin with two zeroes. */
  lemma TagsThatMeetGateProfiles(tag: Bytes, g: Gate)
    requires ValidGate(g)
    ensures tag == [] || tag == [0] ==> exists b :: Join(tag, b) == GateBytes(g)
    ensures (exists b :: Join(tag, b) == GateBytes(g)) ==> tag == [] || tag == [0] || [0, 0] <= tag
  {
    hide GateBytes, Join, ValidGate;
    GateBytesOpenWithZeroes(g);
    var all := GateBytes(g);
    assert all[0] == all[..2][0] == 0 && all[1] == all[..2][1] == 0;
    assert all[..0] == [] && all[..1] == [0];
    TagOpensExactlyWhen(tag, all);
    if k :| 0 <= k < |all| && all[k] == 0 && tag == all[..k] {
      assert k >= 2 ==> tag[..2] == all[..2];
    }
  }

  /** For a tag without zero bytes that leaves one tag: the empty one. */
  lemma ZeroFreeTagMeetsGateProfileExactlyWhen(tag: Bytes, g: Gate)
    requires ZeroFree(tag) && ValidGate(g)
    ensures (exists b :: Join(tag, b) == GateBytes(g)) <==> tag == []
  {
    hide GateBytes, Join, ValidGate;
    assert tag != [] ==> tag[0] != 0;
    TagsThatMeetGateProfiles(tag, g);
  }

  /** A valid descriptor may have an empty tag, and then its commitments are gate-profile identifiers. */
  lemma SomeCommitmentIsAGateProfile(h: Hashes, g: Gate)
    requires ValidGate(g)
    ensures exists d, b :: ValidDescriptor(d) && ParametersCommitment(h, d, b) == GateId(h, g)
  {
    hide GateBytes, Utf8, ValidGate;
    var x, y: Text := Ascii("a"), Ascii("b");
    var sources := [EvidenceSource(x, ExecutorSource), EvidenceSource(y, ExternalAnchor)];
    assert sources[0].sourceClass == ExecutorSource && Corroborating(sources[1].sourceClass);
    var d := Descriptor(x, x, x, [], sources, NeverReleasable, 0, 0);
    ZeroFreeTagMeetsGateProfileExactlyWhen([], g);
    var b :| Join([], b) == GateBytes(g);
    assert ValidDescriptor(d) && ParametersCommitment(h, d, b) == GateId(h, g);
  }

  /** A gate profile shares its preimage with no gate policy and with no commitment of a built-in profile. */
  lemma GateProfilesAreSeparate(h: Hashes, g: Gate, rc: RequiredContexts, p: Text, b: Bytes)
    requires ValidGate(g) && p in BuiltIns(h)
    ensures GateBytes(g) != GatePolicyPreimage(rc) && GateBytes(g) != Join(TagOf(h, p), b)
  {
    hide BuiltIns, REQUIRED_CONTEXTS_TAG, PushContexts, GateBytes, ValidGate, Join, Utf8;
    BuiltInTags(h, p);
    ZeroFreeTagMeetsGateProfileExactlyWhen(TagOf(h, p), g);
    ZeroFreeTagMeetsGateProfileExactlyWhen(REQUIRED_CONTEXTS_TAG(), g);
  }
}
