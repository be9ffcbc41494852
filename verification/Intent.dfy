/**
  The generic action intent, bound to a registered profile
  (csv-accountability/src/intent.rs). Integers are little-endian.
 */
module Intent {
  import opened Bytes
  import opened Text
  import opened Wire
  import opened Hashing
  import opened Writers
  import opened Mandate
  import opened Profile

  const MAX_CONTEXT_COMMITMENTS: nat := 32
  const MAX_IDENTITY_BYTES: nat := 4096

  function ACTION_INTENT_TAG(): (s: Text)
    ensures ZeroFree(s)
  {
    Ascii("action-intent-v1")
  }

  datatype ActionIntent = ActionIntent(
    protocolMajor: U16,
    protocolMinor: U16,
    intentVersion: ObjectVersion,
    profileId: Text,
    actionType: Text,
    target: Bytes,
    parametersCommitment: Digest,
    parametersMediaType: Text,
    requestedBy: Bytes,
    requestedAt: U64,
    requestNonce: Digest,
    contextCommitments: seq<Digest>,
    profileBytes: Bytes)

  predicate ValidIntent(i: ActionIntent)
  {
    && i.protocolMajor == PROTOCOL_MAJOR && i.protocolMinor == PROTOCOL_MINOR
    && i.intentVersion == OBJECT_VERSION
    && StableIdentifier(i.profileId)
    && i.actionType != [] && i.parametersMediaType != []
    && 0 < |i.requestedBy| <= MAX_IDENTITY_BYTES
    && |i.contextCommitments| <= MAX_CONTEXT_COMMITMENTS
  }

  // ---- Construction and independent re-verification ----------------------------------

  function ParametersCommitment(h: Hashes, d: Descriptor, profileBytes: Bytes): Digest
  {
    h.TaggedId(GateDomain, d.parametersDomainTag, profileBytes)
  }

  function NewIntent(h: Hashes, d: Descriptor, codec: Codec, profileBytes: Bytes, requestedBy: Bytes,
                     requestedAt: U64, nonce: Digest, contexts: seq<Digest>): Option<ActionIntent>
  {
    var target := codec.target(profileBytes);
    if ValidDescriptor(d)
       && target.Some?
       && 0 < |requestedBy| <= d.maxIdentityBytes
       && |contexts| <= d.maxContextCommitments
    then
      Some(ActionIntent(PROTOCOL_MAJOR, PROTOCOL_MINOR, OBJECT_VERSION, d.profileId, d.actionType, target.value,
                        ParametersCommitment(h, d, profileBytes), d.parametersMediaType, requestedBy, requestedAt,
                        nonce, contexts, profileBytes))
    else None
  }

  predicate VerifiesWith(h: Hashes, i: ActionIntent, d: Descriptor, codec: Codec)
  {
    && ValidIntent(i)
    && i.profileId == d.profileId && i.actionType == d.actionType
    && codec.target(i.profileBytes) == Some(i.target)
    && i.parametersCommitment == ParametersCommitment(h, d, i.profileBytes)
    && i.parametersMediaType == d.parametersMediaType
  }

  predicate MeetsLimits(d: Descriptor, requestedBy: Bytes, contexts: seq<Digest>)
  {
    0 < |requestedBy| <= d.maxIdentityBytes && |contexts| <= d.maxContextCommitments
  }

  /**
    Construction undoes taking an intent apart: from the profile bytes and the four free fields
    of an intent that verifies within its descriptor's limits, it makes that intent again.
   */
  lemma ConstructionRestoresTheIntent(h: Hashes, d: Descriptor, codec: Codec, i: ActionIntent)
    requires VerifiesWith(h, i, d, codec)
    ensures NewIntent(h, d, codec, i.profileBytes, i.requestedBy, i.requestedAt, i.requestNonce,
                      i.contextCommitments) ==
              if ValidDescriptor(d) && MeetsLimits(d, i.requestedBy, i.contextCommitments) then Some(i) else None
  {
    hide ValidDescriptor, StableIdentifier;
  }

  /** Construction is refused exactly for an invalid descriptor, bytes refused, or a field beyond its limits. */
  lemma ConstructionExactlyWhen(h: Hashes, d: Descriptor, codec: Codec, profileBytes: Bytes, requestedBy: Bytes,
                                requestedAt: U64, nonce: Digest, contexts: seq<Digest>)
    ensures NewIntent(h, d, codec, profileBytes, requestedBy, requestedAt, nonce, contexts).Some? <==>
              ValidDescriptor(d) && codec.target(profileBytes).Some? && MeetsLimits(d, requestedBy, contexts)
  {
    hide ValidDescriptor;
  }

  /**
    A constructed intent re-verifies exactly when it also respects the protocol-wide
    limits and its descriptor names an action and a media type: construction checks only
    the descriptor's own limits, and descriptor validation reads neither.
   */
  lemma ConstructedIntentVerifiesExactlyWhen(h: Hashes, d: Descriptor, codec: Codec, profileBytes: Bytes,
                                             requestedBy: Bytes, requestedAt: U64, nonce: Digest, contexts: seq<Digest>)
    requires NewIntent(h, d, codec, profileBytes, requestedBy, requestedAt, nonce, contexts).Some?
    ensures var i := NewIntent(h, d, codec, profileBytes, requestedBy, requestedAt, nonce, contexts).value;
            VerifiesWith(h, i, d, codec) <==>
              && d.actionType != [] && d.parametersMediaType != []
              && |requestedBy| <= MAX_IDENTITY_BYTES && |contexts| <= MAX_CONTEXT_COMMITMENTS
  {
  }

  /** A descriptor with no action type is valid, and what is constructed under it fails verification. */
  lemma ConstructedIntentMayFailToVerify(h: Hashes, codec: Codec, profileBytes: Bytes)
    requires codec.target(profileBytes).Some?
    ensures exists d, i ::
              && NewIntent(h, d, codec, profileBytes, [0], 0, ZERO, []) == Some(i)
              && !VerifiesWith(h, i, d, codec)
  {
    var a, b: Text := [0x61], [0x62];
    var sources := [EvidenceSource(a, ExecutorSource), EvidenceSource(b, ExternalAnchor)];
    var d := Descriptor(a, [], [], [], sources, NeverReleasable, 0, 1);
    assert ValidDescriptor(d) by {
      assert sources[0].sourceClass == ExecutorSource && Corroborating(sources[1].sourceClass);
    }
    var i := NewIntent(h, d, codec, profileBytes, [0], 0, ZERO, []).value;
    assert NewIntent(h, d, codec, profileBytes, [0], 0, ZERO, []) == Some(i) && !VerifiesWith(h, i, d, codec);
  }

  /**
    Nothing the profile determines can be altered on its own: two intents that verify
    against one codec and share a parameters commitment agree on the profile bytes and
    everything derived from them, or exhibit a collision.
   */
  lemma CommitmentFixesTheProfile(h: Hashes, i: ActionIntent, j: ActionIntent, d: Descriptor, codec: Codec)
    requires VerifiesWith(h, i, d, codec) && VerifiesWith(h, j, d, codec)
    requires i.parametersCommitment == j.parametersCommitment
    ensures
      || (i.profileBytes == j.profileBytes && i.target == j.target && i.profileId == j.profileId
          && i.actionType == j.actionType && i.parametersMediaType == j.parametersMediaType)
      || h.Collides(GateDomain, Join(d.parametersDomainTag, i.profileBytes),
          Join(d.parametersDomainTag, j.profileBytes))
  {
    hide ValidIntent;
    var prefix := d.parametersDomainTag + [0];
    if prefix + i.profileBytes == prefix + j.profileBytes {
      assert i.profileBytes == (prefix + i.profileBytes)[|prefix|..] == j.profileBytes;
    }
  }

  // ---- Canonical bytes and identity ----------------------------------------------------

  function PushCommitments(vs: seq<Digest>, tail: Bytes): (b: Bytes)
    ensures |vs| <= NO_LIMIT ==> ReadList(Little, NO_LIMIT, ReadDigest, b) == Got(vs, tail)
  {
    ReadPushedAll(ReadDigest, PushDigest, _ => true, vs, tail);
    PushList(Little, PushDigest, vs, tail)
  }

  /** The layout before the target. */
  function PushHead(i: ActionIntent, tail: Bytes): Bytes
  {
    PushU16(Little, i.protocolMajor,
    PushU16(Little, i.protocolMinor,
    PushU16(Little, i.intentVersion,
    PushText(Little, i.profileId,
    PushText(Little, i.actionType, tail)))))
  }

  /** The layout between the target and the profile bytes. */
  function PushMiddle(i: ActionIntent, tail: Bytes): Bytes
  {
    PushDigest(i.parametersCommitment,
    PushText(Little, i.parametersMediaType,
    PushBytes(Little, i.requestedBy,
    PushU64(Little, i.requestedAt,
    PushDigest(i.requestNonce,
    PushCommitments(i.contextCommitments, tail))))))
  }

  function IntentBytes(i: ActionIntent): Bytes
  {
    PushHead(i, PushBytes(Little, i.target, PushMiddle(i, PushBytes(Little, i.profileBytes, []))))
  }

  method EncodeIntent(i: ActionIntent) returns (r: Option<Bytes>)
    ensures r == if ValidIntent(i) then Some(IntentBytes(i)) else None
  {
    hide PushU16, PushText, PushBytes, PushDigest, PushU64, PushCommitments, StableIdentifier;
    hide ReadU16, ReadText, ReadBytes, ReadDigest, ReadU64, ReadList;
    if !ValidIntent(i) {
      return None;
    }
    ghost var profile := PushBytes(Little, i.profileBytes, []);
    ghost var identity := PushBytes(Little, i.requestedBy,
      PushU64(Little, i.requestedAt, PushDigest(i.requestNonce, PushCommitments(i.contextCommitments, profile))));
    ghost var commitment := PushDigest(i.parametersCommitment, PushText(Little, i.parametersMediaType, identity));
    ghost var target := PushBytes(Little, i.target, commitment);
    var w := new Writer(Little, IntentBytes(i));
    w.U16(i.protocolMajor);
    w.U16(i.protocolMinor);
    w.U16(i.intentVersion);
    w.LongText(i.profileId, PushText(Little, i.actionType, target));
    w.LongText(i.actionType, target);
    w.LongBytes(i.target, commitment);
    w.Digest(i.parametersCommitment);
    w.LongText(i.parametersMediaType, identity);
    w.Bytes(i.requestedBy);
    w.U64(i.requestedAt);
    w.Digest(i.requestNonce);
    w.Digests(i.contextCommitments);
    w.LongBytes(i.profileBytes, []);
    var bytes := w.Finish();
    return Some(bytes);
  }

  // ---- How far the layout is injective ------------------------------------------------

  /**
    The least size of a valid intent with a field too long for its prefix: 2^32 bytes of
    that field, 106 of fixed layout and one for each of the four fields that are never empty.
   */
  const AMBIGUOUS_SIZE: nat := 0x1_0000_0000 + 110

  /** A size a caller can measure on the canonical bytes they hold. */
  predicate Short(i: ActionIntent) { |IntentBytes(i)| < AMBIGUOUS_SIZE }

  lemma IntentSize(i: ActionIntent)
    ensures |IntentBytes(i)| == 106 + |i.profileId| + |i.actionType| + |i.target| + |i.parametersMediaType|
                                + |i.requestedBy| + 32 * |i.contextCommitments| + |i.profileBytes|
  {
    hide PushU16, PushText, PushBytes, PushDigest, PushU64, PushAll, LengthPrefix;
    PushesGrow();
    PushDigestsGrow(i.contextCommitments, PushBytes(Little, i.profileBytes, []));
  }

  /** Lengths of fields that may be empty, and of fields that may not, that their prefixes still tell apart. */
  predicate Told(i: ActionIntent)
  {
    && 0 < |i.profileId| <= 0x1_0000_0000 && 0 < |i.actionType| <= 0x1_0000_0000
    && 0 < |i.parametersMediaType| <= 0x1_0000_0000 && 0 < |i.requestedBy| <= 0x1_0000_0000
    && |i.target| <= NO_LIMIT && |i.profileBytes| <= NO_LIMIT && |i.contextCommitments| <= NO_LIMIT
  }

  lemma ShortIsTold(i: ActionIntent)
    requires ValidIntent(i) && Short(i)
    ensures Told(i)
  {
    hide IntentBytes;
    IntentSize(i);
  }

  lemma HeadSplits(i: ActionIntent, s: Bytes, j: ActionIntent, t: Bytes)
    requires Told(i) && Told(j) && PushHead(i, s) == PushHead(j, t)
    ensures s == t && i.profileId == j.profileId && i.actionType == j.actionType
    ensures i.protocolMajor == j.protocolMajor && i.protocolMinor == j.protocolMinor &&
        i.intentVersion == j.intentVersion
  {
    hide PushU16, PushBytes, ReadU16, ReadBytes, ReadText;
    PushedBytesSplit(Little, i.profileId, PushText(Little, i.actionType, s), j.profileId,
        PushText(Little, j.actionType, t));
    PushedBytesSplit(Little, i.actionType, s, j.actionType, t);
  }

  lemma MiddleSplits(i: ActionIntent, s: Bytes, j: ActionIntent, t: Bytes)
    requires Told(i) && Told(j) && PushMiddle(i, s) == PushMiddle(j, t)
    ensures s == t && i.parametersCommitment == j.parametersCommitment && i.parametersMediaType == j.parametersMediaType
    ensures i.requestedBy == j.requestedBy && i.requestedAt == j.requestedAt && i.requestNonce == j.requestNonce
    ensures i.contextCommitments == j.contextCommitments
  {
    hide PushBytes, PushDigest, PushU64, PushCommitments, ReadDigest, ReadBytes, ReadU64, ReadText, ReadList;
    var x := PushU64(Little, i.requestedAt, PushDigest(i.requestNonce, PushCommitments(i.contextCommitments, s)));
    var y := PushU64(Little, j.requestedAt, PushDigest(j.requestNonce, PushCommitments(j.contextCommitments, t)));
    PushedBytesSplit(Little, i.parametersMediaType, PushBytes(Little, i.requestedBy, x),
                     j.parametersMediaType, PushBytes(Little, j.requestedBy, y));
    PushedBytesSplit(Little, i.requestedBy, x, j.requestedBy, y);
  }

  lemma ToldBytesInjective(i: ActionIntent, j: ActionIntent)
    requires Told(i) && Told(j) && IntentBytes(i) == IntentBytes(j)
    ensures i == j
  {
    hide PushHead, PushMiddle, PushBytes;
    var p, q := PushBytes(Little, i.profileBytes, []), PushBytes(Little, j.profileBytes, []);
    var x, y := PushMiddle(i, p), PushMiddle(j, q);
    HeadSplits(i, PushBytes(Little, i.target, x), j, PushBytes(Little, j.target, y));
    PushedBytesSplit(Little, i.target, x, j.target, y);
    MiddleSplits(i, p, j, q);
    PushedBytesSplit(Little, i.profileBytes, [], j.profileBytes, []);
  }

  /** The encoding of a short valid intent is that of no other valid intent, however long the other's fields. */
  lemma IntentBytesInjective(i: ActionIntent, j: ActionIntent)
    requires ValidIntent(i) && ValidIntent(j) && Short(i) && IntentBytes(i) == IntentBytes(j)
    ensures i == j
  {
    hide IntentBytes, ValidIntent;
    ShortIsTold(i);
    ShortIsTold(j);
    ToldBytesInjective(i, j);
  }

  lemma DigestPrepends(v: Digest, s: Bytes, tail: Bytes)
    ensures PushDigest(v, s + tail) == PushDigest(v, s) + tail
  {
    assert v + (s + tail) == v + s + tail;
  }

  lemma NumberPrepends(v: U64, s: Bytes, tail: Bytes)
    ensures PushU64(Little, v, s + tail) == PushU64(Little, v, s) + tail
  {
    hide IntBytes, IntOf, Pow256;
  }

  lemma CountPrepends(v: U32, s: Bytes, tail: Bytes)
    ensures PushU32(Little, v, s + tail) == PushU32(Little, v, s) + tail
  {
    hide IntBytes, IntOf, Pow256;
  }

  lemma BytesPrepend(v: Bytes, s: Bytes, tail: Bytes)
    ensures PushBytes(Little, v, s + tail) == PushBytes(Little, v, s) + tail
  {
    hide IntBytes, IntOf, Pow256, LengthPrefix;
  }

  /** The middle of the layout is the same bytes in front of whatever follows. */
  lemma MiddlePrepends(i: ActionIntent, tail: Bytes)
    ensures PushMiddle(i, tail) == PushMiddle(i, []) + tail
  {
    hide PushDigest, PushBytes, PushU64, PushCommitments, ReadDigest, ReadBytes, ReadText, ReadU64, ReadList, Utf8;
    var commitments := PushCommitments(i.contextCommitments, []);
    var nonce := PushDigest(i.requestNonce, commitments);
    var time := PushU64(Little, i.requestedAt, nonce);
    var requester := PushBytes(Little, i.requestedBy, time);
    CommitmentsPrepend(i.contextCommitments, tail);
    DigestPrepends(i.requestNonce, commitments, tail);
    NumberPrepends(i.requestedAt, nonce, tail);
    BytesPrepend(i.requestedBy, time, tail);
    BytesPrepend(i.parametersMediaType, requester, tail);
    DigestPrepends(i.parametersCommitment, PushBytes(Little, i.parametersMediaType, requester), tail);
  }

  lemma CommitmentsPrepend(cs: seq<Digest>, tail: Bytes)
    ensures PushCommitments(cs, tail) == PushCommitments(cs, []) + tail
  {
    hide PushAll, ReadAll, PushU32, ReadU32, LengthPrefix;
    DigestsPrepend(cs, [], tail);
    assert [] + tail == tail;
    CountPrepends(LengthPrefix(|cs|), PushAll(PushDigest, cs, []), tail);
  }

  lemma {:induction false} DigestsPrepend(vs: seq<Digest>, s: Bytes, tail: Bytes)
    ensures PushAll(PushDigest, vs, s + tail) == PushAll(PushDigest, vs, s) + tail
  {
    if vs != [] {
      var last := vs[|vs| - 1];
      DigestPrepends(last, s, tail);
      DigestsPrepend(vs[..|vs| - 1], PushDigest(last, s), tail);
    }
  }

  /** With 2^32 bytes in it, a field can hand its bytes to the next field but one, past what lies between. */
  lemma BytesMoveAcross(middle: Bytes, filler: Bytes)
    requires |middle| + 4 + |filler| == 0x1_0000_0000
    ensures var empty := PushBytes(Little, [], []);
            PushBytes(Little, middle + empty + filler, middle + empty) ==
            PushBytes(Little, [], middle + PushBytes(Little, filler + middle + empty, []))
  {
    hide PushBytes;
    var empty := PushBytes(Little, [], []);
    PrefixIsFour();
    var before, after := middle + empty + filler, filler + middle + empty;
    WrappedLengthIsAmbiguous(Little, before, middle + empty);
    WrappedLengthIsAmbiguous(Little, after, []);
    assert after + [] == after;
    EmptyPrepends(after);
    Regroup(middle, empty, filler);
  }

  lemma Regroup<T>(a: seq<T>, b: seq<T>, c: seq<T>)
    ensures (a + b + c) + (a + b) == a + (b + (c + a + b))
  {
  }

  /**
    Past the prefix, bytes move between the target and the profile: from any intent, two
    that differ only there and have one encoding.
   */
  lemma TargetAndProfileAreConfused(base: ActionIntent, filler: Bytes) returns (i: ActionIntent, j: ActionIntent)
    requires |PushMiddle(base, [])| + 4 + |filler| == 0x1_0000_0000
    ensures i == base.(target := i.target, profileBytes := []) && |i.target| == 0x1_0000_0000
    ensures j == base.(target := [], profileBytes := j.profileBytes) && |j.profileBytes| == 0x1_0000_0000
    ensures IntentBytes(i) == IntentBytes(j)
  {
    hide PushHead, PushMiddle, PushBytes;
    var middle, empty := PushMiddle(base, []), PushBytes(Little, [], []);
    PrefixIsFour();
    i := base.(target := middle + empty + filler, profileBytes := []);
    j := base.(target := [], profileBytes := filler + middle + empty);
    MiddleIsShared(base, i, j);
    MiddlePrepends(base, empty);
    MiddlePrepends(base, PushBytes(Little, j.profileBytes, []));
    BytesMoveAcross(middle, filler);
    HeadIsShared(i, j, PushBytes(Little, i.target, PushMiddle(i, empty)));
  }

  lemma MiddleIsShared(base: ActionIntent, i: ActionIntent, j: ActionIntent)
    requires i == base.(target := i.target, profileBytes := i.profileBytes)
    requires j == base.(target := j.target, profileBytes := j.profileBytes)
    ensures forall tail :: PushMiddle(i, tail) == PushMiddle(base, tail) == PushMiddle(j, tail)
  {
  }

  lemma HeadIsShared(i: ActionIntent, j: ActionIntent, tail: Bytes)
    requires i == j.(target := i.target, profileBytes := i.profileBytes)
    ensures PushHead(i, tail) == PushHead(j, tail)
  {
  }

  lemma PrefixIsFour()
    ensures |PushBytes(Little, [], [])| == 4
  {
    hide PushBytes;
    PushesGrow();
  }

  lemma EmptyPrepends(t: Bytes)
    ensures PushBytes(Little, [], t) == PushBytes(Little, [], []) + t
  {
    hide IntBytes, IntOf, Pow256;
    Pow256Values();
  }

  /** A valid intent with nothing in it but an action type of the given length. */
  function Plain(n: nat): ActionIntent
  {
    var name: Text := [0x78];
    var action: Bytes := seq(n, _ => 0x78);
    assert Utf8(action) by { AsciiIsUtf8(action); }
    ActionIntent(PROTOCOL_MAJOR, PROTOCOL_MINOR, OBJECT_VERSION, name, action, [], ZERO, name, [1], 0, ZERO, [], [])
  }

  /** From the ambiguous size on, every size is that of two different valid intents with one encoding. */
  lemma LongIntentsAreConfused(n: nat) returns (i: ActionIntent, j: ActionIntent)
    requires n >= AMBIGUOUS_SIZE
    ensures ValidIntent(i) && ValidIntent(j) && i != j
    ensures IntentBytes(i) == IntentBytes(j) && |IntentBytes(i)| == n
  {
    hide IntentBytes, PushMiddle, Utf8;
    var base := Plain(n - AMBIGUOUS_SIZE + 1);
    PlainMiddle(n - AMBIGUOUS_SIZE + 1);
    var filler: Bytes := seq(0x1_0000_0000 - 90, _ => 0);
    i, j := TargetAndProfileAreConfused(base, filler);
    IntentSize(i);
  }

  lemma PlainMiddle(n: nat)
    ensures |PushMiddle(Plain(n), [])| == 86
  {
    hide PushText, PushBytes, PushDigest, PushU64, PushAll, LengthPrefix, Utf8;
    PushesGrow();
    PushDigestsGrow([], []);
  }

  ghost predicate InjectiveAt(n: nat)
  {
    forall i, j :: ValidIntent(i) && ValidIntent(j) && |IntentBytes(i)| == n && IntentBytes(i) == IntentBytes(j) ==>
        i == j
  }

  /** The encoding of valid intents is injective exactly up to the ambiguous size. */
  lemma InjectiveExactlyBelowTheAmbiguousSize(n: nat)
    ensures InjectiveAt(n) <==> n < AMBIGUOUS_SIZE
  {
    hide IntentBytes, ValidIntent;
    if n < AMBIGUOUS_SIZE {
      forall i, j | ValidIntent(i) && ValidIntent(j) && |IntentBytes(i)| == n && IntentBytes(i) == IntentBytes(j)
        ensures i == j
      {
        IntentBytesInjective(i, j);
      }
    } else {
      var i, j := LongIntentsAreConfused(n);
    }
  }

  function IntentId(h: Hashes, i: ActionIntent): Digest
  {
    h.TaggedId(IntentDomain, ACTION_INTENT_TAG(), IntentBytes(i))
  }

  /** What the identifier hashes: the tag, a zero byte and the canonical bytes. */
  function IntentPreimage(i: ActionIntent): Bytes
  {
    Join(ACTION_INTENT_TAG(), IntentBytes(i))
  }

  lemma IntentIdCommits(h: Hashes, i: ActionIntent, j: ActionIntent)
    requires ValidIntent(i) && ValidIntent(j) && Short(i) && IntentId(h, i) == IntentId(h, j)
    ensures i == j || h.Collides(IntentDomain, IntentPreimage(i), IntentPreimage(j))
  {
    hide IntentBytes, ACTION_INTENT_TAG, ValidIntent, Short;
    var prefix := ACTION_INTENT_TAG() + [0];
    if IntentPreimage(i) == IntentPreimage(j) {
      assert IntentBytes(i) == (prefix + IntentBytes(i))[|prefix|..] == IntentBytes(j);
      IntentBytesInjective(i, j);
    }
  }
}
