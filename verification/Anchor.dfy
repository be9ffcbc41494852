/**
  Anchor evidence: seal-consumption records, chain-anchor codec and reconciliation of
  chain observations (csv-accountability/src/anchor.rs). Integers are big-endian.
 */
module Anchor {
  import opened Bytes
  import opened Text
  import opened Wire
  import opened Hashing
  import opened Cursors
  import opened Sorting

  const MAX_ANCHOR_FIELD_BYTES: nat := 256

  predicate AnchorField(s: Text) { Printable(s, MAX_ANCHOR_FIELD_BYTES) }

  // ---- Seal consumption ----------------------------------------------------------------

  datatype SealConsumption = SealConsumption(sealId: Digest, nullifier: Digest, commitment: Digest, anchorBackend: Text)

  datatype SealAssessment = IndependentlyEnforced | Inconsistent | Malformed

  predicate ValidSeal(s: SealConsumption)
  {
    s.sealId != ZERO && s.nullifier != ZERO && s.commitment != ZERO && AnchorField(s.anchorBackend)
  }

  function AssessSeal(s: SealConsumption, nullifier: Digest, commitment: Digest): SealAssessment
  {
    if !ValidSeal(s) then Malformed
    else if s.nullifier == nullifier && s.commitment == commitment then IndependentlyEnforced
    else Inconsistent
  }

  /** A record corroborates exactly when it is well-formed and names both digests it is held against. */
  lemma SealAssessmentExactlyWhen(s: SealConsumption, nullifier: Digest, commitment: Digest)
    ensures AssessSeal(s, nullifier, commitment) == IndependentlyEnforced <==>
              && s.sealId != ZERO && AnchorField(s.anchorBackend)
              && s.nullifier == nullifier != ZERO && s.commitment == commitment != ZERO
    ensures AssessSeal(s, nullifier, commitment) == Malformed <==>
              ZERO in [s.sealId, s.nullifier, s.commitment] || !AnchorField(s.anchorBackend)
  {
    hide AnchorField;
  }

  // ---- Finality ---------------------------------------------------------------------------

  datatype Finality = Pending(observed: U64, required: U64) | Final(observed: U64)

  function FromConfirmations(observed: U64, required: U64): Finality
  {
    if required > 0 && observed >= required then Final(observed) else Pending(observed, required)
  }

  /** A pending reading whose positive threshold is already met: a final reading in disguise. */
  predicate MetPending(f: Finality)
  {
    f.Pending? && f.required > 0 && f.observed >= f.required
  }

  /** Classification produces exactly the readings that are not a final one in disguise. */
  lemma ClassificationIsHonest(f: Finality)
    ensures f.Pending? ==> (FromConfirmations(f.observed, f.required) == f <==> !MetPending(f))
    ensures f.Final? ==> ((exists required :: FromConfirmations(f.observed, required) == f) <==> f.observed > 0)
  {
    if f.Final? && f.observed > 0 {
      assert FromConfirmations(f.observed, 1) == f;
    }
  }

  /** Some confirmation reading is classified as `f`. */
  ghost predicate Classifiable(f: Finality)
  {
    exists observed, required :: FromConfirmations(observed, required) == f
  }

  /** A reading can come from classification exactly when it is neither a met pending one nor final at depth zero. */
  lemma ClassifiableExactlyWhen(f: Finality)
    ensures Classifiable(f) <==> !MetPending(f) && f != Final(0)
  {
    ClassificationIsHonest(f);
    if f.Pending? && !MetPending(f) {
      assert FromConfirmations(f.observed, f.required) == f;
    } else if f.Final? && f.observed > 0 {
      assert FromConfirmations(f.observed, 1) == f;
    }
  }

  function PushFinality(f: Finality, tail: Bytes): (b: Bytes)
    ensures ReadFinality(b) == if MetPending(f) then Fail else Got(f, tail)
  {
    match f
    case Pending(observed, required) => PushByte(0, PushU64(Big, observed, PushU64(Big, required, tail)))
    case Final(observed) => PushByte(1, PushU64(Big, observed, PushU64(Big, 0, tail)))
  }

  function ReadFinality(b: Bytes): Parsed<Finality>
  {
    var (tag, b) :- ReadByte(b);
    var (observed, b) :- ReadU64(Big, b);
    var (required, b) :- ReadU64(Big, b);
    match tag
    case 0 => if MetPending(Pending(observed, required)) then Fail else Got(Pending(observed, required), b)
    case 1 => if required != 0 then Fail else Got(Final(observed), b)
    case _ => Fail
  }

  // ---- Chain anchors ------------------------------------------------------------------------

  datatype ChainAnchor = ChainAnchor(
    commitment: Digest,
    chainId: Text,
    anchorRef: Bytes,
    blockHeight: U64,
    blockHash: Digest,
    finality: Finality,
    anchorBackend: Text)

  predicate ValidAnchor(a: ChainAnchor)
  {
    && a.commitment != ZERO && a.blockHash != ZERO
    && 0 < |a.anchorRef| <= MAX_ANCHOR_FIELD_BYTES
    && AnchorField(a.chainId) && AnchorField(a.anchorBackend)
  }

  function PushAnchor(a: ChainAnchor, tail: Bytes): Bytes
  {
    PushDigest(a.commitment,
    PushText(Big, a.chainId,
    PushBytes(Big, a.anchorRef,
    PushU64(Big, a.blockHeight,
    PushDigest(a.blockHash,
    PushFinality(a.finality,
    PushText(Big, a.anchorBackend, tail)))))))
  }

  function ReadAnchor(b: Bytes): Parsed<ChainAnchor>
  {
    var (commitment, b) :- ReadDigest(b);
    var (chainId, b) :- ReadText(Big, NO_LIMIT, b);
    var (anchorRef, b) :- ReadBytes(Big, NO_LIMIT, b);
    var (height, b) :- ReadU64(Big, b);
    var (hash, b) :- ReadDigest(b);
    var (finality, b) :- ReadFinality(b);
    var (backend, b) :- ReadText(Big, NO_LIMIT, b);
    Got(ChainAnchor(commitment, chainId, anchorRef, height, hash, finality, backend), b)
  }

  lemma ReadPushedAnchor(a: ChainAnchor, tail: Bytes)
    requires |a.chainId| <= NO_LIMIT && |a.anchorRef| <= NO_LIMIT && |a.anchorBackend| <= NO_LIMIT
    ensures ReadAnchor(PushAnchor(a, tail)) == if MetPending(a.finality) then Fail else Got(a, tail)
  {
    hide PushDigest, PushText, PushBytes, PushU64, PushFinality, ReadDigest, ReadText, ReadBytes, ReadU64,
         ReadFinality;
  }

  lemma ReadAnchorConsumes(b: Bytes)
    ensures var r := ReadAnchor(b); r.Got? ==> b == PushAnchor(r.value, r.rest)
  {
    hide PushDigest, PushText, PushBytes, PushU64, PushByte, ReadDigest, ReadText, ReadBytes, ReadU64, ReadByte;
    ReadsConsume();
  }

  function AnchorBytes(a: ChainAnchor): Bytes { PushAnchor(a, []) }

  function AnchorFromBytes(b: Bytes): Option<ChainAnchor>
  {
    var r := ReadAnchor(b);
    if r.Got? && r.rest == [] && ValidAnchor(r.value) then Some(r.value) else None
  }

  /**
    A valid anchor round-trips exactly when its finality is not a met pending reading;
    otherwise its own canonical bytes are refused.
   */
  lemma AnchorRoundTripsExactlyWhen(a: ChainAnchor)
    requires ValidAnchor(a)
    ensures AnchorFromBytes(AnchorBytes(a)) == Some(a) <==> !MetPending(a.finality)
    ensures MetPending(a.finality) ==> AnchorFromBytes(AnchorBytes(a)) == None
  {
    hide PushAnchor, ReadAnchor, Utf8;
    ReadPushedAnchor(a, []);
  }

  function TheAnchor(f: Finality): ChainAnchor
  {
    var x: Text := Ascii("x");
    var one := ZERO[0 := 1];
    ChainAnchor(one, x, [0], 0, one, f, x)
  }

  lemma TheAnchorIsValid(f: Finality)
    ensures ValidAnchor(TheAnchor(f))
  {
    hide Utf8;
    assert Printable(Ascii("x"), 512);
    assert ZERO[0 := 1][0] != ZERO[0];
  }

  /** A valid anchor that its own decoder refuses. */
  lemma SomeValidAnchorDoesNotRoundTrip()
    ensures exists a :: ValidAnchor(a) && AnchorFromBytes(AnchorBytes(a)) == None
  {
    hide ValidAnchor, AnchorFromBytes, AnchorBytes, Utf8;
    var a := TheAnchor(Pending(1, 1));
    TheAnchorIsValid(Pending(1, 1));
    AnchorRoundTripsExactlyWhen(a);
  }

  /** Accepted bytes re-encode to themselves, although the decoder never compares them. */
  lemma AcceptedAnchorBytesAreCanonical(b: Bytes)
    ensures var r := AnchorFromBytes(b); r.Some? ==>
        ValidAnchor(r.value) && !MetPending(r.value.finality) && AnchorBytes(r.value) == b
  {
    hide PushAnchor, ReadAnchor, ValidAnchor;
    ReadAnchorConsumes(b);
    var r := AnchorFromBytes(b);
    if r.Some? {
      assert !MetPending(r.value.finality) by { DecodedFinalityIsHonest(b); }
    }
  }

  lemma DecodedFinalityIsHonest(b: Bytes)
    ensures var r := ReadAnchor(b); r.Got? ==> !MetPending(r.value.finality)
  {
    hide ReadDigest, ReadText, ReadBytes, ReadU64, ReadByte;
  }

  /** A decoded anchor's finality can come from classification exactly when it is not final at depth zero. */
  lemma DecodedFinalityIsClassifiableExactlyWhen(b: Bytes)
    requires AnchorFromBytes(b).Some?
    ensures Classifiable(AnchorFromBytes(b).value.finality) <==> AnchorFromBytes(b).value.finality != Final(0)
  {
    hide AnchorFromBytes, ValidAnchor, AnchorBytes, Classifiable, MetPending;
    AcceptedAnchorBytesAreCanonical(b);
    ClassifiableExactlyWhen(AnchorFromBytes(b).value.finality);
  }

  /** The decoder accepts an anchor that is final at depth zero, which no confirmation reading is classified as. */
  lemma SomeDecodedFinalityIsNotClassifiable()
    ensures exists b :: AnchorFromBytes(b).Some? && !Classifiable(AnchorFromBytes(b).value.finality)
  {
    hide AnchorFromBytes, AnchorBytes, ValidAnchor, Classifiable, Utf8;
    var a := TheAnchor(Final(0));
    TheAnchorIsValid(Final(0));
    AnchorRoundTripsExactlyWhen(a);
    DecodedFinalityIsClassifiableExactlyWhen(AnchorBytes(a));
  }

  method DecodeAnchor(bytes: Bytes) returns (r: Option<ChainAnchor>)
    ensures r == AnchorFromBytes(bytes)
  {
    hide ReadDigest, ReadText, ReadBytes, ReadU64, ReadFinality, ValidAnchor, Utf8;
    var c := new Cursor(Big, bytes);
    var commitment := c.Digest(); if commitment.None? { return None; }
    var chainId := c.Text(NO_LIMIT); if chainId.None? { return None; }
    var anchorRef := c.Bytes(NO_LIMIT); if anchorRef.None? { return None; }
    var height := c.U64(); if height.None? { return None; }
    var hash := c.Digest(); if hash.None? { return None; }
    var finality := DecodeFinality(c); if finality.None? { return None; }
    var backend := c.Text(NO_LIMIT); if backend.None? { return None; }
    if c.remaining != [] { return None; }
    var a := ChainAnchor(commitment.value, chainId.value, anchorRef.value, height.value, hash.value, finality.value,
        backend.value);
    r := if ValidAnchor(a) then Some(a) else None;
  }

  method DecodeFinality(c: Cursor) returns (r: Option<Finality>)
    requires c.order == Big
    modifies c`remaining
    ensures c.Follows(ReadFinality(old(c.remaining)), r)
  {
    hide ReadByte, ReadU64;
    var tag := c.Byte(); if tag.None? { return None; }
    var observed := c.U64(); if observed.None? { return None; }
    var required := c.U64(); if required.None? { return None; }
    if tag.value == 0 {
      if required.value > 0 && observed.value >= required.value {
        return None;
      }
      return Some(Pending(observed.value, required.value));
    } else if tag.value == 1 {
      if required.value != 0 {
        return None;
      }
      return Some(Final(observed.value));
    }
    r := None;
  }

  // ---- Reconciliation -------------------------------------------------------------------------

  datatype Observation = Observation(source: Text, blockHeight: U64, blockHash: Digest, finality: Finality)

  datatype Reconciliation =
    | NoObservations
    | Agreed(blockHeight: U64, finality: Finality)
    | Disagreement(hashes: seq<Bytes>)

  function BlockHashes(obs: seq<Observation>): seq<Bytes>
  {
    SortedUnique(seq(|obs|, i requires 0 <= i < |obs| => obs[i].blockHash))
  }

  predicate AllFinal(obs: seq<Observation>)
  {
    forall o :: o in obs ==> o.finality.Final?
  }

  function MinObserved(obs: seq<Observation>): (m: U64)
    requires obs != []
    ensures exists o :: o in obs && o.finality.observed == m
    ensures forall o :: o in obs ==> m <= o.finality.observed
  {
    var first := obs[0].finality.observed;
    if |obs| == 1 then first
    else
      var rest := MinObserved(obs[1..]);
      assert forall o :: o in obs <==> o == obs[0] || o in obs[1..];
      if first <= rest then first else rest
  }

  function MaxRequired(obs: seq<Observation>): (m: Option<U64>)
    ensures m.None? <==> AllFinal(obs)
    ensures m.Some? ==> exists o :: o in obs && o.finality.Pending? && o.finality.required == m.value
    ensures m.Some? ==> forall o :: o in obs && o.finality.Pending? ==> o.finality.required <= m.value
  {
    if obs == [] then None
    else
      var rest := MaxRequired(obs[1..]);
      assert forall o :: o in obs <==> o == obs[0] || o in obs[1..];
      match obs[0].finality
      case Final(_) => rest
      case Pending(_, required) => if rest.None? || rest.value <= required then Some(required) else rest
  }

  /** Final if every source is; otherwise the least depth seen against the greatest still demanded. */
  function ReconciledFinality(obs: seq<Observation>): Finality
    requires obs != []
  {
    var observed := MinObserved(obs);
    if AllFinal(obs) then Final(observed)
    else
      var required := match MaxRequired(obs)
        case Some(r) => r
        case None => if observed == U64_MAX then U64_MAX else observed + 1;
      Pending(observed, required)
  }

  function Reconcile(obs: seq<Observation>): Reconciliation
  {
    if obs == [] then NoObservations
    else
      var hashes := BlockHashes(obs);
      if |hashes| > 1 then Disagreement(hashes) else Agreed(obs[0].blockHeight, ReconciledFinality(obs))
  }

  predicate HashesDiffer(obs: seq<Observation>)
  {
    exists o, p :: o in obs && p in obs && o.blockHash != p.blockHash
  }

  lemma HashListed(obs: seq<Observation>, x: Bytes)
    ensures x in BlockHashes(obs) <==> exists o :: o in obs && o.blockHash == x
  {
    var hashes := seq(|obs|, i requires 0 <= i < |obs| => obs[i].blockHash);
    if x in hashes {
      var i :| 0 <= i < |hashes| && hashes[i] == x;
      assert obs[i] in obs;
    }
    if o :| o in obs && o.blockHash == x {
      var i :| 0 <= i < |obs| && obs[i] == o;
      assert hashes[i] == x;
    }
  }

  /** Disagreement is reported exactly when two sources differ on the block hash, and lists each hash once. */
  lemma DisagreementExactlyWhen(obs: seq<Observation>)
    ensures Reconcile(obs).Disagreement? <==> HashesDiffer(obs)
    ensures Reconcile(obs).Disagreement? ==>
              Ascending(Reconcile(obs).hashes) && forall x :: x in Reconcile(obs).hashes <==>
                  exists o :: o in obs && o.blockHash == x
  {
    hide SortedUnique, ReconciledFinality;
    forall x: Bytes
      ensures x in BlockHashes(obs) <==> exists o :: o in obs && o.blockHash == x
    {
      HashListed(obs, x);
    }
    var hashes := BlockHashes(obs);
    if |hashes| > 1 {
      AscendingPairs(hashes, 0, 1);
      assert hashes[0] in hashes && hashes[1] in hashes;
    }
    if o, p :| o in obs && p in obs && o.blockHash != p.blockHash {
      assert o.blockHash in hashes && p.blockHash in hashes;
    }
  }

  /** The same reports, in any order and any number of times each. */
  ghost predicate SameReports(a: seq<Observation>, b: seq<Observation>)
  {
    forall o :: o in a <==> o in b
  }

  lemma HashListIgnoresOrder(a: seq<Observation>, b: seq<Observation>)
    requires SameReports(a, b)
    ensures BlockHashes(a) == BlockHashes(b)
  {
    hide SortedUnique, BlockHashes;
    forall x: Bytes
      ensures x in BlockHashes(a) <==> x in BlockHashes(b)
    {
      HashListed(a, x);
      HashListed(b, x);
    }
    HashListsAscend(a, b);
    SameElementsSameSequence(BlockHashes(a), BlockHashes(b));
  }

  lemma HashListsAscend(a: seq<Observation>, b: seq<Observation>)
    ensures Ascending(BlockHashes(a)) && Ascending(BlockHashes(b))
  {
  }

  lemma FinalityIgnoresOrder(a: seq<Observation>, b: seq<Observation>)
    requires SameReports(a, b) && a != [] && b != []
    ensures ReconciledFinality(a) == ReconciledFinality(b)
  {
    hide MinObserved, MaxRequired;
  }

  /** Final is reported only if every source is final, and at a depth no source contradicts. */
  lemma FinalRequiresEveryFinal(obs: seq<Observation>)
    requires obs != []
    ensures ReconciledFinality(obs).Final? <==> AllFinal(obs)
    ensures forall o :: o in obs ==> ReconciledFinality(obs).observed <= o.finality.observed
  {
  }

  /**
    The reconciled reading is the most conservative one: the least depth any source observed,
    against the greatest threshold any pending source still demands.
   */
  lemma FinalityIsTheMostConservative(obs: seq<Observation>)
    requires obs != []
    ensures var f := ReconciledFinality(obs);
            && (exists o :: o in obs && o.finality.observed == f.observed)
            && (forall o :: o in obs ==> f.observed <= o.finality.observed)
            && (f.Pending? ==>
                && (exists o :: o in obs && o.finality.Pending? && o.finality.required == f.required)
                && (forall o :: o in obs && o.finality.Pending? ==> o.finality.required <= f.required))
  {
    hide MinObserved, MaxRequired;
  }

  /** Every outcome of reconciliation, and what an agreement reports. */
  lemma ReconciliationExactly(obs: seq<Observation>)
    ensures Reconcile(obs).NoObservations? <==> obs == []
    ensures Reconcile(obs).Agreed? <==> obs != [] && !HashesDiffer(obs)
    ensures Reconcile(obs).Agreed? ==>
              Reconcile(obs).blockHeight == obs[0].blockHeight && Reconcile(obs).finality == ReconciledFinality(obs)
  {
    hide BlockHashes, ReconciledFinality, HashesDiffer;
    DisagreementExactlyWhen(obs);
    assert obs == [] ==> !HashesDiffer(obs) by { NothingDiffers(); }
  }

  lemma NothingDiffers()
    ensures !HashesDiffer([])
  {
  }

  /** Reconciliation never turns honest readings into a final one in disguise. */
  lemma ReconciliationStaysHonest(obs: seq<Observation>)
    requires obs != [] && forall o :: o in obs ==> !MetPending(o.finality)
    ensures !MetPending(ReconciledFinality(obs))
  {
    hide MinObserved, MaxRequired;
    if !AllFinal(obs) {
      var o :| o in obs && o.finality.Pending? && o.finality.required == MaxRequired(obs).value;
    }
  }

  predicate HeightsAgree(obs: seq<Observation>)
  {
    forall o, p :: o in obs && p in obs ==> o.blockHeight == p.blockHeight
  }

  ghost predicate IgnoresOrder(obs: seq<Observation>)
  {
    forall p: seq<Observation> :: multiset(p) == multiset(obs) ==> Reconcile(p) == Reconcile(obs)
  }

  lemma PermutationsReportTheSame(p: seq<Observation>, obs: seq<Observation>)
    requires multiset(p) == multiset(obs)
    ensures SameReports(p, obs) && (p == [] <==> obs == [])
  {
    assert forall o :: o in p <==> o in multiset(p);
    assert forall o :: o in obs <==> o in multiset(obs);
    assert obs != [] ==> obs[0] in multiset(obs);
    assert p != [] ==> p[0] in multiset(p);
  }

  /**
    The whole result ignores the order of the observations exactly when the sources
    disagree on the hash or agree on the height: the height reported is the first source's.
   */
  lemma ResultIgnoresOrderExactlyWhen(obs: seq<Observation>)
    ensures IgnoresOrder(obs) <==> HashesDiffer(obs) || HeightsAgree(obs)
  {
    hide BlockHashes, ReconciledFinality;
    DisagreementExactlyWhen(obs);
    if HashesDiffer(obs) || HeightsAgree(obs) {
      forall p: seq<Observation> | multiset(p) == multiset(obs)
        ensures Reconcile(p) == Reconcile(obs)
      {
        PermutationsReportTheSame(p, obs);
        if obs != [] {
          HashListIgnoresOrder(p, obs);
          FinalityIgnoresOrder(p, obs);
          assert p[0] in p && obs[0] in obs;
        }
      }
    } else {
      var j := SomeOtherHeight(obs);
      var p := obs[0 := obs[j]][j := obs[0]];
      assert Reconcile(p) != Reconcile(obs) by {
        assert multiset(p) == multiset(obs);
        PermutationsReportTheSame(p, obs);
        HashListIgnoresOrder(p, obs);
      }
      assert multiset(p) == multiset(obs);
    }
  }

  /** Two sources with one hash and two heights: the answer depends on who is listed first. */
  lemma ResultMayDependOnOrder()
    ensures exists obs :: !HashesDiffer(obs) && !IgnoresOrder(obs)
  {
    hide Reconcile, IgnoresOrder;
    var obs := [Observation([], 1, ZERO, Final(1)), Observation([], 2, ZERO, Final(1))];
    assert obs[0] in obs && obs[1] in obs && obs[0].blockHeight != obs[1].blockHeight;
    ResultIgnoresOrderExactlyWhen(obs);
  }

  lemma SomeOtherHeight(obs: seq<Observation>) returns (j: nat)
    requires !HeightsAgree(obs)
    ensures 0 < j < |obs| && obs[j].blockHeight != obs[0].blockHeight
  {
    var o, p :| o in obs && p in obs && o.blockHeight != p.blockHeight;
    var a :| 0 <= a < |obs| && obs[a] == o;
    var b :| 0 <= b < |obs| && obs[b] == p;
    j := if o.blockHeight != obs[0].blockHeight then a else b;
  }
}
