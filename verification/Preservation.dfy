/**
  Preservation envelopes, their canonical codec and renewal chains
  (csv-accountability/src/preservation.rs). Integers are big-endian.
 */
module Preservation {
  import opened Bytes
  import opened Text
  import opened Wire
  import opened Hashing
  import opened Cursors
  import opened Mandate

  const MAX_PRESERVATION_BYTES: nat := 8 * 1024 * 1024
  const MAX_PRESERVATION_TEXT_BYTES: nat := 128
  const MAX_PRESERVATION_ALGORITHMS: nat := 32
  const MAX_PRESERVATION_CHAIN: nat := 64

  datatype Envelope = Envelope(
    version: ObjectVersion,
    objectRegistryId: Text,
    originalBytes: Bytes,
    algorithmIds: seq<Text>,
    preservedAt: U64,
    previousId: Option<Digest>,
    renewalMaterialDigest: Digest)

  datatype PreservationError =
    | UnsupportedVersion | InvalidField | MalformedEncoding
    | IdentifierMismatch | InvalidRenewalChain | HistoricalRewrite

  predicate ValidFields(e: Envelope)
  {
    && RegisteredId(e.objectRegistryId, MAX_PRESERVATION_TEXT_BYTES)
    && 0 < |e.originalBytes| <= MAX_PRESERVATION_BYTES
    && 0 < |e.algorithmIds| <= MAX_PRESERVATION_ALGORITHMS
    && (forall i :: 0 <= i < |e.algorithmIds| ==> RegisteredId(e.algorithmIds[i], MAX_PRESERVATION_TEXT_BYTES))
    && Ascending(e.algorithmIds)
    && e.preservedAt != 0
    && e.renewalMaterialDigest != ZERO
  }

  predicate ValidEnvelope(e: Envelope)
  {
    e.version == OBJECT_VERSION && ValidFields(e)
  }

  // ---- Layout -----------------------------------------------------------------------

  function PushAlgorithm(v: Text, tail: Bytes): Bytes { PushText(Big, v, tail) }

  function ReadAlgorithm(b: Bytes): Parsed<Text> { ReadText(Big, MAX_PRESERVATION_TEXT_BYTES, b) }

  predicate BoundedAlgorithm(v: Text) { |v| <= MAX_PRESERVATION_TEXT_BYTES }

  predicate BoundedAlgorithms(vs: seq<Text>)
  {
    0 < |vs| <= MAX_PRESERVATION_ALGORITHMS && forall i :: 0 <= i < |vs| ==> BoundedAlgorithm(vs[i])
  }

  /** Algorithm identifiers are counted in 16 bits, by a truncating cast. */
  function PushAlgorithms(vs: seq<Text>, tail: Bytes): Bytes
  {
    PushU16(Big, |vs| % 0x1_0000, PushAll(PushAlgorithm, vs, tail))
  }

  function ReadAlgorithms(b: Bytes): (r: Parsed<seq<Text>>)
  {
    var (n, b) :- ReadU16(Big, b);
    if n == 0 || n > MAX_PRESERVATION_ALGORITHMS then Fail else ReadAll(ReadAlgorithm, n, b)
  }

  lemma AlgorithmIsUndone()
    ensures Undoes(ReadAlgorithm, PushAlgorithm, BoundedAlgorithm)
  {
    hide ReadText, PushText, Utf8;
  }

  lemma ReadPushedAlgorithms(vs: seq<Text>, tail: Bytes)
    requires BoundedAlgorithms(vs)
    ensures ReadAlgorithms(PushAlgorithms(vs, tail)) == Got(vs, tail)
  {
    hide Undoes, ReadAlgorithm, PushAlgorithm, BoundedAlgorithm, ReadAll, PushAll, ReadU16, PushU16, Utf8;
    AlgorithmIsUndone();
    ReadPushedAll(ReadAlgorithm, PushAlgorithm, BoundedAlgorithm, vs, tail);
    assert |vs| % 0x1_0000 == |vs|;
  }

  lemma ReadAlgorithmsConsumes(b: Bytes)
    ensures var r := ReadAlgorithms(b); r.Got? ==> b == PushAlgorithms(r.value, r.rest)
  {
    hide ReadText, PushText, ReadU16, PushU16;
    ReadsConsume();
    assert Consumes(ReadAlgorithm, PushAlgorithm);
    var n := ReadU16(Big, b);
    if n.Got? {
      ReadAllConsumes(ReadAlgorithm, PushAlgorithm, n.value, n.rest);
    }
  }

  function PushEnvelope(e: Envelope, tail: Bytes): Bytes
  {
    PushU16(Big, e.version,
    PushText(Big, e.objectRegistryId,
    PushBytes(Big, e.originalBytes,
    PushAlgorithms(e.algorithmIds,
    PushU64(Big, e.preservedAt,
    PushOptionDigest(e.previousId,
    PushDigest(e.renewalMaterialDigest, tail)))))))
  }

  function ReadEnvelope(b: Bytes): Parsed<Envelope>
  {
    var (version, b) :- ReadU16(Big, b);
    if version == 0 then Fail else
    var (registryId, b) :- ReadText(Big, MAX_PRESERVATION_TEXT_BYTES, b);
    var (original, b) :- ReadBytes(Big, MAX_PRESERVATION_BYTES, b);
    var (algorithms, b) :- ReadAlgorithms(b);
    var (preservedAt, b) :- ReadU64(Big, b);
    var (previous, b) :- ReadOptionDigest(b);
    var (material, b) :- ReadDigest(b);
    Got(Envelope(version, registryId, original, algorithms, preservedAt, previous, material), b)
  }

  predicate BoundedEnvelope(e: Envelope)
  {
    && |e.objectRegistryId| <= MAX_PRESERVATION_TEXT_BYTES
    && |e.originalBytes| <= MAX_PRESERVATION_BYTES
    && BoundedAlgorithms(e.algorithmIds)
  }

  lemma ReadPushedEnvelope(e: Envelope, tail: Bytes)
    requires BoundedEnvelope(e)
    ensures ReadEnvelope(PushEnvelope(e, tail)) == Got(e, tail)
  {
    hide PushU16, PushText, PushBytes, PushAlgorithms, PushU64, PushOptionDigest, PushDigest;
    hide ReadU16, ReadText, ReadBytes, ReadAlgorithms, ReadU64, ReadOptionDigest, ReadDigest, BoundedAlgorithms;
    ReadPushedAlgorithms(e.algorithmIds,
        PushU64(Big, e.preservedAt, PushOptionDigest(e.previousId, PushDigest(e.renewalMaterialDigest, tail))));
  }

  lemma ReadEnvelopeConsumes(b: Bytes)
    ensures var r := ReadEnvelope(b); r.Got? ==> b == PushEnvelope(r.value, r.rest)
  {
    hide PushU16, PushText, PushBytes, PushAlgorithms, PushU64, PushOptionDigest, PushDigest;
    hide ReadU16, ReadText, ReadBytes, ReadAlgorithms, ReadU64, ReadOptionDigest, ReadDigest;
    ReadsConsume();
    forall b: Bytes
      ensures var r := ReadAlgorithms(b); r.Got? ==> b == PushAlgorithms(r.value, r.rest)
    {
      ReadAlgorithmsConsumes(b);
    }
  }

  // ---- The codec ------------------------------------------------------------------------

  function EnvelopeBytes(e: Envelope): Bytes { PushEnvelope(e, []) }

  /** Parsing and validation, without the final comparison against a re-encoding. */
  function UnguardedEnvelope(b: Bytes): Option<Envelope>
  {
    var r := ReadEnvelope(b);
    if r.Got? && r.rest == [] && ValidEnvelope(r.value) then Some(r.value) else None
  }

  function EnvelopeFromBytes(b: Bytes): Option<Envelope>
  {
    var r := UnguardedEnvelope(b);
    if r.Some? && EnvelopeBytes(r.value) == b then r else None
  }

  lemma PreservationRoundTrip(e: Envelope)
    requires ValidEnvelope(e)
    ensures EnvelopeFromBytes(EnvelopeBytes(e)) == Some(e)
  {
    hide PushEnvelope, ReadEnvelope, Utf8, Trimmed, IsAscii, HasAsciiControl, Ascending;
    ReadPushedEnvelope(e, []);
  }

  /** The re-encoding test refuses nothing that parsed and validated. */
  lemma PreservationGuardNeverFires(b: Bytes)
    ensures EnvelopeFromBytes(b) == UnguardedEnvelope(b)
    ensures var r := EnvelopeFromBytes(b); r.Some? ==> ValidEnvelope(r.value) && EnvelopeBytes(r.value) == b
  {
    hide PushEnvelope, ReadEnvelope, ValidEnvelope;
    ReadEnvelopeConsumes(b);
  }

  method DecodePreservation(bytes: Bytes) returns (r: Option<Envelope>)
    ensures r == EnvelopeFromBytes(bytes)
  {
    hide ReadU16, ReadText, ReadBytes, ReadAlgorithms, ReadU64, ReadOptionDigest, ReadDigest, ValidEnvelope,
         EnvelopeBytes, Utf8;
    var c := new Cursor(Big, bytes);
    var version := c.U16(); if version.None? || version.value == 0 { return None; }
    var registryId := c.Text(MAX_PRESERVATION_TEXT_BYTES); if registryId.None? { return None; }
    var original := c.Bytes(MAX_PRESERVATION_BYTES); if original.None? { return None; }
    var algorithms := DecodeAlgorithms(c); if algorithms.None? { return None; }
    var preservedAt := c.U64(); if preservedAt.None? { return None; }
    var previous := c.OptionDigest(); if previous.None? { return None; }
    var material := c.Digest(); if material.None? { return None; }
    if c.remaining != [] { return None; }
    var e := Envelope(version.value, registryId.value, original.value, algorithms.value, preservedAt.value,
                      previous.value, material.value);
    r := if ValidEnvelope(e) && EnvelopeBytes(e) == bytes then Some(e) else None;
  }

  method DecodeAlgorithms(c: Cursor) returns (r: Option<seq<Text>>)
    requires c.order == Big
    modifies c`remaining
    ensures c.Follows(ReadAlgorithms(old(c.remaining)), r)
  {
    hide ReadU16, ReadText;
    var n := c.U16();
    if n.None? || n.value == 0 || n.value > MAX_PRESERVATION_ALGORITHMS {
      return None;
    }
    var count := n.value;
    ghost var start := c.remaining;
    var ids: seq<Text> := [];
    for i := 0 to count
      invariant ReadAll(ReadAlgorithm, i, start) == Got(ids, c.remaining)
    {
      var v := c.Text(MAX_PRESERVATION_TEXT_BYTES);
      if v.None? {
        ReadAllFails(ReadAlgorithm, i + 1, count, start);
        return None;
      }
      ids := ids + [v.value];
    }
    r := Some(ids);
  }

  function EnvelopeId(h: Hashes, e: Envelope): Digest
  {
    h.Id(PreservationDomain, EnvelopeBytes(e))
  }

  lemma EnvelopeIdCommits(h: Hashes, e: Envelope, f: Envelope)
    requires ValidEnvelope(e) && ValidEnvelope(f) && EnvelopeId(h, e) == EnvelopeId(h, f)
    ensures e == f || h.Collides(PreservationDomain, EnvelopeBytes(e), EnvelopeBytes(f))
  {
    hide EnvelopeBytes, EnvelopeFromBytes, ValidEnvelope;
    PreservationRoundTrip(e);
    PreservationRoundTrip(f);
  }

  // ---- Renewal chains --------------------------------------------------------------------

  datatype Generation = Generation(id: Digest, envelope: Envelope)

  predicate Keeps(previous: Envelope, next: Envelope)
  {
    && next.objectRegistryId == previous.objectRegistryId
    && next.originalBytes == previous.originalBytes
    && forall i :: 0 <= i < |previous.algorithmIds| ==> previous.algorithmIds[i] in next.algorithmIds
  }

  predicate Succeeds(previous: Generation, next: Envelope)
  {
    next.previousId == Some(previous.id) && previous.envelope.preservedAt < next.preservedAt
  }

  predicate Identified(h: Hashes, g: Generation)
  {
    ValidEnvelope(g.envelope) && g.id == EnvelopeId(h, g.envelope)
  }

  predicate LinkedAt(chain: seq<Generation>, i: nat)
    requires i < |chain|
  {
    if i == 0 then chain[0].envelope.previousId.None?
    else Succeeds(chain[i - 1], chain[i].envelope) && Keeps(chain[i - 1].envelope, chain[i].envelope)
  }

  predicate UniqueUpTo(chain: seq<Generation>, n: nat)
  {
    forall i, j :: 0 <= i < n && i < j < |chain| ==> chain[i].id != chain[j].id
  }

  predicate Repeats(chain: seq<Generation>, i: nat)
    requires i < |chain|
  {
    exists k :: i < k < |chain| && chain[k].id == chain[i].id
  }

  lemma OneMoreUnique(chain: seq<Generation>, i: nat)
    requires i < |chain| && UniqueUpTo(chain, i)
    ensures if Repeats(chain, i) then !UniqueUpTo(chain, |chain|) else UniqueUpTo(chain, i + 1)
  {
  }

  lemma NoneRepeatYet(chain: seq<Generation>)
    ensures UniqueUpTo(chain, 0)
  {
  }

  predicate Renewals(h: Hashes, chain: seq<Generation>)
  {
    && (forall i :: 0 <= i < |chain| ==> Identified(h, chain[i]))
    && (forall i :: 0 <= i < |chain| ==> LinkedAt(chain, i))
  }

  predicate ValidChain(h: Hashes, chain: seq<Generation>)
  {
    0 < |chain| <= MAX_PRESERVATION_CHAIN && UniqueUpTo(chain, |chain|) && Renewals(h, chain)
  }

  /** What is wrong with a generation in its place, if anything. */
  function FaultAt(h: Hashes, chain: seq<Generation>, i: nat): Option<PreservationError>
    requires i < |chain|
  {
    var e := chain[i].envelope;
    if e.version != OBJECT_VERSION then Some(UnsupportedVersion)
    else if !ValidFields(e) then Some(InvalidField)
    else if !Identified(h, chain[i]) then Some(IdentifierMismatch)
    else if Repeats(chain, i) || (i == 0 && e.previousId.Some?) || (i > 0 && !Succeeds(chain[i - 1], e)) then
      Some(InvalidRenewalChain)
    else if i > 0 && !Keeps(chain[i - 1].envelope, e) then Some(HistoricalRewrite)
    else None
  }

  predicate FirstFault(h: Hashes, chain: seq<Generation>, i: nat, error: PreservationError)
  {
    i < |chain| && FaultAt(h, chain, i) == Some(error) && forall j :: 0 <= j < i ==> FaultAt(h, chain, j).None?
  }

  method ValidateChain(h: Hashes, chain: seq<Generation>) returns (r: Result<(), PreservationError>)
    ensures r.Ok? <==> ValidChain(h, chain)
    ensures chain == [] || |chain| > MAX_PRESERVATION_CHAIN ==> r == Err(InvalidRenewalChain)
    ensures 0 < |chain| <= MAX_PRESERVATION_CHAIN && r.Err? ==> exists i :: FirstFault(h, chain, i, r.error)
    ensures r == Err(IdentifierMismatch) ==>
              exists i :: 0 <= i < |chain| && ValidEnvelope(chain[i].envelope) &&
                  chain[i].id != EnvelopeId(h, chain[i].envelope)
    ensures r == Err(HistoricalRewrite) ==>
              exists i :: 0 < i < |chain| && Succeeds(chain[i - 1], chain[i].envelope) &&
                  !Keeps(chain[i - 1].envelope, chain[i].envelope)
  {
    hide ValidFields, EnvelopeId, Keeps, UniqueUpTo, Repeats, Utf8;
    if chain == [] || |chain| > MAX_PRESERVATION_CHAIN {
      return Err(InvalidRenewalChain);
    }
    assert UniqueUpTo(chain, 0) by { NoneRepeatYet(chain); }
    for i := 0 to |chain|
      invariant forall j :: 0 <= j < i ==> Identified(h, chain[j])
      invariant forall j :: 0 <= j < i ==> LinkedAt(chain, j)
      invariant forall j :: 0 <= j < i ==> FaultAt(h, chain, j).None?
      invariant UniqueUpTo(chain, i)
    {
      var e := chain[i].envelope;
      if e.version != OBJECT_VERSION {
        assert FirstFault(h, chain, i, UnsupportedVersion);
        return Err(UnsupportedVersion);
      }
      if !ValidFields(e) {
        assert FirstFault(h, chain, i, InvalidField);
        return Err(InvalidField);
      }
      if chain[i].id != EnvelopeId(h, e) {
        assert FirstFault(h, chain, i, IdentifierMismatch);
        return Err(IdentifierMismatch);
      }
      OneMoreUnique(chain, i);
      if Repeats(chain, i) {
        assert FirstFault(h, chain, i, InvalidRenewalChain);
        return Err(InvalidRenewalChain);
      }
      if i == 0 {
        if e.previousId.Some? {
          assert !LinkedAt(chain, i);
          assert FirstFault(h, chain, i, InvalidRenewalChain);
          return Err(InvalidRenewalChain);
        }
      } else {
        var previous := chain[i - 1];
        if e.previousId.None? || e.previousId.value != previous.id || e.preservedAt <= previous.envelope.preservedAt {
          assert !LinkedAt(chain, i);
          assert FirstFault(h, chain, i, InvalidRenewalChain);
          return Err(InvalidRenewalChain);
        }
        if !Keeps(previous.envelope, e) {
          assert !LinkedAt(chain, i);
          assert FirstFault(h, chain, i, HistoricalRewrite);
          return Err(HistoricalRewrite);
        }
      }
    }
    return Ok(());
  }

  lemma KeepsTransitive(a: Envelope, b: Envelope, c: Envelope)
    requires Keeps(a, b) && Keeps(b, c)
    ensures Keeps(a, c)
  {
  }

  /** Adjacent checks bind any two generations: nothing is rewritten, however far apart. */
  lemma {:induction false} HistoryIsNeverRewritten(h: Hashes, chain: seq<Generation>, i: nat, j: nat)
    requires Renewals(h, chain) && i < j < |chain|
    ensures Keeps(chain[i].envelope, chain[j].envelope)
    ensures chain[i].envelope.preservedAt < chain[j].envelope.preservedAt
    decreases j
  {
    hide Identified, Keeps;
    assert LinkedAt(chain, j);
    if i < j - 1 {
      HistoryIsNeverRewritten(h, chain, i, j - 1);
      KeepsTransitive(chain[i].envelope, chain[j - 1].envelope, chain[j].envelope);
    }
  }

  ghost predicate ChainsCollide(h: Hashes, c: seq<Generation>, d: seq<Generation>)
  {
    exists i, j :: 0 <= i < |c| && 0 <= j < |d|
      && h.Collides(PreservationDomain, EnvelopeBytes(c[i].envelope), EnvelopeBytes(d[j].envelope))
  }

  /** Equal identifiers at two positions mean equal histories up to them. */
  lemma {:induction false} EqualIdsShareTheirHistory(h: Hashes, c: seq<Generation>, d: seq<Generation>, m: nat, n: nat)
    requires Renewals(h, c) && Renewals(h, d) && m < |c| && n < |d| && c[m].id == d[n].id
    ensures (m == n && forall k :: 0 <= k <= m ==> c[k] == d[k]) || ChainsCollide(h, c, d)
    decreases m
  {
    hide EnvelopeId, EnvelopeBytes, ValidEnvelope, Keeps;
    assert Identified(h, c[m]) && LinkedAt(c, m) && Identified(h, d[n]) && LinkedAt(d, n);
    EnvelopeIdCommits(h, c[m].envelope, d[n].envelope);
    if c[m].envelope == d[n].envelope && m > 0 && n > 0 {
      EqualIdsShareTheirHistory(h, c, d, m - 1, n - 1);
    }
  }

  /** The identifier of the latest generation commits to the whole history before it. */
  lemma LatestIdCommitsToTheChain(h: Hashes, c: seq<Generation>, d: seq<Generation>)
    requires Renewals(h, c) && Renewals(h, d) && c != [] && d != []
    requires c[|c| - 1].id == d[|d| - 1].id
    ensures c == d || ChainsCollide(h, c, d)
  {
    hide Renewals, ChainsCollide;
    EqualIdsShareTheirHistory(h, c, d, |c| - 1, |d| - 1);
  }
}
