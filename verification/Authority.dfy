/**
  Historical authority reconstructions and their canonical codec
  (csv-accountability/src/authority.rs). Integers are big-endian.
 */
module Authority {
  import opened Bytes
  import opened Text
  import opened Wire
  import opened Hashing
  import opened Cursors

  const MAX_AUTHORITY_LINKS: nat := 256
  const MAX_AUTHORITY_CONTRADICTIONS: nat := 64
  const MAX_AUTHORITY_FIELD_BYTES: nat := 512

  function AUTHORITY_REGISTRY_ID(): (s: Text)
    ensures |s| == 38
  {
    Ascii("org.diewan.authority-reconstruction.v1")
  }

  datatype Completeness = Complete | Incomplete | Withheld

  datatype Authentic = Verified | Rejected | Unknown

  datatype Link = Link(
    mandateId: Digest,
    parent: Option<Digest>,
    issuer: Bytes,
    subject: Bytes,
    domain: Bytes,
    effectiveFrom: U64,
    effectiveUntil: U64,
    scopeDigest: Digest,
    authenticity: Authentic)

  datatype Reconstruction = Reconstruction(
    registryId: Text,
    evaluationTime: U64,
    snapshotDigest: Digest,
    snapshotAuthenticity: Authentic,
    completeness: Completeness,
    inferenceMethod: Text,
    links: seq<Link>,
    contradictions: seq<Digest>)

  // ---- Validation ---------------------------------------------------------------------

  predicate Field(b: Bytes) { 0 < |b| <= MAX_AUTHORITY_FIELD_BYTES }

  predicate ValidLink(l: Link)
  {
    && Field(l.issuer) && Field(l.subject) && Field(l.domain)
    && l.effectiveFrom < l.effectiveUntil && l.scopeDigest != ZERO
  }

  /** Links are ordered by identifier and then parent, an absent parent counting as all zeros. */
  function ParentKey(l: Link): Digest
  {
    match l.parent case Some(p) => p case None => ZERO
  }

  predicate LinkBefore(a: Link, b: Link)
  {
    Less(a.mandateId, b.mandateId) || (a.mandateId == b.mandateId && Less(ParentKey(a), ParentKey(b)))
  }

  predicate SortedLinks(links: seq<Link>)
  {
    forall i :: 0 < i < |links| ==> LinkBefore(links[i - 1], links[i])
  }

  predicate ValidLinks(links: seq<Link>)
  {
    && 0 < |links| <= MAX_AUTHORITY_LINKS
    && (forall i :: 0 <= i < |links| ==> ValidLink(links[i]))
    && SortedLinks(links)
  }

  predicate ValidReconstruction(r: Reconstruction)
  {
    && r.registryId == AUTHORITY_REGISTRY_ID()
    && r.evaluationTime != 0 && r.snapshotDigest != ZERO
    && Printable(r.inferenceMethod, MAX_AUTHORITY_FIELD_BYTES)
    && ValidLinks(r.links)
    && |r.contradictions| <= MAX_AUTHORITY_CONTRADICTIONS && Ascending(r.contradictions)
  }

  lemma LinkBeforeTransitive(a: Link, b: Link, c: Link)
    requires LinkBefore(a, b) && LinkBefore(b, c)
    ensures LinkBefore(a, c)
  {
    if Less(a.mandateId, b.mandateId) && Less(b.mandateId, c.mandateId) {
      LessTransitive(a.mandateId, b.mandateId, c.mandateId);
    }
    if Less(ParentKey(a), ParentKey(b)) && Less(ParentKey(b), ParentKey(c)) {
      LessTransitive(ParentKey(a), ParentKey(b), ParentKey(c));
    }
  }

  /** No two sorted links share both identifier and parent. */
  lemma {:induction false} SortedLinksDiffer(links: seq<Link>, i: nat, j: nat)
    requires SortedLinks(links) && i < j < |links|
    ensures LinkBefore(links[i], links[j])
    ensures links[i].mandateId != links[j].mandateId || links[i].parent != links[j].parent
    decreases j
  {
    if i < j - 1 {
      SortedLinksDiffer(links, i, j - 1);
      LinkBeforeTransitive(links[i], links[j - 1], links[j]);
    }
    LessIrreflexive(links[i].mandateId);
    LessIrreflexive(ParentKey(links[i]));
  }

  // ---- Layout ---------------------------------------------------------------------------

  function PushAuthentic(v: Authentic, tail: Bytes): (b: Bytes)
    ensures ReadAuthentic(b) == Got(v, tail)
  {
    PushByte(match v case Verified => 0 case Rejected => 1 case Unknown => 2, tail)
  }

  function ReadAuthentic(b: Bytes): Parsed<Authentic>
  {
    var (tag, b) :- ReadByte(b);
    match tag
    case 0 => Got(Verified, b)
    case 1 => Got(Rejected, b)
    case 2 => Got(Unknown, b)
    case _ => Fail
  }

  function PushCompleteness(v: Completeness, tail: Bytes): (b: Bytes)
    ensures ReadCompleteness(b) == Got(v, tail)
  {
    PushByte(match v case Complete => 0 case Incomplete => 1 case Withheld => 2, tail)
  }

  function ReadCompleteness(b: Bytes): Parsed<Completeness>
  {
    var (tag, b) :- ReadByte(b);
    match tag
    case 0 => Got(Complete, b)
    case 1 => Got(Incomplete, b)
    case 2 => Got(Withheld, b)
    case _ => Fail
  }

  function PushLink(l: Link, tail: Bytes): Bytes
  {
    PushDigest(l.mandateId,
    PushOptionDigest(l.parent,
    PushBytes(Big, l.issuer,
    PushBytes(Big, l.subject,
    PushBytes(Big, l.domain,
    PushU64(Big, l.effectiveFrom,
    PushU64(Big, l.effectiveUntil,
    PushDigest(l.scopeDigest,
    PushAuthentic(l.authenticity, tail)))))))))
  }

  function ReadLink(b: Bytes): Parsed<Link>
  {
    var (mandateId, b) :- ReadDigest(b);
    var (parent, b) :- ReadOptionDigest(b);
    var (issuer, b) :- ReadBytes(Big, MAX_AUTHORITY_FIELD_BYTES, b);
    var (subject, b) :- ReadBytes(Big, MAX_AUTHORITY_FIELD_BYTES, b);
    var (domain, b) :- ReadBytes(Big, MAX_AUTHORITY_FIELD_BYTES, b);
    var (from, b) :- ReadU64(Big, b);
    var (until, b) :- ReadU64(Big, b);
    var (scope, b) :- ReadDigest(b);
    var (authenticity, b) :- ReadAuthentic(b);
    Got(Link(mandateId, parent, issuer, subject, domain, from, until, scope, authenticity), b)
  }

  predicate BoundedLink(l: Link)
  {
    && |l.issuer| <= MAX_AUTHORITY_FIELD_BYTES
    && |l.subject| <= MAX_AUTHORITY_FIELD_BYTES
    && |l.domain| <= MAX_AUTHORITY_FIELD_BYTES
  }

  predicate BoundedLinks(links: seq<Link>)
  {
    |links| <= MAX_AUTHORITY_LINKS && forall i :: 0 <= i < |links| ==> BoundedLink(links[i])
  }

  lemma ReadPushedLink(l: Link, tail: Bytes)
    requires BoundedLink(l)
    ensures ReadLink(PushLink(l, tail)) == Got(l, tail)
  {
    hide PushDigest, PushOptionDigest, PushBytes, PushU64, PushAuthentic;
    hide ReadDigest, ReadOptionDigest, ReadBytes, ReadU64, ReadAuthentic;
  }

  lemma ReadLinkConsumes(b: Bytes)
    ensures var r := ReadLink(b); r.Got? ==> b == PushLink(r.value, r.rest)
  {
    hide PushDigest, PushOptionDigest, PushBytes, PushU64, PushByte;
    hide ReadDigest, ReadOptionDigest, ReadBytes, ReadU64, ReadByte;
    ReadsConsume();
  }

  function PushLinks(links: seq<Link>, tail: Bytes): (b: Bytes)
  {
    PushList(Big, PushLink, links, tail)
  }

  function ReadLinks(b: Bytes): Parsed<seq<Link>>
  {
    ReadList(Big, MAX_AUTHORITY_LINKS, ReadLink, b)
  }

  lemma ReadPushedLinks(links: seq<Link>, tail: Bytes)
    requires BoundedLinks(links)
    ensures ReadLinks(PushLinks(links, tail)) == Got(links, tail)
  {
    hide PushLink, ReadLink, BoundedLink;
    forall l, tail | BoundedLink(l)
      ensures ReadLink(PushLink(l, tail)) == Got(l, tail)
    {
      ReadPushedLink(l, tail);
    }
    ReadPushedList(Big, MAX_AUTHORITY_LINKS, ReadLink, PushLink, BoundedLink, links, tail);
  }

  lemma ReadLinksConsumes(b: Bytes)
    ensures var r := ReadLinks(b); r.Got? ==> b == PushLinks(r.value, r.rest)
  {
    hide PushLink, ReadLink;
    forall b: Bytes
      ensures var r := ReadLink(b); r.Got? ==> b == PushLink(r.value, r.rest)
    {
      ReadLinkConsumes(b);
    }
    ReadListConsumes(Big, MAX_AUTHORITY_LINKS, ReadLink, PushLink, b);
  }

  function PushReconstruction(r: Reconstruction, tail: Bytes): Bytes
  {
    PushText(Big, r.registryId,
    PushU64(Big, r.evaluationTime,
    PushDigest(r.snapshotDigest,
    PushAuthentic(r.snapshotAuthenticity,
    PushCompleteness(r.completeness,
    PushText(Big, r.inferenceMethod,
    PushLinks(r.links,
    PushDigests(r.contradictions, tail))))))))
  }

  function ReadReconstruction(b: Bytes): Parsed<Reconstruction>
  {
    var (id, b) :- ReadText(Big, MAX_AUTHORITY_FIELD_BYTES, b);
    var (time, b) :- ReadU64(Big, b);
    var (snapshot, b) :- ReadDigest(b);
    var (authenticity, b) :- ReadAuthentic(b);
    var (completeness, b) :- ReadCompleteness(b);
    var (inference, b) :- ReadText(Big, MAX_AUTHORITY_FIELD_BYTES, b);
    var (links, b) :- ReadLinks(b);
    var (contradictions, b) :- ReadDigests(MAX_AUTHORITY_CONTRADICTIONS, b);
    Got(Reconstruction(id, time, snapshot, authenticity, completeness, inference, links, contradictions), b)
  }

  predicate BoundedReconstruction(r: Reconstruction)
  {
    && |r.registryId| <= MAX_AUTHORITY_FIELD_BYTES
    && |r.inferenceMethod| <= MAX_AUTHORITY_FIELD_BYTES
    && BoundedLinks(r.links)
    && |r.contradictions| <= MAX_AUTHORITY_CONTRADICTIONS
  }

  lemma ReadPushedReconstruction(r: Reconstruction, tail: Bytes)
    requires BoundedReconstruction(r)
    ensures ReadReconstruction(PushReconstruction(r, tail)) == Got(r, tail)
  {
    hide PushText, PushU64, PushDigest, PushAuthentic, PushCompleteness, PushLinks, PushDigests;
    hide ReadText, ReadU64, ReadDigest, ReadAuthentic, ReadCompleteness, ReadLinks, ReadDigests, BoundedLinks;
    ReadPushedLinks(r.links, PushDigests(r.contradictions, tail));
  }

  lemma ReadReconstructionConsumes(b: Bytes)
    ensures var r := ReadReconstruction(b); r.Got? ==> b == PushReconstruction(r.value, r.rest)
  {
    hide PushText, PushU64, PushDigest, PushByte, PushLinks, PushDigests;
    hide ReadText, ReadU64, ReadDigest, ReadByte, ReadLinks, ReadDigests;
    ReadsConsume();
    forall b: Bytes
      ensures var r := ReadLinks(b); r.Got? ==> b == PushLinks(r.value, r.rest)
    {
      ReadLinksConsumes(b);
    }
  }

  // ---- The codec ------------------------------------------------------------------------

  function ReconstructionBytes(r: Reconstruction): Bytes { PushReconstruction(r, []) }

  /** Parsing and validation, without the final comparison against a re-encoding. */
  function UnguardedReconstruction(b: Bytes): Option<Reconstruction>
  {
    var r := ReadReconstruction(b);
    if r.Got? && r.rest == [] && ValidReconstruction(r.value) then Some(r.value) else None
  }

  function ReconstructionFromBytes(b: Bytes): Option<Reconstruction>
  {
    var r := UnguardedReconstruction(b);
    if r.Some? && ReconstructionBytes(r.value) == b then r else None
  }

  lemma ReconstructionRoundTrip(r: Reconstruction)
    requires ValidReconstruction(r)
    ensures ReconstructionFromBytes(ReconstructionBytes(r)) == Some(r)
  {
    hide PushReconstruction, ReadReconstruction, AUTHORITY_REGISTRY_ID, SortedLinks, Utf8;
    assert forall i :: 0 <= i < |r.links| ==> ValidLink(r.links[i]);
    ReadPushedReconstruction(r, []);
  }

  /** The re-encoding test refuses nothing that parsed and validated. */
  lemma ReconstructionGuardNeverFires(b: Bytes)
    ensures ReconstructionFromBytes(b) == UnguardedReconstruction(b)
    ensures var r := ReconstructionFromBytes(b); r.Some? ==>
        ValidReconstruction(r.value) && ReconstructionBytes(r.value) == b
  {
    hide PushReconstruction, ReadReconstruction, ValidReconstruction;
    ReadReconstructionConsumes(b);
  }

  function ReconstructionId(h: Hashes, r: Reconstruction): Digest
  {
    h.Id(AuthorityDomain, ReconstructionBytes(r))
  }

  lemma ReconstructionIdCommits(h: Hashes, r: Reconstruction, s: Reconstruction)
    requires ValidReconstruction(r) && ValidReconstruction(s) && ReconstructionId(h, r) == ReconstructionId(h, s)
    ensures r == s || h.Collides(AuthorityDomain, ReconstructionBytes(r), ReconstructionBytes(s))
  {
    hide ReconstructionBytes, ReconstructionFromBytes, ValidReconstruction;
    ReconstructionRoundTrip(r);
    ReconstructionRoundTrip(s);
  }

  method DecodeReconstruction(bytes: Bytes) returns (r: Option<Reconstruction>)
    ensures r == ReconstructionFromBytes(bytes)
  {
    hide ReadReconstruction, ValidReconstruction, ReconstructionBytes, Utf8;
    var c := new Cursor(Big, bytes);
    var parsed := DecodeReconstructionFields(c);
    if parsed.None? || c.remaining != [] {
      return None;
    }
    var v := parsed.value;
    r := if ValidReconstruction(v) && ReconstructionBytes(v) == bytes then Some(v) else None;
  }

  method DecodeReconstructionFields(c: Cursor) returns (r: Option<Reconstruction>)
    requires c.order == Big
    modifies c`remaining
    ensures c.Follows(ReadReconstruction(old(c.remaining)), r)
  {
    hide ReadText, ReadU64, ReadDigest, ReadAuthentic, ReadCompleteness, ReadLinks, ReadDigests, Utf8;
    var id := c.Text(MAX_AUTHORITY_FIELD_BYTES); if id.None? { return None; }
    var time := c.U64(); if time.None? { return None; }
    var snapshot := c.Digest(); if snapshot.None? { return None; }
    var authenticity := DecodeAuthentic(c); if authenticity.None? { return None; }
    var completeness := DecodeCompleteness(c); if completeness.None? { return None; }
    var inference := c.Text(MAX_AUTHORITY_FIELD_BYTES); if inference.None? { return None; }
    var links := DecodeLinks(c); if links.None? { return None; }
    var contradictions := c.Digests(MAX_AUTHORITY_CONTRADICTIONS); if contradictions.None? { return None; }
    r := Some(Reconstruction(id.value, time.value, snapshot.value, authenticity.value, completeness.value,
                            inference.value, links.value, contradictions.value));
  }

  method DecodeLinks(c: Cursor) returns (r: Option<seq<Link>>)
    requires c.order == Big
    modifies c`remaining
    ensures c.Follows(ReadLinks(old(c.remaining)), r)
  {
    hide ReadU32, ReadLink;
    var n := c.U32();
    if n.None? || n.value > MAX_AUTHORITY_LINKS {
      return None;
    }
    var count := n.value;
    ghost var start := c.remaining;
    var links: seq<Link> := [];
    for i := 0 to count
      invariant ReadAll(ReadLink, i, start) == Got(links, c.remaining)
    {
      var l := DecodeLink(c);
      if l.None? {
        ReadAllFails(ReadLink, i + 1, count, start);
        return None;
      }
      links := links + [l.value];
    }
    r := Some(links);
  }

  method DecodeLink(c: Cursor) returns (r: Option<Link>)
    requires c.order == Big
    modifies c`remaining
    ensures c.Follows(ReadLink(old(c.remaining)), r)
  {
    hide ReadDigest, ReadOptionDigest, ReadBytes, ReadU64, ReadAuthentic;
    var mandateId := c.Digest(); if mandateId.None? { return None; }
    var parent := c.OptionDigest(); if parent.None? { return None; }
    var issuer := c.Bytes(MAX_AUTHORITY_FIELD_BYTES); if issuer.None? { return None; }
    var subject := c.Bytes(MAX_AUTHORITY_FIELD_BYTES); if subject.None? { return None; }
    var domain := c.Bytes(MAX_AUTHORITY_FIELD_BYTES); if domain.None? { return None; }
    var from := c.U64(); if from.None? { return None; }
    var until := c.U64(); if until.None? { return None; }
    var scope := c.Digest(); if scope.None? { return None; }
    var authenticity := DecodeAuthentic(c); if authenticity.None? { return None; }
    r := Some(Link(mandateId.value, parent.value, issuer.value, subject.value, domain.value, from.value, until.value,
                   scope.value, authenticity.value));
  }

  method DecodeAuthentic(c: Cursor) returns (r: Option<Authentic>)
    modifies c`remaining
    ensures c.Follows(ReadAuthentic(old(c.remaining)), r)
  {
    var tag := c.Byte();
    if tag.None? || tag.value > 2 {
      return None;
    }
    r := Some(if tag.value == 0 then Verified else if tag.value == 1 then Rejected else Unknown);
  }

  method DecodeCompleteness(c: Cursor) returns (r: Option<Completeness>)
    modifies c`remaining
    ensures c.Follows(ReadCompleteness(old(c.remaining)), r)
  {
    var tag := c.Byte();
    if tag.None? || tag.value > 2 {
      return None;
    }
    r := Some(if tag.value == 0 then Complete else if tag.value == 1 then Incomplete else Withheld);
  }
}
