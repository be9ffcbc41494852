/**
  Selectively disclosed dispute bundles (csv-accountability/src/bundle.rs). Bundles are
  encoded and identified but never decoded; integers are big-endian.
 */
module Bundle {
  import opened Bytes
  import opened Text
  import opened Wire
  import opened Hashing
  import opened Writers
  import opened Mandate

  const MAX_BUNDLE_OBJECTS: nat := 2048
  const MAX_BUNDLE_OBJECT_BYTES: nat := 16 * 1024 * 1024
  const MAX_BUNDLE_TOTAL_BYTES: nat := 64 * 1024 * 1024
  const MAX_BUNDLE_TEXT_BYTES: nat := 1024
  const MAX_BUNDLE_SIGNATURE_BYTES: nat := 8192

  datatype DisclosedObject = DisclosedObject(registryId: Text, mediaType: Text, contentDigest: Digest, bytes: Bytes)

  datatype WithheldObject = WithheldObject(registryId: Text, contentDigest: Digest, reasonCode: Text)

  datatype DisputeBundle = DisputeBundle(
    protocolMajor: U16,
    protocolMinor: U16,
    bundleVersion: ObjectVersion,
    caseId: Option<Text>,
    subjectIntentId: Digest,
    disclosed: seq<DisclosedObject>,
    withheld: seq<WithheldObject>,
    recommendedContext: Option<Digest>,
    producerIdentity: Bytes,
    producerSignature: Bytes)

  datatype BundleError =
    | UnsupportedVersion | InvalidField | DigestMismatch | InvalidObjectTable | MissingObject | BoundsExceeded

  // ---- Object tables ------------------------------------------------------------------

  /** What a table is sorted by. */
  datatype Key = Key(registryId: Text, digest: Digest)

  predicate Before(a: Key, b: Key)
  {
    Less(a.registryId, b.registryId) || (a.registryId == b.registryId && Less(a.digest, b.digest))
  }

  predicate SortedKeys(keys: seq<Key>)
  {
    forall i :: 0 < i < |keys| ==> Before(keys[i - 1], keys[i])
  }

  function DisclosedKeys(objects: seq<DisclosedObject>): (keys: seq<Key>)
  {
    seq(|objects|, i requires 0 <= i < |objects| => Key(objects[i].registryId, objects[i].contentDigest))
  }

  function WithheldKeys(objects: seq<WithheldObject>): (keys: seq<Key>)
  {
    seq(|objects|, i requires 0 <= i < |objects| => Key(objects[i].registryId, objects[i].contentDigest))
  }

  lemma BeforeTransitive(a: Key, b: Key, c: Key)
    requires Before(a, b) && Before(b, c)
    ensures Before(a, c)
  {
    if Less(a.registryId, b.registryId) && Less(b.registryId, c.registryId) {
      LessTransitive(a.registryId, b.registryId, c.registryId);
    }
    if Less(a.digest, b.digest) && Less(b.digest, c.digest) {
      LessTransitive(a.digest, b.digest, c.digest);
    }
  }

  lemma {:induction false} SortedKeysDiffer(keys: seq<Key>, i: nat, j: nat)
    requires SortedKeys(keys) && i < j < |keys|
    ensures Before(keys[i], keys[j]) && keys[i] != keys[j]
    decreases j
  {
    if i < j - 1 {
      SortedKeysDiffer(keys, i, j - 1);
      BeforeTransitive(keys[i], keys[j - 1], keys[j]);
    }
    LessIrreflexive(keys[i].registryId);
    LessIrreflexive(keys[i].digest);
  }

  // ---- Validation ---------------------------------------------------------------------

  function TotalBytes(objects: seq<DisclosedObject>): nat
  {
    if objects == [] then 0 else TotalBytes(objects[..|objects| - 1]) + |objects[|objects| - 1].bytes|
  }

  lemma {:induction false} TotalGrows(objects: seq<DisclosedObject>, k: nat)
    requires k <= |objects|
    ensures TotalBytes(objects[..k]) <= TotalBytes(objects)
    decreases |objects|
  {
    if k < |objects| {
      TotalGrows(objects[..|objects| - 1], k);
      assert objects[..|objects| - 1][..k] == objects[..k];
    } else {
      assert objects[..k] == objects;
    }
  }

  predicate Label(s: Text) { Printable(s, MAX_BUNDLE_TEXT_BYTES) }

  predicate ValidDisclosed(h: Hashes, o: DisclosedObject)
  {
    && Label(o.registryId) && Label(o.mediaType)
    && 0 < |o.bytes| <= MAX_BUNDLE_OBJECT_BYTES
    && h.sha256(o.bytes) == o.contentDigest
  }

  predicate ValidWithheld(o: WithheldObject)
  {
    Label(o.registryId) && Label(o.reasonCode) && o.contentDigest != ZERO
  }

  predicate Disjoint(disclosed: seq<DisclosedObject>, withheld: seq<WithheldObject>)
  {
    forall i, j :: 0 <= i < |disclosed| && 0 <= j < |withheld| ==>
        disclosed[i].contentDigest != withheld[j].contentDigest
  }

  predicate ValidMetadata(b: DisputeBundle)
  {
    && (b.caseId.Some? ==> Label(b.caseId.value))
    && 0 < |b.producerIdentity| <= MAX_BUNDLE_TEXT_BYTES
    && 0 < |b.producerSignature| <= MAX_BUNDLE_SIGNATURE_BYTES
  }

  predicate Supported(b: DisputeBundle)
  {
    b.protocolMajor == PROTOCOL_MAJOR && b.protocolMinor == PROTOCOL_MINOR && b.bundleVersion == OBJECT_VERSION
  }

  predicate ValidBundle(h: Hashes, b: DisputeBundle)
  {
    && Supported(b) && ValidMetadata(b)
    && |b.disclosed| + |b.withheld| <= MAX_BUNDLE_OBJECTS
    && (forall i :: 0 <= i < |b.disclosed| ==> ValidDisclosed(h, b.disclosed[i]))
    && TotalBytes(b.disclosed) <= MAX_BUNDLE_TOTAL_BYTES
    && (forall i :: 0 <= i < |b.withheld| ==> ValidWithheld(b.withheld[i]))
    && SortedKeys(DisclosedKeys(b.disclosed)) && SortedKeys(WithheldKeys(b.withheld))
    && Disjoint(b.disclosed, b.withheld)
  }

  /** What is wrong with a disclosed object in its place, if anything; the total counts the objects up to it. */
  function DisclosedFault(h: Hashes, objects: seq<DisclosedObject>, i: nat): Option<BundleError>
    requires i < |objects|
  {
    var o := objects[i];
    if !Label(o.registryId) || !Label(o.mediaType) then Some(InvalidField)
    else if |o.bytes| == 0 || |o.bytes| > MAX_BUNDLE_OBJECT_BYTES then Some(BoundsExceeded)
    else if TotalBytes(objects[..i + 1]) > MAX_BUNDLE_TOTAL_BYTES then Some(BoundsExceeded)
    else if h.sha256(o.bytes) != o.contentDigest then Some(DigestMismatch)
    else None
  }

  /** The first disclosed object with a fault has this one. */
  predicate FirstDisclosedFault(h: Hashes, objects: seq<DisclosedObject>, error: BundleError)
  {
    exists i :: 0 <= i < |objects| && FaultFirstAt(h, objects, i, error)
  }

  predicate FaultFirstAt(h: Hashes, objects: seq<DisclosedObject>, i: nat, error: BundleError)
    requires i < |objects|
  {
    DisclosedFault(h, objects, i) == Some(error) && forall j :: 0 <= j < i ==> DisclosedFault(h, objects, j).None?
  }

  lemma OneFirstFault(h: Hashes, objects: seq<DisclosedObject>, i: nat, error: BundleError)
    requires i < |objects| && FaultFirstAt(h, objects, i, error)
    ensures forall e :: FirstDisclosedFault(h, objects, e) <==> e == error
  {
    hide DisclosedFault;
    forall k, e | 0 <= k < |objects| && FaultFirstAt(h, objects, k, e) ensures k == i {}
  }

  lemma NoFirstFault(h: Hashes, objects: seq<DisclosedObject>)
    requires forall j :: 0 <= j < |objects| ==> DisclosedFault(h, objects, j).None?
    ensures forall e :: !FirstDisclosedFault(h, objects, e)
  {
    hide DisclosedFault;
  }

  predicate WellDisclosed(h: Hashes, objects: seq<DisclosedObject>)
  {
    && (forall i :: 0 <= i < |objects| ==> ValidDisclosed(h, objects[i]))
    && TotalBytes(objects) <= MAX_BUNDLE_TOTAL_BYTES
  }

  predicate WellTabled(b: DisputeBundle)
  {
    && SortedKeys(DisclosedKeys(b.disclosed)) && SortedKeys(WithheldKeys(b.withheld))
    && Disjoint(b.disclosed, b.withheld)
  }

  /** The aggregate limit is checked after each object, with an early refusal. */
  method ValidateBundle(h: Hashes, b: DisputeBundle) returns (r: Result<(), BundleError>)
    ensures r.Ok? <==> ValidBundle(h, b)
    ensures r == Err(UnsupportedVersion) <==> !Supported(b)
    ensures r != Err(MissingObject)
    ensures var sized := Supported(b) && ValidMetadata(b) && |b.disclosed| + |b.withheld| <= MAX_BUNDLE_OBJECTS;
            var withheld := forall i :: 0 <= i < |b.withheld| ==> ValidWithheld(b.withheld[i]);
            && (r == Err(InvalidField) <==>
                || (Supported(b) && !ValidMetadata(b))
                || (sized && FirstDisclosedFault(h, b.disclosed, InvalidField))
                || (sized && WellDisclosed(h, b.disclosed) && !withheld))
            && (r == Err(BoundsExceeded) <==>
                || (Supported(b) && ValidMetadata(b) && !sized)
                || (sized && FirstDisclosedFault(h, b.disclosed, BoundsExceeded)))
            && (r == Err(DigestMismatch) <==> sized && FirstDisclosedFault(h, b.disclosed, DigestMismatch))
            && (r == Err(InvalidObjectTable) <==> sized && WellDisclosed(h, b.disclosed) && withheld && !WellTabled(b))
  {
    hide Label, SortedKeys, Disjoint, Supported, FirstDisclosedFault, TotalBytes;
    if !Supported(b) {
      return Err(UnsupportedVersion);
    }
    if !ValidMetadata(b) {
      return Err(InvalidField);
    }
    if |b.disclosed| + |b.withheld| > MAX_BUNDLE_OBJECTS {
      return Err(BoundsExceeded);
    }
    r := ValidateDisclosed(h, b.disclosed);
    if r.Err? {
      return;
    }
    for i := 0 to |b.withheld|
      invariant forall j :: 0 <= j < i ==> ValidWithheld(b.withheld[j])
    {
      var o := b.withheld[i];
      if !Label(o.registryId) || !Label(o.reasonCode) || o.contentDigest == ZERO {
        return Err(InvalidField);
      }
    }
    if !SortedKeys(DisclosedKeys(b.disclosed)) || !SortedKeys(WithheldKeys(b.withheld)) ||
        !Disjoint(b.disclosed, b.withheld) {
      return Err(InvalidObjectTable);
    }
  }

  lemma NothingTotals(objects: seq<DisclosedObject>)
    ensures TotalBytes(objects[..0]) == 0
  {
  }

  lemma OneMoreTotals(objects: seq<DisclosedObject>, i: nat)
    requires i < |objects|
    ensures TotalBytes(objects[..i + 1]) == TotalBytes(objects[..i]) + |objects[i].bytes|
  {
    assert objects[..i + 1][..i] == objects[..i];
  }

  method ValidateDisclosed(h: Hashes, objects: seq<DisclosedObject>) returns (r: Result<(), BundleError>)
    ensures r.Ok? <==>
      && (forall i :: 0 <= i < |objects| ==> ValidDisclosed(h, objects[i]))
      && TotalBytes(objects) <= MAX_BUNDLE_TOTAL_BYTES
    ensures r.Err? ==> r.error in {InvalidField, BoundsExceeded, DigestMismatch}
    ensures forall e :: r == Err(e) <==> FirstDisclosedFault(h, objects, e)
  {
    hide Label, TotalBytes, FirstDisclosedFault, Utf8;
    var total := 0;
    NothingTotals(objects);
    for i := 0 to |objects|
      invariant forall j :: 0 <= j < i ==> ValidDisclosed(h, objects[j])
      invariant forall j :: 0 <= j < i ==> DisclosedFault(h, objects, j).None?
      invariant total == TotalBytes(objects[..i]) <= MAX_BUNDLE_TOTAL_BYTES
    {
      var o := objects[i];
      OneMoreTotals(objects, i);
      TotalGrows(objects, i + 1);
      if !Label(o.registryId) || !Label(o.mediaType) {
        OneFirstFault(h, objects, i, InvalidField);
        return Err(InvalidField);
      }
      if o.bytes == [] || |o.bytes| > MAX_BUNDLE_OBJECT_BYTES {
        OneFirstFault(h, objects, i, BoundsExceeded);
        return Err(BoundsExceeded);
      }
      total := total + |o.bytes|;
      if total > MAX_BUNDLE_TOTAL_BYTES {
        OneFirstFault(h, objects, i, BoundsExceeded);
        return Err(BoundsExceeded);
      }
      if h.sha256(o.bytes) != o.contentDigest {
        OneFirstFault(h, objects, i, DigestMismatch);
        return Err(DigestMismatch);
      }
    }
    assert objects[..|objects|] == objects;
    NoFirstFault(h, objects);
    return Ok(());
  }

  // ---- Disclosure ---------------------------------------------------------------------

  predicate Discloses(b: DisputeBundle, registryId: Text, digest: Digest, bytes: Bytes)
  {
    exists i :: 0 <= i < |b.disclosed|
      && b.disclosed[i].registryId == registryId
      && b.disclosed[i].contentDigest == digest
      && b.disclosed[i].bytes == bytes
  }

  method RequireDisclosed(h: Hashes, b: DisputeBundle, registryId: Text, digest: Digest)
      returns (r: Result<Bytes, BundleError>)
    ensures r.Ok? ==> ValidBundle(h, b) && Discloses(b, registryId, digest, r.value)
    ensures r == Err(MissingObject) <==> ValidBundle(h, b) && forall bytes :: !Discloses(b, registryId, digest, bytes)
  {
    hide ValidBundle;
    var v := ValidateBundle(h, b);
    if v.Err? {
      return Err(v.error);
    }
    for i := 0 to |b.disclosed|
      invariant forall j :: 0 <= j < i ==>
          b.disclosed[j].registryId != registryId || b.disclosed[j].contentDigest != digest
    {
      if b.disclosed[i].registryId == registryId && b.disclosed[i].contentDigest == digest {
        return Ok(b.disclosed[i].bytes);
      }
    }
    return Err(MissingObject);
  }

  /**
    What a valid bundle discloses under a digest is the only entry with that key, hashes
    to that digest, and is not also listed as withheld.
   */
  lemma DisclosureIsUnambiguous(h: Hashes, b: DisputeBundle, i: nat)
    requires ValidBundle(h, b) && i < |b.disclosed|
    ensures h.sha256(b.disclosed[i].bytes) == b.disclosed[i].contentDigest
    ensures forall bytes :: Discloses(b, b.disclosed[i].registryId, b.disclosed[i].contentDigest, bytes) ==>
        bytes == b.disclosed[i].bytes
    ensures forall j :: 0 <= j < |b.withheld| ==> b.withheld[j].contentDigest != b.disclosed[i].contentDigest
  {
    hide Label, SortedKeys, Supported, ValidMetadata;
    var keys := DisclosedKeys(b.disclosed);
    forall j | 0 <= j < |b.disclosed| && j != i
      ensures b.disclosed[i].registryId != b.disclosed[j].registryId ||
          b.disclosed[i].contentDigest != b.disclosed[j].contentDigest
    {
      if i < j { SortedKeysDiffer(keys, i, j); } else { SortedKeysDiffer(keys, j, i); }
    }
    assert ValidDisclosed(h, b.disclosed[i]);
  }

  /** Two bundles cannot disclose different bytes under one digest without a SHA-256 collision. */
  lemma DisclosuresAgree(h: Hashes, b: DisputeBundle, c: DisputeBundle, digest: Digest, p: Text, x: Bytes, q: Text,
      y: Bytes)
    requires ValidBundle(h, b) && ValidBundle(h, c)
    requires Discloses(b, p, digest, x) && Discloses(c, q, digest, y)
    ensures x == y || h.Sha256Collides(x, y)
  {
    hide Label, SortedKeys, Supported, ValidMetadata, Disjoint;
    var i :| 0 <= i < |b.disclosed| && b.disclosed[i].contentDigest == digest && b.disclosed[i].bytes == x;
    var j :| 0 <= j < |c.disclosed| && c.disclosed[j].contentDigest == digest && c.disclosed[j].bytes == y;
    assert ValidDisclosed(h, b.disclosed[i]) && ValidDisclosed(h, c.disclosed[j]);
  }

  // ---- Canonical bytes and identity ------------------------------------------------------

  function PushOptionText(v: Option<Text>, tail: Bytes): (b: Bytes)
    ensures (v.Some? ==> |v.value| <= NO_LIMIT) ==> ReadOptionText(b) == Got(v, tail)
  {
    match v
    case Some(t) => PushByte(1, PushText(Big, t, tail))
    case None => PushByte(0, tail)
  }

  /** The inverse of `PushOptionText`; like the readers below, used only in proofs. */
  function ReadOptionText(b: Bytes): Parsed<Option<Text>>
  {
    var (tag, b) :- ReadByte(b);
    match tag
    case 0 => Got(None, b)
    case 1 => var (t, b) :- ReadText(Big, NO_LIMIT, b); Got(Some(t), b)
    case _ => Fail
  }

  predicate BoundedDisclosed(o: DisclosedObject)
  {
    |o.registryId| <= NO_LIMIT && |o.mediaType| <= NO_LIMIT && |o.bytes| <= NO_LIMIT
  }

  function PushDisclosed(o: DisclosedObject, tail: Bytes): (b: Bytes)
    ensures BoundedDisclosed(o) ==> ReadDisclosed(b) == Got(o, tail)
  {
    PushText(Big, o.registryId, PushText(Big, o.mediaType, PushDigest(o.contentDigest, PushBytes(Big, o.bytes, tail))))
  }

  function ReadDisclosed(b: Bytes): Parsed<DisclosedObject>
  {
    var (id, b) :- ReadText(Big, NO_LIMIT, b);
    var (mediaType, b) :- ReadText(Big, NO_LIMIT, b);
    var (digest, b) :- ReadDigest(b);
    var (bytes, b) :- ReadBytes(Big, NO_LIMIT, b);
    Got(DisclosedObject(id, mediaType, digest, bytes), b)
  }

  predicate BoundedWithheld(o: WithheldObject)
  {
    |o.registryId| <= NO_LIMIT && |o.reasonCode| <= NO_LIMIT
  }

  function PushWithheld(o: WithheldObject, tail: Bytes): (b: Bytes)
    ensures BoundedWithheld(o) ==> ReadWithheld(b) == Got(o, tail)
  {
    PushText(Big, o.registryId, PushDigest(o.contentDigest, PushText(Big, o.reasonCode, tail)))
  }

  function ReadWithheld(b: Bytes): Parsed<WithheldObject>
  {
    var (id, b) :- ReadText(Big, NO_LIMIT, b);
    var (digest, b) :- ReadDigest(b);
    var (reason, b) :- ReadText(Big, NO_LIMIT, b);
    Got(WithheldObject(id, digest, reason), b)
  }

  predicate BoundedTables(b: DisputeBundle)
  {
    && |b.disclosed| <= NO_LIMIT && |b.withheld| <= NO_LIMIT
    && (forall i :: 0 <= i < |b.disclosed| ==> BoundedDisclosed(b.disclosed[i]))
    && (forall i :: 0 <= i < |b.withheld| ==> BoundedWithheld(b.withheld[i]))
  }

  function PushTables(b: DisputeBundle, tail: Bytes): (s: Bytes)
    ensures BoundedTables(b) ==> ReadTables(s) == Got((b.disclosed, b.withheld), tail)
  {
    var t := PushList(Big, PushWithheld, b.withheld, tail);
    var s := PushList(Big, PushDisclosed, b.disclosed, t);
    assert BoundedTables(b) ==> ReadTables(s) == Got((b.disclosed, b.withheld), tail) by {
      if BoundedTables(b) {
        ReadPushedList(Big, NO_LIMIT, ReadWithheld, PushWithheld, BoundedWithheld, b.withheld, tail);
        ReadPushedList(Big, NO_LIMIT, ReadDisclosed, PushDisclosed, BoundedDisclosed, b.disclosed, t);
      }
    }
    s
  }

  function ReadTables(b: Bytes): Parsed<(seq<DisclosedObject>, seq<WithheldObject>)>
  {
    var (disclosed, b) :- ReadList(Big, NO_LIMIT, ReadDisclosed, b);
    var (withheld, b) :- ReadList(Big, NO_LIMIT, ReadWithheld, b);
    Got((disclosed, withheld), b)
  }

  function BundleBytes(b: DisputeBundle): Bytes
  {
    PushU16(Big, b.protocolMajor,
    PushU16(Big, b.protocolMinor,
    PushU16(Big, b.bundleVersion,
    PushOptionText(b.caseId,
    PushDigest(b.subjectIntentId,
    PushTables(b,
    PushOptionDigest(b.recommendedContext,
    PushBytes(Big, b.producerIdentity,
    PushBytes(Big, b.producerSignature, [])))))))))
  }

  method EncodeBundle(h: Hashes, b: DisputeBundle) returns (r: Result<Bytes, BundleError>)
    ensures r.Ok? <==> ValidBundle(h, b)
    ensures r.Ok? ==> r.value == BundleBytes(b)
  {
    hide PushU16, PushOptionText, PushDigest, PushTables, PushOptionDigest, PushBytes, ValidBundle;
    hide ReadU16, ReadOptionText, ReadDigest, ReadTables, ReadOptionDigest, ReadBytes, BoundedTables;
    var v := ValidateBundle(h, b);
    if v.Err? {
      return Err(v.error);
    }
    ValidBundleIsBounded(h, b);
    var w := new Writer(Big, BundleBytes(b));
    w.U16(b.protocolMajor);
    w.U16(b.protocolMinor);
    w.U16(b.bundleVersion);
    EncodeOptionText(w, b.caseId);
    w.Digest(b.subjectIntentId);
    EncodeTables(w, b);
    w.OptionDigest(b.recommendedContext);
    w.Bytes(b.producerIdentity);
    w.Bytes(b.producerSignature);
    var bytes := w.Finish();
    return Ok(bytes);
  }

  method EncodeOptionText(w: Writer, v: Option<Text>)
    requires w.order == Big && w.Valid() && (v.Some? ==> |v.value| <= NO_LIMIT) && Next(ReadOptionText(w.rest), v)
    modifies w`out, w`rest
    ensures w.Valid() && w.rest == ReadOptionText(old(w.rest)).rest
  {
    match v {
      case Some(t) =>
        w.Byte(1);
        w.Text(t);
      case None =>
        w.Byte(0);
    }
  }

  method EncodeTables(w: Writer, b: DisputeBundle)
    requires w.order == Big && w.Valid() && BoundedTables(b) && Next(ReadTables(w.rest), (b.disclosed, b.withheld))
    modifies w`out, w`rest
    ensures w.Valid() && w.rest == ReadTables(old(w.rest)).rest
  {
    hide ReadU32, ReadAll, ReadDisclosed, ReadWithheld, BoundedDisclosed, BoundedWithheld, Utf8;
    w.U32(LengthPrefix(|b.disclosed|));
    EncodeAllDisclosed(w, b.disclosed);
    w.U32(LengthPrefix(|b.withheld|));
    EncodeAllWithheld(w, b.withheld);
  }

  method EncodeAllDisclosed(w: Writer, objects: seq<DisclosedObject>)
    requires w.order == Big && w.Valid() && Next(ReadAll(ReadDisclosed, |objects|, w.rest), objects)
    requires forall i :: 0 <= i < |objects| ==> BoundedDisclosed(objects[i])
    modifies w`out, w`rest
    ensures w.Valid() && w.rest == ReadAll(ReadDisclosed, |objects|, old(w.rest)).rest
  {
    hide ReadDisclosed, BoundedDisclosed, Utf8;
    ghost var start := w.rest;
    for i := 0 to |objects|
      invariant w.Valid()
      invariant ReadAll(ReadDisclosed, i, start) == Got(objects[..i], w.rest)
    {
      ReadAllStep(ReadDisclosed, i, objects, start);
      EncodeDisclosed(w, objects[i]);
    }
  }

  method EncodeAllWithheld(w: Writer, objects: seq<WithheldObject>)
    requires w.order == Big && w.Valid() && Next(ReadAll(ReadWithheld, |objects|, w.rest), objects)
    requires forall i :: 0 <= i < |objects| ==> BoundedWithheld(objects[i])
    modifies w`out, w`rest
    ensures w.Valid() && w.rest == ReadAll(ReadWithheld, |objects|, old(w.rest)).rest
  {
    hide ReadWithheld, BoundedWithheld, Utf8;
    ghost var start := w.rest;
    for i := 0 to |objects|
      invariant w.Valid()
      invariant ReadAll(ReadWithheld, i, start) == Got(objects[..i], w.rest)
    {
      ReadAllStep(ReadWithheld, i, objects, start);
      EncodeWithheld(w, objects[i]);
    }
  }

  method EncodeDisclosed(w: Writer, o: DisclosedObject)
    requires w.order == Big && w.Valid() && BoundedDisclosed(o) && Next(ReadDisclosed(w.rest), o)
    modifies w`out, w`rest
    ensures w.Valid() && w.rest == ReadDisclosed(old(w.rest)).rest
  {
    hide ReadText, ReadDigest, ReadBytes, Utf8;
    w.Text(o.registryId);
    w.Text(o.mediaType);
    w.Digest(o.contentDigest);
    w.Bytes(o.bytes);
  }

  method EncodeWithheld(w: Writer, o: WithheldObject)
    requires w.order == Big && w.Valid() && BoundedWithheld(o) && Next(ReadWithheld(w.rest), o)
    modifies w`out, w`rest
    ensures w.Valid() && w.rest == ReadWithheld(old(w.rest)).rest
  {
    hide ReadText, ReadDigest, Utf8;
    w.Text(o.registryId);
    w.Digest(o.contentDigest);
    w.Text(o.reasonCode);
  }

  lemma BundleBytesInjective(h: Hashes, b: DisputeBundle, c: DisputeBundle)
    requires ValidBundle(h, b) && ValidBundle(h, c) && BundleBytes(b) == BundleBytes(c)
    ensures b == c
  {
    hide PushU16, PushOptionText, PushDigest, PushTables, PushOptionDigest, PushBytes, ValidBundle;
    hide ReadU16, ReadOptionText, ReadDigest, ReadTables, ReadOptionDigest, ReadBytes, BoundedTables;
    ValidBundleIsBounded(h, b);
    ValidBundleIsBounded(h, c);
  }

  lemma ValidBundleIsBounded(h: Hashes, b: DisputeBundle)
    requires ValidBundle(h, b)
    ensures BoundedTables(b)
    ensures b.caseId.Some? ==> |b.caseId.value| <= NO_LIMIT
    ensures |b.producerIdentity| <= NO_LIMIT && |b.producerSignature| <= NO_LIMIT
  {
    hide SortedKeys, Supported, Disjoint, Utf8, Trimmed, HasControl;
    assert forall i :: 0 <= i < |b.disclosed| ==> ValidDisclosed(h, b.disclosed[i]);
    assert forall i :: 0 <= i < |b.withheld| ==> ValidWithheld(b.withheld[i]);
  }

  function BundleId(h: Hashes, b: DisputeBundle): Digest
  {
    h.Id(BundleDomain, BundleBytes(b))
  }

  lemma BundleIdCommits(h: Hashes, b: DisputeBundle, c: DisputeBundle)
    requires ValidBundle(h, b) && ValidBundle(h, c) && BundleId(h, b) == BundleId(h, c)
    ensures b == c || h.Collides(BundleDomain, BundleBytes(b), BundleBytes(c))
  {
    hide BundleBytes, ValidBundle;
    if BundleBytes(b) == BundleBytes(c) { BundleBytesInjective(h, b, c); }
  }
}
