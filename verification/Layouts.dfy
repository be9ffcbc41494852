/**
  Where every field of a mandate, an attempt and a receipt lies in its canonical bytes, how
  wide it is, and which byte stands for which case (csv-accountability/src/mandate.rs,
  csv-accountability/src/execution.rs, csv-accountability/src/receipt.rs). Numbers are given
  here digit by digit and lists item by item, not by the pushes the encoders are made of.
 */
module Layouts {
  import opened Bytes
  import opened Text
  import opened Wire
  import opened Mandate
  import opened MandateState
  import opened Execution
  import opened Receipt

  // ---- Fields ---------------------------------------------------------------------------

  /** The digit of `n` to the base 256 that counts for 256 to the `k`. */
  function Digit(n: nat, k: nat): Byte { n / Pow256(k) % 0x100 }

  function Number(order: Endian, width: nat, n: nat): (s: Bytes)
    ensures |s| == width
  {
    seq(width, k requires 0 <= k < width => Digit(n, if order == Big then width - 1 - k else k))
  }

  function Counted(order: Endian, v: Bytes): Bytes { Number(order, 4, |v|) + v }

  function Optional(v: Option<Bytes>): Bytes
  {
    match v
    case None => [0]
    case Some(b) => [1] + b
  }

  function OptionalTime(v: Option<U64>): Bytes
  {
    match v
    case None => [0]
    case Some(n) => [1] + Number(Big, 8, n)
  }

  function Items<T>(item: T -> Bytes, vs: seq<T>): Bytes
  {
    if vs == [] then [] else Items(item, vs[..|vs| - 1]) + item(vs[|vs| - 1])
  }

  function Listed<T>(order: Endian, item: T -> Bytes, vs: seq<T>): Bytes
  {
    Number(order, 4, |vs|) + Items(item, vs)
  }

  /** `field` lies in `b` from an offset on. */
  predicate Holds(b: Bytes, offset: nat, field: Bytes)
  {
    offset + |field| <= |b| && b[offset..offset + |field|] == field
  }

  // ---- Numbers digit by digit -------------------------------------------------------------

  lemma DivideTwice(n: nat, p: nat)
    requires p > 0
    ensures n / 0x100 / p == n / (0x100 * p)
  {
    var q, r := n / 0x100, n % 0x100;
    var s, t := q / p, q % p;
    var rest := 0x100 * t + r;
    assert q == p * s + t;
    assert 0x100 * (p * s) == (0x100 * p) * s;
    assert n == (0x100 * p) * s + rest;
    assert t <= p - 1;
    assert 0 <= rest < 0x100 * p;
    QuotientIs(n, 0x100 * p, s, rest);
  }

  lemma QuotientIs(n: nat, d: nat, q: nat, r: nat)
    requires n == d * q + r && r < d
    ensures n / d == q
  {
    var k := n / d;
    assert n == d * k + n % d;
    assert k < q ==> d * (k + 1) <= d * q;
    assert k > q ==> d * (q + 1) <= d * k;
  }

  lemma LowDigit(n: nat)
    ensures Digit(n, 0) == n % 0x100
  {
  }

  lemma HighDigits(n: nat, k: nat)
    ensures Digit(n, k + 1) == Digit(n / 0x100, k)
  {
    DivideTwice(n, Pow256(k));
  }

  lemma {:induction false} DigitsOf(order: Endian, width: nat, n: nat)
    requires n < Pow256(width)
    ensures IntBytes(order, width, n) == Number(order, width, n)
  {
    hide Digit;
    if width > 0 {
      DigitsOf(order, width - 1, n / 0x100);
      LowDigit(n);
      OneMoreDigit(order, width, n);
    }
  }

  lemma OneMoreDigit(order: Endian, width: nat, n: nat)
    requires width > 0
    ensures Number(order, width, n) ==
              match order
              case Big => Number(order, width - 1, n / 0x100) + [Digit(n, 0)]
              case Little => [Digit(n, 0)] + Number(order, width - 1, n / 0x100)
  {
    hide Digit;
    forall k: nat | k < width - 1 ensures Digit(n, k + 1) == Digit(n / 0x100, k) {
      HighDigits(n, k);
    }
  }

  // ---- From one field to the next -----------------------------------------------------------

  lemma Step(b: Bytes, at: nat, field: Bytes, tail: Bytes)
    requires at <= |b| && b[at..] == field + tail
    ensures Holds(b, at, field) && at + |field| <= |b| && b[at + |field|..] == tail
  {
    var rest := b[at..];
    assert rest[..|field|] == field && rest[|field|..] == tail;
    assert b[at..at + |field|] == rest[..|field|] && b[at + |field|..] == rest[|field|..];
  }

  lemma StepU16(b: Bytes, at: nat, order: Endian, v: U16, tail: Bytes)
    requires at <= |b| && b[at..] == PushU16(order, v, tail)
    ensures Holds(b, at, Number(order, 2, v)) && at + 2 <= |b| && b[at + 2..] == tail
  {
    hide IntBytes, IntOf, Number, Holds;
    Pow256Values();
    DigitsOf(order, 2, v);
    Step(b, at, Number(order, 2, v), tail);
  }

  lemma StepU32(b: Bytes, at: nat, order: Endian, v: U32, tail: Bytes)
    requires at <= |b| && b[at..] == PushU32(order, v, tail)
    ensures Holds(b, at, Number(order, 4, v)) && at + 4 <= |b| && b[at + 4..] == tail
  {
    hide IntBytes, IntOf, Number, Holds;
    Pow256Values();
    DigitsOf(order, 4, v);
    Step(b, at, Number(order, 4, v), tail);
  }

  lemma StepU64(b: Bytes, at: nat, order: Endian, v: U64, tail: Bytes)
    requires at <= |b| && b[at..] == PushU64(order, v, tail)
    ensures Holds(b, at, Number(order, 8, v)) && at + 8 <= |b| && b[at + 8..] == tail
  {
    hide IntBytes, IntOf, Number, Holds;
    Pow256Values();
    DigitsOf(order, 8, v);
    Step(b, at, Number(order, 8, v), tail);
  }

  /** A counted field is its count and then its bytes. */
  lemma BytesAreCounted(order: Endian, v: Bytes, tail: Bytes)
    requires |v| <= NO_LIMIT
    ensures PushBytes(order, v, tail) == Counted(order, v) + tail
  {
    hide IntBytes, IntOf, Number;
    Pow256Values();
    DigitsOf(order, 4, |v|);
    assert Number(order, 4, |v|) + (v + tail) == Number(order, 4, |v|) + v + tail;
  }

  lemma StepBytes(b: Bytes, at: nat, order: Endian, v: Bytes, tail: Bytes)
    requires |v| <= NO_LIMIT && at <= |b| && b[at..] == PushBytes(order, v, tail)
    ensures Holds(b, at, Counted(order, v)) && at + 4 + |v| <= |b| && b[at + 4 + |v|..] == tail
  {
    hide PushBytes, Number, Holds;
    BytesAreCounted(order, v, tail);
    Step(b, at, Counted(order, v), tail);
  }

  lemma StepOption(b: Bytes, at: nat, v: Option<Digest>, tail: Bytes)
    requires at <= |b| && b[at..] == PushOptionDigest(v, tail)
    ensures Holds(b, at, Optional(v)) && at + |Optional(v)| <= |b| && b[at + |Optional(v)|..] == tail
  {
    hide Holds;
    assert v.Some? ==> [1] + (v.value + tail) == [1] + v.value + tail;
    Step(b, at, Optional(v), tail);
  }

  lemma StepOptionTime(b: Bytes, at: nat, v: Option<U64>, tail: Bytes)
    requires at <= |b| && b[at..] == PushOptionU64(v, tail)
    ensures Holds(b, at, OptionalTime(v)) && at + |OptionalTime(v)| <= |b| && b[at + |OptionalTime(v)|..] == tail
  {
    hide Holds, IntBytes, IntOf, Number;
    if v.Some? {
      Pow256Values();
      DigitsOf(Big, 8, v.value);
      assert [1] + (Number(Big, 8, v.value) + tail) == [1] + Number(Big, 8, v.value) + tail;
    }
    Step(b, at, OptionalTime(v), tail);
  }

  /** What pushing an item in front of a tail writes. */
  ghost predicate Writes<T(!new)>(push: (T, Bytes) -> Bytes, item: T -> Bytes, ok: T -> bool)
  {
    forall v, tail :: ok(v) ==> push(v, tail) == item(v) + tail
  }

  lemma {:induction false} AllAreItems<T(!new)>(push: (T, Bytes) -> Bytes, item: T -> Bytes, ok: T -> bool, vs: seq<T>,
      tail: Bytes)
    requires Writes(push, item, ok) && forall i :: 0 <= i < |vs| ==> ok(vs[i])
    ensures PushAll(push, vs, tail) == Items(item, vs) + tail
    decreases |vs|
  {
    if vs != [] {
      var front, last := vs[..|vs| - 1], vs[|vs| - 1];
      AllAreItems(push, item, ok, front, push(last, tail));
      assert Items(item, front) + (item(last) + tail) == Items(item, front) + item(last) + tail;
    }
  }

  lemma ListsAreListed<T(!new)>(order: Endian, push: (T, Bytes) -> Bytes, item: T -> Bytes, ok: T -> bool, vs: seq<T>,
      tail: Bytes)
    requires Writes(push, item, ok) && |vs| <= NO_LIMIT && forall i :: 0 <= i < |vs| ==> ok(vs[i])
    ensures PushList(order, push, vs, tail) == Listed(order, item, vs) + tail
  {
    hide IntBytes, IntOf, Number, PushAll, Items, Writes;
    AllAreItems(push, item, ok, vs, tail);
    Pow256Values();
    DigitsOf(order, 4, |vs|);
    assert Number(order, 4, |vs|) + (Items(item, vs) + tail) == Number(order, 4, |vs|) + Items(item, vs) + tail;
  }

  function Whole(d: Digest): Bytes { d }

  lemma StepDigests(b: Bytes, at: nat, vs: seq<Digest>, tail: Bytes)
    requires |vs| <= NO_LIMIT && at <= |b| && b[at..] == PushDigests(vs, tail)
    ensures Holds(b, at, Listed(Big, Whole, vs)) && at + |Listed(Big, Whole, vs)| <= |b|
    ensures b[at + |Listed(Big, Whole, vs)|..] == tail
  {
    hide Holds, Listed, PushList;
    ListsAreListed(Big, PushDigest, Whole, _ => true, vs, tail);
    Step(b, at, Listed(Big, Whole, vs), tail);
  }

  lemma StepDigest(b: Bytes, at: nat, v: Digest, tail: Bytes)
    requires at <= |b| && b[at..] == PushDigest(v, tail)
    ensures Holds(b, at, v) && at + 32 <= |b| && b[at + 32..] == tail
  {
    hide Holds;
    Step(b, at, v, tail);
  }

  lemma StepByte(b: Bytes, at: nat, v: Byte, tail: Bytes)
    requires at <= |b| && b[at..] == PushByte(v, tail)
    ensures at + 1 <= |b| && b[at] == v && b[at + 1..] == tail
  {
    Step(b, at, [v], tail);
    assert b[at..at + 1][0] == v;
  }

  // ---- The opening of attempts and receipts -----------------------------------------------------

  predicate HeaderLiesIn(major: U16, minor: U16, version: U16, b: Bytes)
  {
    Holds(b, 0, Number(Big, 2, major)) && Holds(b, 2, Number(Big, 2, minor)) && Holds(b, 4, Number(Big, 2, version))
  }

  predicate LinksLieIn(first: Digest, second: Digest, third: Digest, fourth: Digest, b: Bytes)
  {
    Holds(b, 6, first) && Holds(b, 38, second) && Holds(b, 70, third) && Holds(b, 102, fourth)
  }

  lemma StepHeader(b: Bytes, major: U16, minor: U16, version: U16, tail: Bytes)
    requires b == PushU16(Big, major, PushU16(Big, minor, PushU16(Big, version, tail)))
    ensures HeaderLiesIn(major, minor, version, b) && 6 <= |b| && b[6..] == tail
  {
    hide PushU16, Holds, Number, ReadU16;
    assert b[0..] == b;
    StepU16(b, 0, Big, major, PushU16(Big, minor, PushU16(Big, version, tail)));
    StepU16(b, 2, Big, minor, PushU16(Big, version, tail));
    StepU16(b, 4, Big, version, tail);
  }

  lemma StepLinks(b: Bytes, first: Digest, second: Digest, third: Digest, fourth: Digest, tail: Bytes)
    requires 6 <= |b|
    requires b[6..] == PushDigest(first, PushDigest(second, PushDigest(third, PushDigest(fourth, tail))))
    ensures LinksLieIn(first, second, third, fourth, b) && 134 <= |b| && b[134..] == tail
  {
    hide PushDigest, Holds, ReadDigest;
    StepDigest(b, 6, first, PushDigest(second, PushDigest(third, PushDigest(fourth, tail))));
    StepDigest(b, 38, second, PushDigest(third, PushDigest(fourth, tail)));
    StepDigest(b, 70, third, PushDigest(fourth, tail));
    StepDigest(b, 102, fourth, tail);
  }

  // ---- Attempts -----------------------------------------------------------------------------

  /** Attempt states in the order of their tags. */
  const ATTEMPT_STATES: seq<AttemptState> :=
    [Prepared, Dispatching, MandateState.Accepted, MandateState.Rejected, OutcomeAmbiguous, ReconciledAccepted,
     ReconciledNotAccepted, AbandonedAmbiguous]

  lemma StateTagIsThePosition(s: AttemptState)
    ensures StateTag(s) < 8 == |ATTEMPT_STATES| && ATTEMPT_STATES[StateTag(s)] == s
  {
  }

  predicate AttemptLiesIn(a: ExecutionAttempt, b: Bytes)
  {
    var e, c := |a.executorIdentity|, |a.correlationKey|;
    var dispatched := 150 + e + c;
    var request := dispatched + |OptionalTime(a.dispatchBoundaryAt)|;
    var state := request + 32 + |Optional(a.providerResponseDigest)|;
    && HeaderLiesIn(a.protocolMajor, a.protocolMinor, a.attemptVersion, b)
    && LinksLieIn(a.mandateId, a.mandateDigest, a.intentId, a.reservationTokenDigest, b)
    && Holds(b, 134, Counted(Big, a.executorIdentity)) && Holds(b, 138 + e, Counted(Big, a.correlationKey))
    && Holds(b, 142 + e + c, Number(Big, 8, a.startedAt))
    && Holds(b, dispatched, OptionalTime(a.dispatchBoundaryAt))
    && Holds(b, request, a.providerRequestDigest)
    && Holds(b, request + 32, Optional(a.providerResponseDigest))
    && |b| == state + 1 && b[state] < 8 && ATTEMPT_STATES[b[state]] == a.state
  }

  /** Every field of an attempt lies at its offset in its canonical bytes, and nothing else does. */
  lemma AttemptLayout(a: ExecutionAttempt)
    requires |a.executorIdentity| <= NO_LIMIT && |a.correlationKey| <= NO_LIMIT
    ensures AttemptLiesIn(a, AttemptBytes(a))
  {
    hide PushU16, PushDigest, PushBytes, PushU64, PushOptionU64, PushOptionDigest, PushByte, Holds, Number, Counted,
         Optional, OptionalTime, StateTag, ReadU16, ReadDigest, ReadBytes, ReadU64, ReadOptionU64, ReadOptionDigest,
         ReadByte, ATTEMPT_STATES, HeaderLiesIn, LinksLieIn;
    var b, e, c := AttemptBytes(a), |a.executorIdentity|, |a.correlationKey|;
    var last := PushByte(StateTag(a.state), []);
    var response := PushOptionDigest(a.providerResponseDigest, last);
    var request := PushDigest(a.providerRequestDigest, response);
    var dispatch := PushOptionU64(a.dispatchBoundaryAt, request);
    var start := PushU64(Big, a.startedAt, dispatch);
    var key := PushBytes(Big, a.correlationKey, start);
    var executor := PushBytes(Big, a.executorIdentity, key);
    StepHeader(b, a.protocolMajor, a.protocolMinor, a.attemptVersion,
               PushDigest(a.mandateId, PushDigest(a.mandateDigest, PushDigest(a.intentId,
                 PushDigest(a.reservationTokenDigest, executor)))));
    StepLinks(b, a.mandateId, a.mandateDigest, a.intentId, a.reservationTokenDigest, executor);
    StepBytes(b, 134, Big, a.executorIdentity, key);
    StepBytes(b, 138 + e, Big, a.correlationKey, start);
    StepU64(b, 142 + e + c, Big, a.startedAt, dispatch);
    var at := 150 + e + c;
    StepOptionTime(b, at, a.dispatchBoundaryAt, request);
    at := at + |OptionalTime(a.dispatchBoundaryAt)|;
    StepDigest(b, at, a.providerRequestDigest, response);
    StepOption(b, at + 32, a.providerResponseDigest, last);
    at := at + 32 + |Optional(a.providerResponseDigest)|;
    LastByte(b, at, StateTag(a.state));
    StateTagIsThePosition(a.state);
  }

  lemma LastByte(b: Bytes, at: nat, v: Byte)
    requires at <= |b| && b[at..] == PushByte(v, [])
    ensures |b| == at + 1 && b[at] == v
  {
    assert b[at..][0] == v;
  }

  // ---- Receipts -----------------------------------------------------------------------------

  /** Outcomes in the order of their tags. */
  const OUTCOMES: seq<Outcome> := [Succeeded, Failed, RejectedOutcome, UnknownOutcome]

  lemma OutcomeTagIsThePosition(o: Outcome)
    ensures OutcomeTag(o) < 4 == |OUTCOMES| && OUTCOMES[OutcomeTag(o)] == o
  {
  }

  function StatusField(s: RequirementStatus): Bytes
  {
    Counted(Big, s.registryId) + s.parametersDigest + [if s.satisfied then 1 else 0] +
      Listed(Big, Whole, s.evidenceRefs)
  }

  lemma StatusesWrite()
    ensures Writes(PushStatus, StatusField, BoundedStatus)
  {
    hide Counted, Listed, PushBytes, PushDigests, PushList, ReadDigests, ReadBytes, ReadText, ReadList, Utf8;
    forall s: RequirementStatus, tail: Bytes | BoundedStatus(s)
      ensures PushStatus(s, tail) == StatusField(s) + tail
    {
      var bit: Byte := if s.satisfied then 1 else 0;
      var refs := Listed(Big, Whole, s.evidenceRefs);
      DigestsAreListed(s.evidenceRefs, tail);
      BytesAreCounted(Big, s.registryId, s.parametersDigest + ([bit] + (refs + tail)));
      FourParts(Counted(Big, s.registryId), s.parametersDigest, [bit], refs, tail);
    }
  }

  lemma DigestsAreListed(vs: seq<Digest>, tail: Bytes)
    requires |vs| <= NO_LIMIT
    ensures PushDigests(vs, tail) == Listed(Big, Whole, vs) + tail
  {
    hide Listed, PushList;
    ListsAreListed(Big, PushDigest, Whole, _ => true, vs, tail);
  }

  lemma FourParts<T>(a: seq<T>, b: seq<T>, c: seq<T>, d: seq<T>, tail: seq<T>)
    ensures a + (b + (c + (d + tail))) == a + b + c + d + tail
  {
  }

  lemma StepStatuses(b: Bytes, at: nat, vs: seq<RequirementStatus>, tail: Bytes)
    requires BoundedStatuses(vs) && at <= |b| && b[at..] == PushStatuses(vs, tail)
    ensures Holds(b, at, Listed(Big, StatusField, vs)) && at + |Listed(Big, StatusField, vs)| <= |b|
    ensures b[at + |Listed(Big, StatusField, vs)|..] == tail
  {
    hide Holds, Listed, PushList, Writes, BoundedStatus, StatusField, PushStatus, ReadList;
    StatusesWrite();
    ListsAreListed(Big, PushStatus, StatusField, BoundedStatus, vs, tail);
    Step(b, at, Listed(Big, StatusField, vs), tail);
  }

  /** Where a receipt's times and outcome begin, after its evidence references. */
  function TimesAt(r: ExecutionReceipt): nat
  {
    178 + |r.executorIdentity| + |Listed(Big, Whole, r.dispatchEvidenceRefs)| +
      |Listed(Big, Whole, r.targetEvidenceRefs)|
  }

  /** Where a receipt's requirement statuses begin. */
  function StatusesAt(r: ExecutionReceipt): nat
  {
    TimesAt(r) + 9 + |OptionalTime(r.completedAt)| + |Optional(r.resultCommitment)|
  }

  predicate ReceiptOpensIn(r: ExecutionReceipt, b: Bytes)
  {
    var e := |r.executorIdentity|;
    && HeaderLiesIn(r.protocolMajor, r.protocolMinor, r.receiptVersion, b)
    && LinksLieIn(r.mandateId, r.mandateDigest, r.intentId, r.attemptId, b)
    && Holds(b, 134, Counted(Big, r.executorIdentity))
    && Holds(b, 138 + e, Number(Big, 8, r.mandateRevision)) && Holds(b, 146 + e, r.journalEntryDigest)
    && Holds(b, 178 + e, Listed(Big, Whole, r.dispatchEvidenceRefs))
    && Holds(b, 178 + e + |Listed(Big, Whole, r.dispatchEvidenceRefs)|, Listed(Big, Whole, r.targetEvidenceRefs))
  }

  predicate ReceiptClosesIn(r: ExecutionReceipt, b: Bytes)
  {
    var times, statuses := TimesAt(r), StatusesAt(r);
    var outcome := times + 8 + |OptionalTime(r.completedAt)|;
    var producer := statuses + |Listed(Big, StatusField, r.requirementStatuses)|;
    && Holds(b, times, Number(Big, 8, r.startedAt)) && Holds(b, times + 8, OptionalTime(r.completedAt))
    && outcome < |b| && b[outcome] < 4 && OUTCOMES[b[outcome]] == r.outcome
    && Holds(b, outcome + 1, Optional(r.resultCommitment))
    && Holds(b, statuses, Listed(Big, StatusField, r.requirementStatuses))
    && Holds(b, producer, Counted(Big, r.producerIdentity))
    && Holds(b, producer + 4 + |r.producerIdentity|, Counted(Big, r.producerSignature))
    && |b| == producer + 8 + |r.producerIdentity| + |r.producerSignature|
  }

  function FromStatuses(r: ExecutionReceipt): Bytes
  {
    PushStatuses(r.requirementStatuses,
    PushBytes(Big, r.producerIdentity,
    PushBytes(Big, r.producerSignature, [])))
  }

  function FromTimes(r: ExecutionReceipt): Bytes
  {
    PushU64(Big, r.startedAt,
    PushOptionU64(r.completedAt,
    PushByte(OutcomeTag(r.outcome),
    PushOptionDigest(r.resultCommitment, FromStatuses(r)))))
  }

  lemma ReceiptOpening(r: ExecutionReceipt)
    requires BoundedReceipt(r)
    ensures ReceiptOpensIn(r, ReceiptBytes(r))
    ensures TimesAt(r) <= |ReceiptBytes(r)| && ReceiptBytes(r)[TimesAt(r)..] == FromTimes(r)
  {
    hide PushU16, PushDigest, PushDigests, PushBytes, PushU64, PushOptionU64, PushOptionDigest, PushByte, PushStatuses,
         Holds, Number, Counted, Listed, HeaderLiesIn, LinksLieIn, OutcomeTag, BoundedStatuses;
    hide ReadU16, ReadDigest, ReadDigests, ReadBytes, ReadU64, ReadOptionU64, ReadOptionDigest, ReadByte, ReadList;
    var b, e, times := ReceiptBytes(r), |r.executorIdentity|, FromTimes(r);
    var target := PushDigests(r.targetEvidenceRefs, times);
    var dispatch := PushDigests(r.dispatchEvidenceRefs, target);
    var entry := PushDigest(r.journalEntryDigest, dispatch);
    var revision := PushU64(Big, r.mandateRevision, entry);
    var executor := PushBytes(Big, r.executorIdentity, revision);
    StepHeader(b, r.protocolMajor, r.protocolMinor, r.receiptVersion,
               PushDigest(r.mandateId, PushDigest(r.mandateDigest, PushDigest(r.intentId,
                 PushDigest(r.attemptId, executor)))));
    StepLinks(b, r.mandateId, r.mandateDigest, r.intentId, r.attemptId, executor);
    StepBytes(b, 134, Big, r.executorIdentity, revision);
    StepU64(b, 138 + e, Big, r.mandateRevision, entry);
    StepDigest(b, 146 + e, r.journalEntryDigest, dispatch);
    StepDigests(b, 178 + e, r.dispatchEvidenceRefs, target);
    StepDigests(b, 178 + e + |Listed(Big, Whole, r.dispatchEvidenceRefs)|, r.targetEvidenceRefs, times);
  }

  lemma ReceiptClosing(r: ExecutionReceipt, b: Bytes)
    requires BoundedReceipt(r) && TimesAt(r) <= |b| && b[TimesAt(r)..] == FromTimes(r)
    ensures ReceiptClosesIn(r, b)
  {
    hide PushDigest, PushBytes, PushU64, PushOptionU64, PushOptionDigest, PushByte, PushStatuses, Holds, Number,
         Counted, Listed, Optional, OptionalTime, OutcomeTag, BoundedStatuses, OUTCOMES, TimesAt;
    hide ReadDigest, ReadBytes, ReadU64, ReadOptionU64, ReadOptionDigest, ReadByte, ReadList;
    var signature := PushBytes(Big, r.producerSignature, []);
    var identity := PushBytes(Big, r.producerIdentity, signature);
    var statuses := FromStatuses(r);
    var result := PushOptionDigest(r.resultCommitment, statuses);
    var outcome := PushByte(OutcomeTag(r.outcome), result);
    var at := TimesAt(r);
    StepU64(b, at, Big, r.startedAt, PushOptionU64(r.completedAt, outcome));
    StepOptionTime(b, at + 8, r.completedAt, outcome);
    at := at + 8 + |OptionalTime(r.completedAt)|;
    StepByte(b, at, OutcomeTag(r.outcome), result);
    OutcomeTagIsThePosition(r.outcome);
    StepOption(b, at + 1, r.resultCommitment, statuses);
    at := StatusesAt(r);
    StepStatuses(b, at, r.requirementStatuses, identity);
    at := at + |Listed(Big, StatusField, r.requirementStatuses)|;
    StepBytes(b, at, Big, r.producerIdentity, signature);
    StepBytes(b, at + 4 + |r.producerIdentity|, Big, r.producerSignature, []);
  }

  /** Every field of a receipt lies at its offset in its canonical bytes, and nothing else does. */
  lemma ReceiptLayout(r: ExecutionReceipt)
    requires BoundedReceipt(r)
    ensures ReceiptOpensIn(r, ReceiptBytes(r)) && ReceiptClosesIn(r, ReceiptBytes(r))
  {
    hide ReceiptBytes, BoundedReceipt, ReceiptOpensIn, ReceiptClosesIn, TimesAt, FromTimes;
    ReceiptOpening(r);
    ReceiptClosing(r, ReceiptBytes(r));
  }

  // ---- Mandates -----------------------------------------------------------------------------

  function SubjectField(s: MandateSubject): Bytes
  {
    match s
    case Identity(identity) => [0] + Counted(Little, identity)
    case ExecutorClass(c) => [1] + Counted(Little, c)
  }

  function RequirementField(v: Requirement): Bytes { Counted(Little, v.registryId) + v.parametersDigest }

  lemma RequirementIsWritten(v: Requirement, tail: Bytes)
    requires BoundedId(v)
    ensures PushRequirement(v, tail) == RequirementField(v) + tail
  {
    hide Counted, PushBytes, ReadBytes, ReadText, Utf8;
    BytesAreCounted(Little, v.registryId, v.parametersDigest + tail);
    assert Counted(Little, v.registryId) + (v.parametersDigest + tail) ==
           Counted(Little, v.registryId) + v.parametersDigest + tail;
  }

  lemma StepRequirements(b: Bytes, at: nat, vs: seq<Requirement>, tail: Bytes)
    requires BoundedIds(vs) && at <= |b| && b[at..] == PushRequirements(vs, tail)
    ensures Holds(b, at, Listed(Little, RequirementField, vs)) && at + |Listed(Little, RequirementField, vs)| <= |b|
    ensures b[at + |Listed(Little, RequirementField, vs)|..] == tail
  {
    hide Holds, Listed, PushList, BoundedId, RequirementField, PushRequirement, ReadRequirements, ReadRequirement;
    forall v: Requirement, tail: Bytes | BoundedId(v)
      ensures PushRequirement(v, tail) == RequirementField(v) + tail
    {
      RequirementIsWritten(v, tail);
    }
    ListsAreListed(Little, PushRequirement, RequirementField, BoundedId, vs, tail);
    Step(b, at, Listed(Little, RequirementField, vs), tail);
  }

  lemma StepSubject(b: Bytes, at: nat, s: MandateSubject, tail: Bytes)
    requires ValidSubject(s) && at <= |b| && b[at..] == PushSubject(s, tail)
    ensures Holds(b, at, SubjectField(s)) && at + |SubjectField(s)| <= |b| && b[at + |SubjectField(s)|..] == tail
  {
    hide Holds, Counted, PushBytes, ReadBytes, ReadText, ReadSubject, RegisteredId, Utf8;
    SubjectIsBounded(s);
    match s {
      case Identity(identity) => TaggedIsCounted(0, identity, tail);
      case ExecutorClass(c) => TaggedIsCounted(1, c, tail);
    }
    Step(b, at, SubjectField(s), tail);
  }

  lemma SubjectIsBounded(s: MandateSubject)
    requires ValidSubject(s)
    ensures match s case Identity(identity) => |identity| <= NO_LIMIT case ExecutorClass(c) => |c| <= NO_LIMIT
  {
    hide Trimmed, HasControl, Utf8;
  }

  lemma TaggedIsCounted(tag: Byte, v: Bytes, tail: Bytes)
    requires |v| <= NO_LIMIT
    ensures PushByte(tag, PushBytes(Little, v, tail)) == [tag] + Counted(Little, v) + tail
  {
    hide Counted, PushBytes, ReadBytes;
    BytesAreCounted(Little, v, tail);
    assert [tag] + (Counted(Little, v) + tail) == [tag] + Counted(Little, v) + tail;
  }

  /** Where a mandate's window begins, after the parties. */
  function WindowAt(m: ActionMandate): nat
  {
    46 + |m.issuerIdentity| + |SubjectField(m.subject)| + |m.authorityDomain|
  }

  /** Where a mandate's links to other mandates begin, after its requirements. */
  function ParentAt(m: ActionMandate): nat
  {
    WindowAt(m) + 20 + |Listed(Little, RequirementField, m.constraints)| +
      |Listed(Little, RequirementField, m.evidenceRequirements)| + |RequirementField(m.executionPolicy)|
  }

  predicate MandateOpensIn(m: ActionMandate, b: Bytes)
  {
    var n := |m.issuerIdentity|;
    && Holds(b, 0, Number(Little, 2, m.protocolMajor)) && Holds(b, 2, Number(Little, 2, m.protocolMinor))
    && Holds(b, 4, Number(Little, 2, m.mandateVersion)) && Holds(b, 6, m.intentId)
    && Holds(b, 38, Counted(Little, m.issuerIdentity)) && Holds(b, 42 + n, SubjectField(m.subject))
    && Holds(b, 42 + n + |SubjectField(m.subject)|, Counted(Little, m.authorityDomain))
  }

  predicate MandateGoesOnIn(m: ActionMandate, b: Bytes)
  {
    var window := WindowAt(m);
    var evidence := window + 20 + |Listed(Little, RequirementField, m.constraints)|;
    && Holds(b, window, Number(Little, 8, m.validFrom)) && Holds(b, window + 8, Number(Little, 8, m.expiresAt))
    && Holds(b, window + 16, Number(Little, 4, m.maximumDispatches))
    && Holds(b, window + 20, Listed(Little, RequirementField, m.constraints))
    && Holds(b, evidence, Listed(Little, RequirementField, m.evidenceRequirements))
    && Holds(b, evidence + |Listed(Little, RequirementField, m.evidenceRequirements)|,
             RequirementField(m.executionPolicy))
  }

  predicate MandateClosesIn(m: ActionMandate, b: Bytes)
  {
    var parent := ParentAt(m);
    var revocation := parent + |Optional(m.parentMandate)|;
    var issued := revocation + |Optional(m.revocationReference)|;
    var key := issued + 44 + |m.signatureRequirements.algorithm|;
    && Holds(b, parent, Optional(m.parentMandate)) && Holds(b, revocation, Optional(m.revocationReference))
    && Holds(b, issued, Number(Little, 8, m.issuedAt)) && Holds(b, issued + 8, m.nonce)
    && Holds(b, issued + 40, Counted(Little, m.signatureRequirements.algorithm))
    && Holds(b, key, Counted(Little, m.signatureRequirements.keyId))
    && |b| == key + 4 + |m.signatureRequirements.keyId|
  }

  function FromParent(m: ActionMandate): Bytes
  {
    PushOptionDigest(m.parentMandate,
    PushOptionDigest(m.revocationReference,
    PushU64(Little, m.issuedAt,
    PushDigest(m.nonce,
    PushText(Little, m.signatureRequirements.algorithm,
    PushBytes(Little, m.signatureRequirements.keyId, []))))))
  }

  function FromWindow(m: ActionMandate): Bytes
  {
    PushU64(Little, m.validFrom,
    PushU64(Little, m.expiresAt,
    PushU32(Little, m.maximumDispatches,
    PushRequirements(m.constraints,
    PushRequirements(m.evidenceRequirements,
    PushRequirement(m.executionPolicy, FromParent(m)))))))
  }

  lemma MandateOpening(m: ActionMandate)
    requires Bounded(m)
    ensures MandateOpensIn(m, MandateBytes(m))
    ensures WindowAt(m) <= |MandateBytes(m)| && MandateBytes(m)[WindowAt(m)..] == FromWindow(m)
  {
    hide PushU16, PushU32, PushU64, PushDigest, PushBytes, PushText, PushOptionDigest, PushSubject, PushRequirements,
         PushRequirement, Holds, Number, Counted, SubjectField, ValidSubject, BoundedIds, BoundedId;
    hide ReadU16, ReadU32, ReadU64, ReadDigest, ReadBytes, ReadText, ReadOptionDigest, ReadSubject, ReadRequirements,
         ReadRequirement;
    var b, n, window := MandateBytes(m), |m.issuerIdentity|, FromWindow(m);
    var domain := PushBytes(Little, m.authorityDomain, window);
    var subject := PushSubject(m.subject, domain);
    var issuer := PushBytes(Little, m.issuerIdentity, subject);
    var intent := PushDigest(m.intentId, issuer);
    var version := PushU16(Little, m.mandateVersion, intent);
    assert b[0..] == b;
    StepU16(b, 0, Little, m.protocolMajor, PushU16(Little, m.protocolMinor, version));
    StepU16(b, 2, Little, m.protocolMinor, version);
    StepU16(b, 4, Little, m.mandateVersion, intent);
    StepDigest(b, 6, m.intentId, issuer);
    StepBytes(b, 38, Little, m.issuerIdentity, subject);
    StepSubject(b, 42 + n, m.subject, domain);
    StepBytes(b, 42 + n + |SubjectField(m.subject)|, Little, m.authorityDomain, window);
  }

  lemma MandateGoingOn(m: ActionMandate, b: Bytes)
    requires Bounded(m) && WindowAt(m) <= |b| && b[WindowAt(m)..] == FromWindow(m)
    ensures MandateGoesOnIn(m, b) && ParentAt(m) <= |b| && b[ParentAt(m)..] == FromParent(m)
  {
    hide PushU32, PushU64, PushRequirements, PushRequirement, Holds, Number, Listed, RequirementField, WindowAt,
         BoundedIds, BoundedId, FromParent;
    hide ReadU32, ReadU64, ReadRequirements, ReadRequirement;
    var parent := FromParent(m);
    var policy := PushRequirement(m.executionPolicy, parent);
    var evidence := PushRequirements(m.evidenceRequirements, policy);
    var constraints := PushRequirements(m.constraints, evidence);
    var dispatches := PushU32(Little, m.maximumDispatches, constraints);
    var at := WindowAt(m);
    StepU64(b, at, Little, m.validFrom, PushU64(Little, m.expiresAt, dispatches));
    StepU64(b, at + 8, Little, m.expiresAt, dispatches);
    StepU32(b, at + 16, Little, m.maximumDispatches, constraints);
    StepRequirements(b, at + 20, m.constraints, evidence);
    at := at + 20 + |Listed(Little, RequirementField, m.constraints)|;
    StepRequirements(b, at, m.evidenceRequirements, policy);
    at := at + |Listed(Little, RequirementField, m.evidenceRequirements)|;
    RequirementIsWritten(m.executionPolicy, parent);
    Step(b, at, RequirementField(m.executionPolicy), parent);
  }

  lemma MandateClosing(m: ActionMandate, b: Bytes)
    requires Bounded(m) && ParentAt(m) <= |b| && b[ParentAt(m)..] == FromParent(m)
    ensures MandateClosesIn(m, b)
  {
    hide PushU64, PushDigest, PushBytes, PushOptionDigest, Holds, Number, Counted, Optional, ParentAt, ValidSubject,
         BoundedIds, BoundedId;
    hide ReadU64, ReadDigest, ReadBytes, ReadText, ReadOptionDigest;
    var signature := m.signatureRequirements;
    var key := PushBytes(Little, signature.keyId, []);
    var algorithm := PushBytes(Little, signature.algorithm, key);
    var nonce := PushDigest(m.nonce, algorithm);
    var issued := PushU64(Little, m.issuedAt, nonce);
    var revocation := PushOptionDigest(m.revocationReference, issued);
    var at := ParentAt(m);
    StepOption(b, at, m.parentMandate, revocation);
    at := at + |Optional(m.parentMandate)|;
    StepOption(b, at, m.revocationReference, issued);
    at := at + |Optional(m.revocationReference)|;
    StepU64(b, at, Little, m.issuedAt, nonce);
    StepDigest(b, at + 8, m.nonce, algorithm);
    StepBytes(b, at + 40, Little, signature.algorithm, key);
    StepBytes(b, at + 44 + |signature.algorithm|, Little, signature.keyId, []);
  }

  /** Every field of a valid mandate lies at its offset in its canonical bytes, and nothing else does. */
  lemma MandateLayout(m: ActionMandate)
    requires ValidMandate(m)
    ensures MandateOpensIn(m, MandateBytes(m)) && MandateGoesOnIn(m, MandateBytes(m)) &&
            MandateClosesIn(m, MandateBytes(m))
  {
    hide MandateBytes, ValidMandate, Bounded, MandateOpensIn, MandateGoesOnIn, MandateClosesIn, WindowAt, ParentAt,
         FromWindow, FromParent;
    ValidMandateIsBounded(m);
    MandateOpening(m);
    MandateGoingOn(m, MandateBytes(m));
    MandateClosing(m, MandateBytes(m));
  }
}
