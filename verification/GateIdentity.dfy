/**
  The canonical bytes and the identifier of a gate profile (csv-accountability/src/assurance.rs).
  Gate profiles are encoded and identified but never decoded; integers are big-endian.
 */
module GateIdentity {
  import opened Bytes
  import opened Text
  import opened Wire
  import opened Hashing
  import opened Writers
  import opened Assurance

  function DimensionTag(d: Dimension): Byte
  {
    match d
    case Structural => 0
    case Cryptographic => 1
    case Identity => 2
    case Authority => 3
    case Temporal => 4
    case SingleUse => 5
    case Execution => 6
    case ExternalCorroboration => 7
    case Completeness => 8
    case Custody => 9
    case Preservation => 10
  }

  function PushDimension(d: Dimension, tail: Bytes): (b: Bytes)
    ensures ReadDimension(b) == Got(d, tail)
  {
    PushByte(DimensionTag(d), tail)
  }

  /** The inverse of `PushDimension`; the source has no gate decoder, so only proofs use the reads here. */
  function ReadDimension(b: Bytes): Parsed<Dimension>
  {
    var (tag, b) :- ReadByte(b);
    if tag < 11 then Got(DIMENSIONS[tag], b) else Fail
  }

  function HandlingTag(x: Handling): Byte
  {
    match x
    case Allow => 0
    case Attention => 1
    case Block => 2
  }

  function PushHandling(x: Handling, tail: Bytes): (b: Bytes)
    ensures ReadHandling(b) == Got(x, tail)
  {
    PushByte(HandlingTag(x), tail)
  }

  function ReadHandling(b: Bytes): Parsed<Handling>
  {
    var (tag, b) :- ReadByte(b);
    match tag
    case 0 => Got(Allow, b)
    case 1 => Got(Attention, b)
    case 2 => Got(Block, b)
    case _ => Fail
  }

  function PushRule(r: Rule, tail: Bytes): (b: Bytes)
    ensures ReadRule(b) == Got(r, tail)
  {
    hide PushDimension, PushHandling, ReadDimension, ReadHandling;
    PushDimension(r.dimension,
    PushHandling(r.satisfied,
    PushHandling(r.notSatisfied,
    PushHandling(r.indeterminate,
    PushHandling(r.notApplicable, tail)))))
  }

  function ReadRule(b: Bytes): Parsed<Rule>
  {
    var (dimension, b) :- ReadDimension(b);
    var (satisfied, b) :- ReadHandling(b);
    var (notSatisfied, b) :- ReadHandling(b);
    var (indeterminate, b) :- ReadHandling(b);
    var (notApplicable, b) :- ReadHandling(b);
    Got(Rule(dimension, satisfied, notSatisfied, indeterminate, notApplicable), b)
  }

  function PushRules(rules: seq<Rule>, tail: Bytes): (b: Bytes)
    ensures ReadAll(ReadRule, |rules|, b) == Got(rules, tail)
  {
    hide PushRule, ReadRule;
    ReadPushedAll(ReadRule, PushRule, _ => true, rules, tail);
    PushAll(PushRule, rules, tail)
  }

  /** The rules are not counted: a valid profile has one for every dimension. */
  function GateBytes(g: Gate): Bytes
  {
    PushText(Big, g.registryId, PushU16(Big, g.version, PushRules(g.rules, [])))
  }

  method EncodeGate(g: Gate) returns (r: Option<Bytes>)
    ensures r == if ValidGate(g) then Some(GateBytes(g)) else None
  {
    hide PushText, PushU16, PushRules, ReadText, ReadU16, ReadAll, ReadRule, Utf8;
    if !ValidGate(g) {
      return None;
    }
    var w := new Writer(Big, GateBytes(g));
    w.Text(g.registryId);
    w.U16(g.version);
    EncodeRules(w, g.rules);
    var bytes := w.Finish();
    return Some(bytes);
  }

  method EncodeRules(w: Writer, rules: seq<Rule>)
    requires w.Valid() && Next(ReadAll(ReadRule, |rules|, w.rest), rules)
    modifies w`out, w`rest
    ensures w.Valid() && w.rest == ReadAll(ReadRule, |rules|, old(w.rest)).rest
  {
    hide ReadRule;
    ghost var start := w.rest;
    for i := 0 to |rules|
      invariant w.Valid()
      invariant ReadAll(ReadRule, i, start) == Got(rules[..i], w.rest)
    {
      ReadAllStep(ReadRule, i, rules, start);
      EncodeRule(w, rules[i]);
    }
  }

  method EncodeRule(w: Writer, r: Rule)
    requires w.Valid() && Next(ReadRule(w.rest), r)
    modifies w`out, w`rest
    ensures w.Valid() && w.rest == ReadRule(old(w.rest)).rest
  {
    hide ReadDimension, ReadHandling;
    EncodeDimension(w, r.dimension);
    EncodeHandling(w, r.satisfied);
    EncodeHandling(w, r.notSatisfied);
    EncodeHandling(w, r.indeterminate);
    EncodeHandling(w, r.notApplicable);
  }

  method EncodeDimension(w: Writer, d: Dimension)
    requires w.Valid() && Next(ReadDimension(w.rest), d)
    modifies w`out, w`rest
    ensures w.Valid() && w.rest == ReadDimension(old(w.rest)).rest
  {
    w.Byte(DimensionTag(d));
  }

  method EncodeHandling(w: Writer, x: Handling)
    requires w.Valid() && Next(ReadHandling(w.rest), x)
    modifies w`out, w`rest
    ensures w.Valid() && w.rest == ReadHandling(old(w.rest)).rest
  {
    w.Byte(HandlingTag(x));
  }

  /** The encoding determines every rule of a valid gate profile. */
  lemma GateBytesInjective(g: Gate, k: Gate)
    requires ValidGate(g) && ValidGate(k) && GateBytes(g) == GateBytes(k)
    ensures g == k
  {
    hide PushText, PushU16, PushRules, ReadText, ReadU16, ReadAll, Utf8;
  }

  function GateId(h: Hashes, g: Gate): Digest
  {
    h.Id(GateDomain, GateBytes(g))
  }

  lemma GateIdCommits(h: Hashes, g: Gate, k: Gate)
    requires ValidGate(g) && ValidGate(k) && GateId(h, g) == GateId(h, k)
    ensures g == k || h.Collides(GateDomain, GateBytes(g), GateBytes(k))
  {
    hide GateBytes, ValidGate;
    if GateBytes(g) == GateBytes(k) { GateBytesInjective(g, k); }
  }

  /** A gate profile's bytes open with the two high bytes of a small length. */
  lemma GateBytesOpenWithZeroes(g: Gate)
    requires ValidGate(g)
    ensures |GateBytes(g)| > 4 && GateBytes(g)[..2] == [0, 0]
  {
    hide PushU16, PushRules, IntOf, Utf8;
    SmallLengths(|g.registryId|);
  }

  lemma SmallLengths(n: nat)
    requires n <= 512
    ensures |IntBytes(Big, 4, n)| == 4 && IntBytes(Big, 4, n)[..2] == [0, 0]
  {
  }
}
