/** Dimensioned assurance and gate evaluation (csv-accountability/src/assurance.rs). */
module Assurance {
  import opened Bytes
  import opened Text

  const MAX_ASSURANCE_ITEMS: nat := 128
  const MAX_ASSURANCE_TEXT_BYTES: nat := 512

  datatype Dimension =
    | Structural | Cryptographic | Identity | Authority | Temporal | SingleUse | Execution
    | ExternalCorroboration | Completeness | Custody | Preservation

  const DIMENSIONS: seq<Dimension> :=
    [Structural, Cryptographic, Identity, Authority, Temporal, SingleUse, Execution, ExternalCorroboration,
     Completeness, Custody, Preservation]

  datatype Status = Satisfied | NotSatisfied | Indeterminate | NotApplicable

  datatype DimensionResult = DimensionResult(
    dimension: Dimension,
    status: Status,
    level: Option<Text>,
    reasonCodes: seq<Text>,
    evidenceRefs: seq<Digest>,
    limitations: seq<Text>)

  datatype Profile = Profile(contextId: Digest, dimensions: seq<DimensionResult>)

  predicate Bounded(s: Text) { Printable(s, MAX_ASSURANCE_TEXT_BYTES) }

  predicate ValidDimension(d: DimensionResult)
  {
    && |d.reasonCodes| <= MAX_ASSURANCE_ITEMS
    && |d.evidenceRefs| <= MAX_ASSURANCE_ITEMS
    && |d.limitations| <= MAX_ASSURANCE_ITEMS
    && (d.level.Some? ==> Bounded(d.level.value))
    && (forall i :: 0 <= i < |d.reasonCodes| ==> Bounded(d.reasonCodes[i]))
    && (forall i :: 0 <= i < |d.limitations| ==> Bounded(d.limitations[i]))
    && Ascending(d.reasonCodes) && Ascending(d.limitations) && Ascending(d.evidenceRefs)
  }

  predicate ValidProfile(p: Profile)
  {
    && |p.dimensions| == |DIMENSIONS|
    && (forall i :: 0 <= i < |p.dimensions| ==> p.dimensions[i].dimension == DIMENSIONS[i])
    && (forall i :: 0 <= i < |p.dimensions| ==> ValidDimension(p.dimensions[i]))
  }

  // ---- Gates ------------------------------------------------------------------------------

  datatype Handling = Allow | Attention | Block

  datatype Rule = Rule(dimension: Dimension, satisfied: Handling, notSatisfied: Handling, indeterminate: Handling,
      notApplicable: Handling)

  datatype Gate = Gate(registryId: Text, version: U16, rules: seq<Rule>)

  datatype Outcome = Pass | AttentionRequired | Blocked

  datatype AssuranceError = InvalidDimensions | InvalidGateProfile

  predicate ValidGate(g: Gate)
  {
    && 0 < |g.registryId| <= MAX_ASSURANCE_TEXT_BYTES && g.version != 0
    && |g.rules| == |DIMENSIONS|
    && forall i :: 0 <= i < |g.rules| ==> g.rules[i].dimension == DIMENSIONS[i]
  }

  function Handles(r: Rule, s: Status): Handling
  {
    match s
    case Satisfied => r.satisfied
    case NotSatisfied => r.notSatisfied
    case Indeterminate => r.indeterminate
    case NotApplicable => r.notApplicable
  }

  /** A rule prescribes a handling for a status. */
  predicate Prescribes(r: Rule, s: Status, handling: Handling)
  {
    || (s == Satisfied && r.satisfied == handling)
    || (s == NotSatisfied && r.notSatisfied == handling)
    || (s == Indeterminate && r.indeterminate == handling)
    || (s == NotApplicable && r.notApplicable == handling)
  }

  lemma HandlesAsPrescribed(r: Rule, s: Status, handling: Handling)
    ensures Handles(r, s) == handling <==> Prescribes(r, s, handling)
  {
  }

  /** Some dimension below `n` meets with a given handling. */
  predicate SomeHandled(g: Gate, p: Profile, n: nat, handling: Handling)
    requires n <= |g.rules| && n <= |p.dimensions|
  {
    exists i :: 0 <= i < n && Prescribes(g.rules[i], p.dimensions[i].status, handling)
  }

  /** The most severe handling of any dimension. */
  ghost predicate MostSevere(g: Gate, p: Profile, n: nat, outcome: Outcome)
    requires n <= |g.rules| && n <= |p.dimensions|
  {
    && (outcome == Blocked <==> SomeHandled(g, p, n, Block))
    && (outcome == AttentionRequired <==> !SomeHandled(g, p, n, Block) && SomeHandled(g, p, n, Attention))
  }

  function Worsened(outcome: Outcome, handling: Handling): Outcome
  {
    match (outcome, handling)
    case (_, Block) => Blocked
    case (Pass, Attention) => AttentionRequired
    case (current, _) => current
  }

  lemma NothingHandled(g: Gate, p: Profile)
    ensures MostSevere(g, p, 0, Pass)
  {
  }

  lemma WorsenedIsMostSevere(g: Gate, p: Profile, n: nat, outcome: Outcome)
    requires n < |g.rules| && n < |p.dimensions| && MostSevere(g, p, n, outcome)
    ensures MostSevere(g, p, n + 1, Worsened(outcome, Handles(g.rules[n], p.dimensions[n].status)))
  {
    hide Handles, Prescribes;
    forall handling ensures SomeHandled(g, p, n + 1, handling) <==>
      SomeHandled(g, p, n, handling) || Handles(g.rules[n], p.dimensions[n].status) == handling
    {
      HandlesAsPrescribed(g.rules[n], p.dimensions[n].status, handling);
    }
  }

  method EvaluateGate(g: Gate, p: Profile) returns (r: Result<Outcome, AssuranceError>)
    ensures r == Err(InvalidGateProfile) <==> !ValidGate(g)
    ensures r == Err(InvalidDimensions) <==> ValidGate(g) && !ValidProfile(p)
    ensures r.Ok? ==> ValidGate(g) && ValidProfile(p) && MostSevere(g, p, |DIMENSIONS|, r.value)
  {
    hide ValidDimension, MostSevere, Handles, Worsened;
    if !ValidGate(g) {
      return Err(InvalidGateProfile);
    }
    if !ValidProfile(p) {
      return Err(InvalidDimensions);
    }
    var outcome := Pass;
    assert MostSevere(g, p, 0, Pass) by { NothingHandled(g, p); }
    for i := 0 to |DIMENSIONS|
      invariant MostSevere(g, p, i, outcome)
    {
      WorsenedIsMostSevere(g, p, i, outcome);
      outcome := Worsened(outcome, Handles(g.rules[i], p.dimensions[i].status));
    }
    return Ok(outcome);
  }
}
