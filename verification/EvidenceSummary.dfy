/** Evidence counts per kind (csv-accountability-verify/src/lib.rs). */
module EvidenceSummary {
  import opened Bytes
  import opened Evidence
  import opened EvidenceGraph

  /** Counts per evidence kind, in 32 bits. */
  datatype Summary = Summary(
    claims: U32, observations: U32, attestations: U32, gaps: U32, counterclaims: U32, contradictions: U32,
    custodyRecords: U32, withheldLocators: U32)

  function Bump(n: U32): U32 { (n + 1) % 0x1_0000_0000 }

  function Count(evidence: seq<Entry>, p: EvidenceNode -> bool): (n: nat)
    ensures n <= |evidence|
  {
    if evidence == [] then 0
    else Count(evidence[..|evidence| - 1], p) + if p(evidence[|evidence| - 1].node) then 1 else 0
  }

  lemma {:induction false} CountIsPositive(evidence: seq<Entry>, p: EvidenceNode -> bool)
    ensures Count(evidence, p) > 0 <==> exists i :: 0 <= i < |evidence| && p(evidence[i].node)
  {
    if evidence != [] {
      var front, last := evidence[..|evidence| - 1], |evidence| - 1;
      CountIsPositive(front, p);
      assert forall i :: 0 <= i < last ==> front[i] == evidence[i];
    }
  }

  function CountMod(evidence: seq<Entry>, p: EvidenceNode -> bool): U32
  {
    Count(evidence, p) % 0x1_0000_0000
  }

  predicate IsClaim(n: EvidenceNode) { n.kind.Claim? }
  predicate IsObservation(n: EvidenceNode) { n.kind.Observation? }
  predicate IsAttestation(n: EvidenceNode) { n.kind.Attestation? }
  predicate IsGap(n: EvidenceNode) { n.kind.EvidenceGap? }
  predicate IsCounterclaim(n: EvidenceNode) { n.kind.Counterclaim? }
  predicate IsContradiction(n: EvidenceNode) { n.kind.Contradiction? }
  predicate IsCustody(n: EvidenceNode) { n.kind.CustodyRecord? }
  predicate IsWithheld(n: EvidenceNode) { n.sourceLocator.Withheld? }

  function Counts(evidence: seq<Entry>): Summary
  {
    Summary(CountMod(evidence, IsClaim), CountMod(evidence, IsObservation), CountMod(evidence, IsAttestation),
            CountMod(evidence, IsGap), CountMod(evidence, IsCounterclaim), CountMod(evidence, IsContradiction),
            CountMod(evidence, IsCustody), CountMod(evidence, IsWithheld))
  }

  lemma CountStep(evidence: seq<Entry>, i: nat, p: EvidenceNode -> bool)
    requires i < |evidence|
    ensures CountMod(evidence[..i + 1], p) ==
        if p(evidence[i].node) then Bump(CountMod(evidence[..i], p)) else CountMod(evidence[..i], p)
  {
    assert evidence[..i + 1][..i] == evidence[..i];
  }

  method Summarize(evidence: seq<Entry>) returns (s: Summary)
    ensures s == Counts(evidence)
  {
    hide CountMod, Count, Bump;
    s := Summary(0, 0, 0, 0, 0, 0, 0, 0);
    assert evidence[..0] == [];
    assert Counts([]) == s by { NothingCounted(); }
    for i := 0 to |evidence|
      invariant s == Counts(evidence[..i])
    {
      var node := evidence[i].node;
      forall p ensures CountMod(evidence[..i + 1], p) ==
          if p(node) then Bump(CountMod(evidence[..i], p)) else CountMod(evidence[..i], p) {
        CountStep(evidence, i, p);
      }
      match node.kind {
        case Claim(_) => s := s.(claims := Bump(s.claims));
        case Observation(_) => s := s.(observations := Bump(s.observations));
        case Attestation(_) => s := s.(attestations := Bump(s.attestations));
        case EvidenceGap(_, _) => s := s.(gaps := Bump(s.gaps));
        case Counterclaim(_, _) => s := s.(counterclaims := Bump(s.counterclaims));
        case Contradiction(_, _, _) => s := s.(contradictions := Bump(s.contradictions));
        case CustodyRecord(_, _, _) => s := s.(custodyRecords := Bump(s.custodyRecords));
      }
      if node.sourceLocator.Withheld? {
        s := s.(withheldLocators := Bump(s.withheldLocators));
      }
    }
    assert evidence[..|evidence|] == evidence;
  }

  lemma NothingCounted()
    ensures Counts([]) == Summary(0, 0, 0, 0, 0, 0, 0, 0)
  {
  }

  /** Every node is counted under exactly one kind. */
  lemma {:induction false} KindsPartitionTheEvidence(evidence: seq<Entry>)
    ensures |evidence| == Count(evidence, IsClaim) + Count(evidence, IsObservation) + Count(evidence, IsAttestation)
                          + Count(evidence, IsGap) + Count(evidence, IsCounterclaim) + Count(evidence, IsContradiction)
                          + Count(evidence, IsCustody)
  {
    if evidence != [] { KindsPartitionTheEvidence(evidence[..|evidence| - 1]); }
  }

  /** With fewer than 2^32 nodes the counters are exact, so a counter is positive exactly when such a node exists. */
  lemma CountersAreExact(evidence: seq<Entry>, p: EvidenceNode -> bool)
    requires |evidence| < 0x1_0000_0000
    ensures CountMod(evidence, p) == Count(evidence, p)
    ensures CountMod(evidence, p) > 0 <==> exists i :: 0 <= i < |evidence| && p(evidence[i].node)
  {
    hide Count;
    CountIsPositive(evidence, p);
  }
}
