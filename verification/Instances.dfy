/**
  Instances of the objects the theorems speak about: a delegation tree of two links, a custody
  chain of two records, a renewal chain of two generations, a journal behind a receipt, and a
  strict gate with a report it admits.
 */
module Instances {
  import opened Bytes
  import opened Text
  import opened Hashing
  import opened Mandate
  import opened ValidCase
  import MS = MandateState
  import X = Execution
  import R = Receipt
  import I = Intent
  import E = Evidence
  import G = EvidenceGraph
  import Auth = Authority
  import AuthEval = AuthorityEvaluation
  import P = Preservation
  import PA = PreservationAssessment
  import St = Stages
  import V = Verifier
  import A = Assurance
  import AP = AssuranceProjection
  import S = EvidenceSummary

  const TWO: Digest := [2, 0, 0, 0, 0, 0, 0, 0, 0, 0, 0, 0, 0, 0, 0, 0,
                        0, 0, 0, 0, 0, 0, 0, 0, 0, 0, 0, 0, 0, 0, 0, 0]

  const THREE: Digest := [3, 0, 0, 0, 0, 0, 0, 0, 0, 0, 0, 0, 0, 0, 0, 0,
                          0, 0, 0, 0, 0, 0, 0, 0, 0, 0, 0, 0, 0, 0, 0, 0]

  lemma DigestsDiffer()
    ensures ZERO !in {ONE, TWO, THREE} && ONE !in {TWO, THREE} && TWO != THREE && Less(ONE, TWO)
  {
    assert ZERO[0] == 0 && ONE[0] == 1 && TWO[0] == 2 && THREE[0] == 3;
  }

  // ---- Two links ---------------------------------------------------------------------------

  function Root(): Auth.Link
  {
    Auth.Link(ONE, None, [1], [2], [3], 0, 9, ONE, Auth.Verified)
  }

  function Child(): Auth.Link
  {
    Auth.Link(TWO, Some(ONE), [2], [4], [3], 1, 5, ONE, Auth.Verified)
  }

  function TwoLinks(): Auth.Reconstruction
  {
    Auth.Reconstruction(Auth.AUTHORITY_REGISTRY_ID(), 2, ONE, Auth.Verified, Auth.Complete, NAME, [Root(), Child()], [])
  }

  lemma TwoLinksAreATree()
    ensures AuthEval.DelegationTree([Root(), Child()], 2, 0)
  {
    hide AuthEval.DelegationTree;
    DigestsDiffer();
    var links := [Root(), Child()];
    assert AuthEval.UniqueIds(links) && AuthEval.OneRoot(links, 0);
    AuthEval.FindIsTheOne(links, 0);
    AuthEval.FindIsTheOne(links, 1);
    assert AuthEval.Ancestor(links, ONE, 1).None? by { assert AuthEval.Ancestor(links, ONE, 0) == Some(ONE); }
    assert AuthEval.Ancestor(links, TWO, 1) == Some(ONE) by { assert AuthEval.Ancestor(links, TWO, 0) == Some(TWO); }
    assert AuthEval.Ancestor(links, TWO, 2).None?;
    assert AuthEval.Sound(links, 0) && AuthEval.Sound(links, 1);
    AuthEval.LocalSoundnessIsATree(links, 2, 0);
  }

  /** A root and its delegate are judged compatible. */
  lemma TwoLinksAreCompatible()
    ensures AuthEval.Credible(TwoLinks()) && AuthEval.Endorsed(TwoLinks())
  {
    hide Auth.AUTHORITY_REGISTRY_ID, Printable, AuthEval.DelegationTree, Utf8;
    NameIsFine();
    DigestsDiffer();
    TwoLinksAreATree();
  }

  // ---- Two custody records ------------------------------------------------------------------

  function Node(kind: E.EvidenceKind, relationships: seq<Digest>): E.EvidenceNode
  {
    E.EvidenceNode(kind, [1], 0, None, ONE, NAME, E.Disclosed(NAME), None, NAME, relationships)
  }

  function Subject(): E.EvidenceNode { Node(E.Claim(ONE), []) }

  function FirstCustody(): E.EvidenceNode { Node(E.CustodyRecord(ONE, None, [1]), [ONE]) }

  function SecondCustody(): E.EvidenceNode { Node(E.CustodyRecord(ONE, Some(TWO), [1]), [ONE, TWO]) }

  /** A hash that gives two chosen inputs their own digests. */
  function Separating(a: Bytes, b: Bytes): Hashes
  {
    Hashes((_, s) => if s == a then ONE else if s == b then TWO else THREE, _ => ZERO)
  }

  function CustodyHashes(): Hashes { Separating(E.NodeBytes(Subject()), E.NodeBytes(FirstCustody())) }

  function CustodyGraph(): seq<G.Entry>
  {
    [G.Entry(ONE, Subject()), G.Entry(TWO, FirstCustody()), G.Entry(THREE, SecondCustody())]
  }

  lemma CustodyNodesAreValid()
    ensures E.ValidNode(Subject()) && E.ValidNode(FirstCustody()) && E.ValidNode(SecondCustody())
  {
    hide Printable, RegisteredId, Utf8;
    NameIsFine();
    DigestsDiffer();
  }

  lemma CustodyIdentifiers()
    ensures var h := CustodyHashes();
            E.NodeId(h, Subject()) == ONE && E.NodeId(h, FirstCustody()) == TWO && E.NodeId(h, SecondCustody()) == THREE
  {
    hide E.NodeBytes, E.NodeFromBytes, E.ValidNode;
    CustodyNodesAreValid();
    E.NodeRoundTrip(Subject());
    E.NodeRoundTrip(FirstCustody());
    E.NodeRoundTrip(SecondCustody());
    assert Subject().kind != FirstCustody().kind && SecondCustody().kind != FirstCustody().kind &&
        Subject().kind != SecondCustody().kind;
  }

  lemma {:induction false} WalksDescend(nodes: seq<G.Entry>, w: seq<nat>, k: nat)
    requires forall i, j :: G.Edge(nodes, i, j) ==> j < i
    requires G.Walk(nodes, w) && k < |w|
    ensures w[k] + k <= w[0]
  {
    hide G.Edge;
    if k > 0 {
      WalksDescend(nodes, w, k - 1);
      assert G.Edge(nodes, w[k - 1], w[k]);
    }
  }

  lemma CustodyPositions()
    ensures G.Position(CustodyGraph(), ONE) == Some(0) && G.Position(CustodyGraph(), TWO) == Some(1)
  {
    hide G.Position, Subject, FirstCustody, SecondCustody;
    DigestsDiffer();
    var nodes := CustodyGraph();
    assert nodes[0].id == ONE && nodes[1].id == TWO && nodes[2].id == THREE;
  }

  lemma DescentIsBounded(nodes: seq<G.Entry>)
    requires forall i, j :: G.Edge(nodes, i, j) ==> j < i
    requires |nodes| <= 64
    ensures G.WalksBounded(nodes)
  {
    hide G.Edge, G.Walk;
    forall w | G.Walk(nodes, w) ensures |w| <= 64 {
      WalkStarts(nodes, w);
      WalksDescend(nodes, w, |w| - 1);
    }
  }

  lemma WalkStarts(nodes: seq<G.Entry>, w: seq<nat>)
    requires G.Walk(nodes, w)
    ensures w != [] && w[0] < |nodes|
  {
  }

  lemma CustodyRelationships(i: nat, k: nat)
    requires i < 3 && k < |CustodyGraph()[i].node.relationships|
    ensures var p := G.Position(CustodyGraph(), CustodyGraph()[i].node.relationships[k]); p.Some? && p.value < i
  {
    hide G.Position, Utf8;
    CustodyPositions();
  }

  lemma CustodyEdges()
    ensures G.Resolves(CustodyGraph()) && forall i, j :: G.Edge(CustodyGraph(), i, j) ==> j < i
  {
    hide G.Position, Subject, FirstCustody, SecondCustody, Utf8;
    var nodes := CustodyGraph();
    forall i: nat, k: nat | i < |nodes| && k < |nodes[i].node.relationships|
      ensures var p := G.Position(nodes, nodes[i].node.relationships[k]); p.Some? && p.value < i
    {
      CustodyRelationships(i, k);
    }
  }

  lemma CustodyIsStructured()
    ensures G.Structured(CustodyGraph())
  {
    hide G.Position, G.Edge, G.Resolves, G.WalksBounded, Subject, FirstCustody, SecondCustody, Utf8;
    DigestsDiffer();
    CustodyEdges();
    DescentIsBounded(CustodyGraph());
  }

  lemma CustodyIsLinked()
    ensures G.CustodyLinked(CustodyGraph(), SecondCustody().kind)
    ensures G.StepsBack(CustodyGraph(), [2, 1], 1)
  {
    hide G.Position, Utf8;
    CustodyPositions();
  }

  /** Some accepted graph has a custody record with an earlier one behind it. */
  lemma ACustodyChainIsPossible()
    ensures G.ValidGraph(CustodyHashes(), CustodyGraph())
    ensures CustodyGraph()[2].node.kind.CustodyRecord? && !G.FirstRecord(CustodyGraph(), 2)
  {
    hide E.ValidNode, E.NodeId, G.Position, G.Structured, CustodyHashes, Utf8;
    CustodyIsStructured();
    CustodyIsLinked();
    CustodyNodesAreValid();
    CustodyIdentifiers();
  }

  // ---- Two generations -------------------------------------------------------------------------

  function Original(): P.Envelope { P.Envelope(OBJECT_VERSION, NAME, [1], [NAME], 1, None, ONE) }

  function Renewal(): P.Envelope { P.Envelope(OBJECT_VERSION, NAME, [1], [NAME], 2, Some(ONE), ONE) }

  function RenewalHashes(): Hashes { Separating(P.EnvelopeBytes(Original()), P.EnvelopeBytes(Renewal())) }

  function TwoGenerations(): seq<P.Generation> { [P.Generation(ONE, Original()), P.Generation(TWO, Renewal())] }

  lemma EnvelopesAreValid()
    ensures P.ValidEnvelope(Original()) && P.ValidEnvelope(Renewal())
  {
    hide RegisteredId, Utf8;
    NameIsFine();
  }

  lemma RenewalIdentifiers()
    ensures P.EnvelopeId(RenewalHashes(), Original()) == ONE && P.EnvelopeId(RenewalHashes(), Renewal()) == TWO
  {
    hide P.EnvelopeBytes, P.EnvelopeFromBytes, P.ValidEnvelope;
    EnvelopesAreValid();
    P.PreservationRoundTrip(Original());
    P.PreservationRoundTrip(Renewal());
    assert Original().preservedAt != Renewal().preservedAt;
  }

  /** Some renewed object passes the preservation stage. */
  lemma APassingRenewalIsPossible()
    ensures var assessed, policy :=
        [St.Assessment(ONE, St.Verified), St.Assessment(TWO, St.Verified)], [PA.AlgorithmEntry(NAME, PA.Allowed)];
            && PA.WellFormed(RenewalHashes(), TwoGenerations(), assessed, policy)
            && PA.AllVerified(TwoGenerations(), assessed)
            && PA.AllAllowed(Renewal().algorithmIds, policy)
  {
    hide P.EnvelopeId, P.ValidEnvelope, RegisteredId, RenewalHashes, Utf8;
    NameIsFine();
    DigestsDiffer();
    EnvelopesAreValid();
    RenewalIdentifiers();
    var assessed := [St.Assessment(ONE, St.Verified), St.Assessment(TWO, St.Verified)];
    assert assessed[1..] == [St.Assessment(TWO, St.Verified)];
    assert St.Conclusion(assessed[1..], TWO) == Some(St.Verified);
  }

  // ---- A journal behind a receipt -----------------------------------------------------------------

  function Journal(id: Digest): seq<MS.JournalEntry>
  {
    [MS.JournalEntry(id, 0, 1, MS.Proposed, MS.Issued, None, 0, MS.BEFORE_DISPATCH),
     MS.JournalEntry(id, 1, 2, MS.Issued, MS.Reserved, Some(MS.Prepared), 0, MS.BEFORE_DISPATCH),
     MS.JournalEntry(id, 2, 3, MS.Reserved, MS.Consumed, Some(MS.Accepted), 0,
         MS.Context(MS.AcceptedByProvider, MS.Never, None))]
  }

  lemma JournalIsAccepted(id: Digest)
    ensures MS.AcceptedJournal(id, MS.Proposed, 0, Journal(id))
  {
  }

  /** Some valid receipt reports an attempt whose state ends an accepted journal. */
  lemma AJournalledReceiptIsPossible(h: Hashes, intentId: Digest)
    ensures var m := TheMandate(intentId, AT_ONCE);
            var a := TheAttempt(h, m, AT_ONCE);
            && R.ValidReceipt(h, TheReceipt(h, a, AT_ONCE), m, a)
            && MS.AcceptedJournal(a.mandateId, MS.Proposed, 0, Journal(a.mandateId))
            && Journal(a.mandateId)[2].attempt == Some(a.state)
  {
    hide R.ValidReceipt, ValidMandate, MandateId, MS.AcceptedJournal, X.ValidAttempt, Utf8;
    var m := TheMandate(intentId, AT_ONCE);
    MandateIsValid(intentId, AT_ONCE);
    AttemptIsValid(h, m, AT_ONCE);
    ReceiptIsValid(h, m, TheAttempt(h, m, AT_ONCE), AT_ONCE);
    JournalIsAccepted(TheAttempt(h, m, AT_ONCE).mandateId);
  }

  // ---- A strict gate ----------------------------------------------------------------------------------

  function StrictGate(): A.Gate
  {
    A.Gate(NAME, 1, seq(|A.DIMENSIONS|,
        i requires 0 <= i < |A.DIMENSIONS| => A.Rule(A.DIMENSIONS[i], A.Allow, A.Block, A.Block, A.Allow)))
  }

  /** The most severe handling exists for every gate and profile. */
  lemma SomeOutcomeIsMostSevere(g: A.Gate, p: A.Profile, n: nat) returns (outcome: A.Outcome)
    requires n <= |g.rules| && n <= |p.dimensions|
    ensures A.MostSevere(g, p, n, outcome)
  {
    outcome := if A.SomeHandled(g, p, n, A.Block) then A.Blocked
               else if A.SomeHandled(g, p, n, A.Attention) then A.AttentionRequired else A.Pass;
  }

  /** Some report of the verifier is valid. */
  lemma AValidReportIsPossible(h: Hashes, i: I.ActionIntent) returns (report: V.Report)
    requires I.ValidIntent(i)
    ensures V.Complete(report) && report.verdict == V.Valid
  {
    hide V.StageList, V.Overall, V.Accountable, V.Preserved, S.Counts, I.ValidIntent, TheInput;
    var x := TheInput(h, i, AT_ONCE);
    var absent := St.Unsupported(St.PreservationEvidenceAbsent);
    EveryValidIntentCanBeVindicated(h, i, AT_ONCE, 0);
    NothingPreserved(h, i);
    V.TwelveStages(h, x, 0, absent);
    V.StageListIsInOrder(h, x, 0, absent);
    var stages := V.StageList(h, x, 0, absent);
    report := V.Report(V.Overall(stages), stages, S.Counts(x.evidence), 0, ZERO, ZERO);
  }

  lemma NothingPreserved(h: Hashes, i: I.ActionIntent)
    ensures V.Preserved(h, TheInput(h, i, AT_ONCE))
  {
    hide TheMandate, TheAttempt, TheReceipt, TheGraph;
  }

  lemma StrictGateIsStrict()
    ensures A.ValidGate(StrictGate()) && AP.Strict(StrictGate()) && AP.Lenient(StrictGate())
  {
    hide Utf8;
  }

  /** A gate that blocks every unmet and undecided dimension, and nothing else, admits every valid report. */
  lemma AStrictGateAdmitsValidReports(contextId: Digest, report: V.Report) returns (outcome: A.Outcome)
    requires V.Complete(report) && report.verdict == V.Valid
    ensures A.ValidGate(StrictGate()) && AP.Strict(StrictGate())
    ensures A.MostSevere(StrictGate(), AP.AssuranceProfile(contextId, report), |A.DIMENSIONS|, outcome) &&
        outcome != A.Blocked
  {
    hide V.Complete, AP.AssuranceProfile, A.MostSevere, StrictGate, AP.Strict, AP.Lenient;
    StrictGateIsStrict();
    outcome := SomeOutcomeIsMostSevere(StrictGate(), AP.AssuranceProfile(contextId, report), |A.DIMENSIONS|);
    AP.StrictGatesAdmitOnlyValidReports(StrictGate(), contextId, report, outcome);
  }
}
