/**
  Evidence graphs: the bounded depth-first check and the global facts it establishes
  (csv-accountability/src/evidence.rs).
 */
module EvidenceGraph {
  import opened Bytes
  import opened Hashing
  import opened Evidence

  const MAX_EVIDENCE_NODES: nat := 1024
  const MAX_EVIDENCE_DEPTH: nat := 64

  datatype Entry = Entry(id: Digest, node: EvidenceNode)

  datatype GraphError =
    | BoundsExceeded
    | DuplicateIdentifier
    | Cycle
    | MissingRelationship
    | InvalidNode
    | IdentifierMismatch
    | InvalidRelationshipSemantics

  // ---- The graph, declaratively -------------------------------------------------

  /** The first position carrying `id`. */
  function Position(nodes: seq<Entry>, id: Digest): (r: Option<nat>)
    ensures r.Some? ==> r.value < |nodes| && nodes[r.value].id == id
    ensures r.Some? ==> forall j :: 0 <= j < r.value ==> nodes[j].id != id
    ensures r.None? ==> forall j :: 0 <= j < |nodes| ==> nodes[j].id != id
  {
    if nodes == [] then None
    else
      var last := |nodes| - 1;
      var earlier := Position(nodes[..last], id);
      if earlier.Some? then earlier
      else if nodes[last].id == id then Some(last)
      else None
  }

  predicate UniqueIds(nodes: seq<Entry>)
  {
    forall i, j :: 0 <= i < j < |nodes| ==> nodes[i].id != nodes[j].id
  }

  predicate Resolves(nodes: seq<Entry>)
  {
    forall i, k :: 0 <= i < |nodes| && 0 <= k < |nodes[i].node.relationships| ==>
      Position(nodes, nodes[i].node.relationships[k]).Some?
  }

  predicate Edge(nodes: seq<Entry>, i: nat, j: nat)
  {
    i < |nodes| && exists k :: 0 <= k < |nodes[i].node.relationships|
                             && Position(nodes, nodes[i].node.relationships[k]) == Some(j)
  }

  /** A nonempty sequence of node positions, each related to the next. */
  predicate Walk(nodes: seq<Entry>, w: seq<nat>)
  {
    w != [] && w[0] < |nodes| && forall k :: 0 < k < |w| ==> Edge(nodes, w[k - 1], w[k])
  }

  ghost predicate WalksBounded(nodes: seq<Entry>)
  {
    forall w :: Walk(nodes, w) ==> |w| - 1 <= MAX_EVIDENCE_DEPTH
  }

  ghost predicate Acyclic(nodes: seq<Entry>)
  {
    forall w :: Walk(nodes, w) && |w| > 1 ==> w[0] != w[|w| - 1]
  }

  /** The previous record of a custody record is a custody record of the same subject. */
  predicate CustodyLinked(nodes: seq<Entry>, kind: EvidenceKind)
  {
    kind.CustodyRecord? && kind.previousId.Some? ==>
      var p := Position(nodes, kind.previousId.value);
      p.Some? && nodes[p.value].node.kind.CustodyRecord? && nodes[p.value].node.kind.subjectId == kind.subjectId
  }

  /** What validation establishes before it looks at any node's content. */
  ghost predicate Structured(nodes: seq<Entry>)
  {
    |nodes| <= MAX_EVIDENCE_NODES && UniqueIds(nodes) && Resolves(nodes) && WalksBounded(nodes)
  }

  predicate Identified(h: Hashes, e: Entry)
  {
    ValidNode(e.node) && e.id == NodeId(h, e.node)
  }

  /** The first entry that is not a valid node under its own identifier. */
  predicate FirstFault(h: Hashes, nodes: seq<Entry>, i: nat)
  {
    i < |nodes| && !Identified(h, nodes[i]) && forall j :: 0 <= j < i ==> Identified(h, nodes[j])
  }

  /** There is a first fault, and it is in the node's content. */
  ghost predicate FirstFaultIsInvalid(h: Hashes, nodes: seq<Entry>)
  {
    exists i: nat :: FirstFault(h, nodes, i) && !ValidContent(nodes[i].node)
  }

  /** There is a first fault, and it is only in the number or order of the node's relationships. */
  ghost predicate FirstFaultIsUnbounded(h: Hashes, nodes: seq<Entry>)
  {
    exists i: nat :: FirstFault(h, nodes, i) && ValidContent(nodes[i].node) && !BoundedRelationships(nodes[i].node)
  }

  /** There is a first fault, and it is only in the identifier. */
  ghost predicate FirstFaultIsMisnamed(h: Hashes, nodes: seq<Entry>)
  {
    exists i: nat :: FirstFault(h, nodes, i) && ValidNode(nodes[i].node)
  }

  lemma FirstFaultDecides(h: Hashes, nodes: seq<Entry>, i: nat)
    requires FirstFault(h, nodes, i)
    ensures FirstFaultIsInvalid(h, nodes) <==> !ValidContent(nodes[i].node)
    ensures FirstFaultIsUnbounded(h, nodes) <==> ValidContent(nodes[i].node) && !BoundedRelationships(nodes[i].node)
    ensures FirstFaultIsMisnamed(h, nodes) <==> ValidNode(nodes[i].node)
  {
    hide Identified, ValidContent, BoundedRelationships, ValidNode;
    assert forall k: nat :: FirstFault(h, nodes, k) ==> k == i;
  }

  lemma NoFault(h: Hashes, nodes: seq<Entry>)
    requires forall i :: 0 <= i < |nodes| ==> Identified(h, nodes[i])
    ensures !FirstFaultIsInvalid(h, nodes) && !FirstFaultIsUnbounded(h, nodes) && !FirstFaultIsMisnamed(h, nodes)
  {
    hide Identified, ValidContent, BoundedRelationships, ValidNode;
  }

  /** What an accepted graph is: small, uniquely and truthfully identified, closed, shallow. */
  ghost predicate ValidGraph(h: Hashes, nodes: seq<Entry>)
  {
    && Structured(nodes)
    && (forall i :: 0 <= i < |nodes| ==> Identified(h, nodes[i]))
    && (forall i :: 0 <= i < |nodes| ==> CustodyLinked(nodes, nodes[i].node.kind))
  }

  // ---- Walks ------------------------------------------------------------------

  lemma WalkNodes(nodes: seq<Entry>, w: seq<nat>)
    requires Walk(nodes, w)
    ensures forall k :: 0 <= k < |w| ==> w[k] < |nodes|
  {
    forall k | 0 < k < |w| ensures w[k] < |nodes| {
      assert Edge(nodes, w[k - 1], w[k]);
    }
  }

  /** A closed walk can be followed for any number of steps. */
  lemma {:induction false} RoundAndRound(nodes: seq<Entry>, w: seq<nat>, k: nat, steps: nat) returns (v: seq<nat>)
    requires Walk(nodes, w) && |w| > 1 && w[0] == w[|w| - 1] && k < |w|
    ensures Walk(nodes, v) && |v| - 1 == steps && v[0] == w[k]
    decreases steps
  {
    WalkNodes(nodes, w);
    if steps == 0 {
      v := [w[k]];
    } else {
      var at := if k == |w| - 1 then 0 else k;
      assert Edge(nodes, w[at], w[at + 1]);
      var rest := RoundAndRound(nodes, w, at + 1, steps - 1);
      v := [w[at]] + rest;
    }
  }

  /** Bounding every walk rules out cycles. */
  lemma BoundedWalksAreAcyclic(nodes: seq<Entry>)
    requires WalksBounded(nodes)
    ensures Acyclic(nodes)
  {
    forall w | Walk(nodes, w) && |w| > 1 ensures w[0] != w[|w| - 1] {
      if w[0] == w[|w| - 1] {
        var v := RoundAndRound(nodes, w, 0, MAX_EVIDENCE_DEPTH + 1);
        assert false;
      }
    }
  }

  lemma ExtendWalk(nodes: seq<Entry>, w: seq<nat>, k: nat, next: nat)
    requires Walk(nodes, w) && w[|w| - 1] < |nodes|
    requires k < |nodes[w[|w| - 1]].node.relationships|
    requires Position(nodes, nodes[w[|w| - 1]].node.relationships[k]) == Some(next)
    ensures Walk(nodes, w + [next])
  {
    assert Edge(nodes, w[|w| - 1], next);
  }

  lemma ClosedSuffix(nodes: seq<Entry>, path: seq<nat>, index: nat)
    requires Walk(nodes, path + [index]) && index in path
    ensures !Acyclic(nodes)
  {
    var k :| 0 <= k < |path| && path[k] == index;
    var w := path + [index];
    var loop := w[k..];
    forall m | 0 < m < |loop| ensures Edge(nodes, loop[m - 1], loop[m]) {
      assert Edge(nodes, w[k + m - 1], w[k + m]);
    }
    WalkNodes(nodes, w);
    assert Walk(nodes, loop);
  }

  // ---- What the depth-first search decides -------------------------------------

  /** The search below `index` with `path` on the stack succeeds. */
  predicate Explorable(nodes: seq<Entry>, index: nat, path: seq<nat>)
    requires index < |nodes|
    decreases if |path| > MAX_EVIDENCE_DEPTH then 0 else MAX_EVIDENCE_DEPTH + 1 - |path|
  {
    && |path| <= MAX_EVIDENCE_DEPTH
    && index !in path
    && forall k :: 0 <= k < |nodes[index].node.relationships| ==>
         var next := Position(nodes, nodes[index].node.relationships[k]);
         next.Some? && Explorable(nodes, next.value, path + [index])
  }

  /** A successful search follows every walk, so no walk is longer than the depth bound. */
  lemma {:induction false} ExplorableAlong(nodes: seq<Entry>, w: seq<nat>, m: nat)
    requires Walk(nodes, w) && m < |w| && Explorable(nodes, w[0], [])
    ensures w[m] < |nodes| && Explorable(nodes, w[m], w[..m])
  {
    if m > 0 {
      ExplorableAlong(nodes, w, m - 1);
      assert Edge(nodes, w[m - 1], w[m]);
      assert w[..m] == w[..m - 1] + [w[m - 1]];
    }
  }

  lemma {:induction false} BoundedIsExplorable(nodes: seq<Entry>, index: nat, path: seq<nat>)
    requires Resolves(nodes) && WalksBounded(nodes)
    requires index < |nodes| && Walk(nodes, path + [index])
    ensures Explorable(nodes, index, path)
    decreases MAX_EVIDENCE_DEPTH + 1 - |path|
  {
    var w := path + [index];
    assert |w| - 1 <= MAX_EVIDENCE_DEPTH;
    BoundedWalksAreAcyclic(nodes);
    if index in path { ClosedSuffix(nodes, path, index); }
    forall k | 0 <= k < |nodes[index].node.relationships|
      ensures var next := Position(nodes, nodes[index].node.relationships[k]);
              next.Some? && Explorable(nodes, next.value, path + [index])
    {
      var next := Position(nodes, nodes[index].node.relationships[k]).value;
      ExtendWalk(nodes, w, k, next);
      BoundedIsExplorable(nodes, next, w);
    }
  }

  predicate AllExplorable(nodes: seq<Entry>)
  {
    forall i :: 0 <= i < |nodes| ==> Explorable(nodes, i, [])
  }

  lemma ExplorableIsBounded(nodes: seq<Entry>)
    requires AllExplorable(nodes)
    ensures Resolves(nodes) && WalksBounded(nodes)
  {
    forall i, k | 0 <= i < |nodes| && 0 <= k < |nodes[i].node.relationships|
      ensures Position(nodes, nodes[i].node.relationships[k]).Some?
    {
      assert Explorable(nodes, i, []);
    }
    forall w | Walk(nodes, w) ensures |w| - 1 <= MAX_EVIDENCE_DEPTH {
      ExplorableAlong(nodes, w, |w| - 1);
    }
  }

  lemma BoundedIsAllExplorable(nodes: seq<Entry>)
    requires Resolves(nodes) && WalksBounded(nodes)
    ensures AllExplorable(nodes)
  {
    hide Resolves, WalksBounded, Explorable;
    forall i | 0 <= i < |nodes| ensures Explorable(nodes, i, []) {
      var start: seq<nat> := [];
      assert start + [i] == [i];
      BoundedIsExplorable(nodes, i, start);
    }
  }

  /** Searching from every node succeeds exactly when all edges resolve and all walks are short. */
  lemma SearchDecidesBoundedness(nodes: seq<Entry>)
    ensures AllExplorable(nodes) <==> Resolves(nodes) && WalksBounded(nodes)
  {
    hide AllExplorable, Resolves, WalksBounded;
    if AllExplorable(nodes) { ExplorableIsBounded(nodes); }
    if Resolves(nodes) && WalksBounded(nodes) { BoundedIsAllExplorable(nodes); }
  }

  // ---- The search ---------------------------------------------------------------

  class Search {
    var path: seq<nat>

    constructor ()
      ensures path == []
    {
      path := [];
    }

    /**
      Depth-first search on one shared path. Success restores the path; each failure
      names a real defect of the graph.
     */
    method Visit(nodes: seq<Entry>, index: nat, depth: nat) returns (r: Result<(), GraphError>)
      requires index < |nodes| && depth == |path| && Walk(nodes, path + [index])
      modifies this`path
      ensures r.Ok? <==> Explorable(nodes, index, old(path))
      ensures r.Ok? ==> path == old(path)
      ensures r.Err? ==> match r.error
                         case BoundsExceeded => !WalksBounded(nodes)
                         case Cycle => !Acyclic(nodes)
                         case MissingRelationship => !Resolves(nodes)
                         case _ => false
      decreases if depth > MAX_EVIDENCE_DEPTH then 0 else MAX_EVIDENCE_DEPTH + 1 - depth
    {
      if depth > MAX_EVIDENCE_DEPTH {
        return Err(BoundsExceeded);
      }
      if index in path {
        ClosedSuffix(nodes, path, index);
        return Err(Cycle);
      }
      path := path + [index];
      var relationships := nodes[index].node.relationships;
      for k := 0 to |relationships|
        invariant path == old(path) + [index]
        invariant forall m :: 0 <= m < k ==>
          var next := Position(nodes, relationships[m]);
          next.Some? && Explorable(nodes, next.value, old(path) + [index])
      {
        var next := Position(nodes, relationships[k]);
        if next.None? {
          return Err(MissingRelationship);
        }
        ExtendWalk(nodes, path, k, next.value);
        var below := Visit(nodes, next.value, depth + 1);
        if below.Err? {
          return below;
        }
      }
      path := path[..|path| - 1];
      return Ok(());
    }
  }

  method ValidateEvidenceGraph(h: Hashes, nodes: seq<Entry>) returns (r: Result<(), GraphError>)
    ensures r.Ok? <==> ValidGraph(h, nodes)
    ensures r == Err(Cycle) ==> !Acyclic(nodes)
    ensures r == Err(MissingRelationship) ==> !Resolves(nodes)
    ensures r == Err(BoundsExceeded) ==>
              |nodes| > MAX_EVIDENCE_NODES || !WalksBounded(nodes) || FirstFaultIsUnbounded(h, nodes)
    ensures Structured(nodes) ==> (r == Err(BoundsExceeded) <==> FirstFaultIsUnbounded(h, nodes))
    ensures r == Err(DuplicateIdentifier) <==> |nodes| <= MAX_EVIDENCE_NODES && !UniqueIds(nodes)
    ensures r in {Err(Cycle), Err(MissingRelationship), Err(BoundsExceeded)} <==>
              || |nodes| > MAX_EVIDENCE_NODES || (UniqueIds(nodes) && !Structured(nodes))
              || (Structured(nodes) && FirstFaultIsUnbounded(h, nodes))
    ensures r == Err(InvalidNode) <==> Structured(nodes) && FirstFaultIsInvalid(h, nodes)
    ensures r == Err(IdentifierMismatch) <==> Structured(nodes) && FirstFaultIsMisnamed(h, nodes)
    ensures r == Err(InvalidRelationshipSemantics) <==>
              && Structured(nodes) && (forall i :: 0 <= i < |nodes| ==> Identified(h, nodes[i]))
              && exists i :: 0 <= i < |nodes| && !CustodyLinked(nodes, nodes[i].node.kind)
  {
    hide ValidContent, BoundedRelationships, NodeId, Resolves, WalksBounded, UniqueIds, Acyclic, Position,
         FirstFaultIsInvalid, FirstFaultIsUnbounded, FirstFaultIsMisnamed;
    if |nodes| > MAX_EVIDENCE_NODES {
      return Err(BoundsExceeded);
    }
    var unique := HasUniqueIds(nodes);
    if !unique {
      return Err(DuplicateIdentifier);
    }
    r := SearchFromEveryNode(nodes);
    if r.Err? {
      return;
    }
    for i := 0 to |nodes|
      invariant forall j :: 0 <= j < i ==> Identified(h, nodes[j])
    {
      if !ValidContent(nodes[i].node) {
        FirstFaultDecides(h, nodes, i);
        return Err(InvalidNode);
      }
      if !BoundedRelationships(nodes[i].node) {
        FirstFaultDecides(h, nodes, i);
        return Err(BoundsExceeded);
      }
      if nodes[i].id != NodeId(h, nodes[i].node) {
        FirstFaultDecides(h, nodes, i);
        return Err(IdentifierMismatch);
      }
    }
    NoFault(h, nodes);
    for i := 0 to |nodes|
      invariant forall j :: 0 <= j < i ==> CustodyLinked(nodes, nodes[j].node.kind)
    {
      var kind := nodes[i].node.kind;
      if kind.CustodyRecord? && kind.previousId.Some? {
        ValidNodeKind(nodes[i].node);
        PreviousResolves(nodes, i);
        var p := Position(nodes, kind.previousId.value);
        var previous := nodes[p.value].node.kind;
        if !(previous.CustodyRecord? && previous.subjectId == kind.subjectId) {
          return Err(InvalidRelationshipSemantics);
        }
      }
    }
    return Ok(());
  }

  method HasUniqueIds(nodes: seq<Entry>) returns (unique: bool)
    ensures unique <==> UniqueIds(nodes)
  {
    for i := 0 to |nodes|
      invariant forall a, b :: 0 <= a < i && a < b < |nodes| ==> nodes[a].id != nodes[b].id
    {
      if exists j :: i < j < |nodes| && nodes[j].id == nodes[i].id {
        return false;
      }
    }
    return true;
  }

  method SearchFromEveryNode(nodes: seq<Entry>) returns (r: Result<(), GraphError>)
    ensures r.Ok? <==> Resolves(nodes) && WalksBounded(nodes)
    ensures r.Err? ==> match r.error
                       case BoundsExceeded => !WalksBounded(nodes)
                       case Cycle => !Acyclic(nodes)
                       case MissingRelationship => !Resolves(nodes)
                       case _ => false
  {
    SearchDecidesBoundedness(nodes);
    for i := 0 to |nodes|
      invariant forall j :: 0 <= j < i ==> Explorable(nodes, j, [])
    {
      var search := new Search();
      r := search.Visit(nodes, i, 0);
      if r.Err? {
        return;
      }
    }
    return Ok(());
  }

  lemma ValidNodeKind(n: EvidenceNode)
    requires ValidNode(n)
    ensures ValidKind(n)
  {}

  lemma PreviousIsRelated(n: EvidenceNode)
    requires ValidKind(n) && n.kind.CustodyRecord? && n.kind.previousId.Some?
    ensures n.kind.previousId.value in n.relationships
  {}

  /** A valid custody record lists its predecessor among its relationships. */
  lemma PreviousResolves(nodes: seq<Entry>, i: nat)
    requires Resolves(nodes) && i < |nodes| && ValidKind(nodes[i].node)
    requires nodes[i].node.kind.CustodyRecord? && nodes[i].node.kind.previousId.Some?
    ensures var p := Position(nodes, nodes[i].node.kind.previousId.value); p.Some? && Edge(nodes, i, p.value)
  {
    hide Position;
    PreviousIsRelated(nodes[i].node);
    var n := nodes[i].node;
    var k :| 0 <= k < |n.relationships| && n.relationships[k] == n.kind.previousId.value;
    assert Position(nodes, n.relationships[k]).Some?;
  }

  // ---- Custody chains ------------------------------------------------------------

  /** The k-th record of a chain is the previous one of the record before it. */
  predicate StepsBack(nodes: seq<Entry>, c: seq<nat>, k: nat)
  {
    && 0 < k < |c| && c[k - 1] < |nodes| && c[k] < |nodes|
    && nodes[c[k - 1]].node.kind.CustodyRecord? && nodes[c[k - 1]].node.kind.previousId == Some(nodes[c[k]].id)
  }

  /** Records from position `c[0]` back to a first record, all about one subject. */
  predicate CustodyChain(nodes: seq<Entry>, c: seq<nat>)
  {
    && c != []
    && (forall k :: 0 <= k < |c| ==> c[k] < |nodes| && nodes[c[k]].node.kind.CustodyRecord?)
    && (forall k :: 0 <= k < |c| ==> nodes[c[k]].node.kind.subjectId == nodes[c[0]].node.kind.subjectId)
    && (forall k :: 0 < k < |c| ==> StepsBack(nodes, c, k))
  }

  predicate FirstRecord(nodes: seq<Entry>, i: nat)
  {
    i < |nodes| && nodes[i].node.kind.CustodyRecord? && nodes[i].node.kind.previousId.None?
  }

  lemma PreviousRecord(nodes: seq<Entry>, i: nat) returns (p: nat)
    requires Resolves(nodes) && i < |nodes| && ValidNode(nodes[i].node) && CustodyLinked(nodes, nodes[i].node.kind)
    requires nodes[i].node.kind.CustodyRecord? && nodes[i].node.kind.previousId.Some?
    ensures Edge(nodes, i, p) && p < |nodes| && nodes[i].node.kind.previousId == Some(nodes[p].id)
    ensures nodes[p].node.kind.CustodyRecord? && nodes[p].node.kind.subjectId == nodes[i].node.kind.subjectId
  {
    hide ValidNode, ValidKind;
    ValidNodeKind(nodes[i].node);
    PreviousResolves(nodes, i);
    p := Position(nodes, nodes[i].node.kind.previousId.value).value;
  }

  lemma ExtendCustody(nodes: seq<Entry>, c: seq<nat>, p: nat)
    requires CustodyChain(nodes, c) && p < |nodes| && nodes[p].node.kind.CustodyRecord?
    requires nodes[c[|c| - 1]].node.kind.previousId == Some(nodes[p].id)
    requires nodes[p].node.kind.subjectId == nodes[c[|c| - 1]].node.kind.subjectId
    ensures CustodyChain(nodes, c + [p])
  {
    var d := c + [p];
    forall k | 0 < k < |d|
      ensures StepsBack(nodes, d, k)
    {
      if k < |c| { assert StepsBack(nodes, c, k); }
    }
  }

  lemma {:induction false} FollowCustody(h: Hashes, nodes: seq<Entry>, c: seq<nat>) returns (d: seq<nat>)
    requires ValidGraph(h, nodes) && CustodyChain(nodes, c) && Walk(nodes, c)
    ensures CustodyChain(nodes, d) && Walk(nodes, d) && d[0] == c[0] && FirstRecord(nodes, d[|d| - 1])
    decreases MAX_EVIDENCE_DEPTH + 1 - |c|
  {
    hide ValidNode, NodeId, UniqueIds, Position, Edge, Resolves, CustodyLinked, StepsBack;
    var last := c[|c| - 1];
    if FirstRecord(nodes, last) {
      d := c;
    } else {
      var p := PreviousRecord(nodes, last);
      ExtendCustody(nodes, c, p);
      d := FollowCustody(h, nodes, c + [p]);
    }
  }

  /**
    In an accepted graph, following previous custody records from any record stays on one
    subject and reaches a first record within the depth bound.
   */
  lemma CustodyReachesAFirstRecord(h: Hashes, nodes: seq<Entry>, i: nat)
    requires ValidGraph(h, nodes) && i < |nodes| && nodes[i].node.kind.CustodyRecord?
    ensures exists c ::
              && CustodyChain(nodes, c) && c[0] == i
              && FirstRecord(nodes, c[|c| - 1]) && |c| - 1 <= MAX_EVIDENCE_DEPTH
  {
    hide ValidNode, NodeId, UniqueIds, Resolves, CustodyLinked;
    var c := FollowCustody(h, nodes, [i]);
    assert CustodyChain(nodes, c);
  }
}
