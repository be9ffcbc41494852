/**
  Evaluation of a historical authority reconstruction
  (csv-accountability-verify/src/lib.rs). The evaluator checks each link against its
  parent; `CompatibleIsADelegationTree` states what that means for the whole set.
 */
module AuthorityEvaluation {
  import opened Bytes
  import opened Authority

  datatype Conclusion = Compatible | Incompatible | Indeterminate

  datatype Reason =
    | ChainCompatible | SourceIncomplete | AuthenticityUnknown | AuthenticityRejected | ParentMissing | Cycle
    | ConflictingParents | ConflictingRoots | DelegationMismatch | ContradictionPresent | MalformedReconstruction

  datatype Evaluation = Evaluation(conclusion: Conclusion, reason: Reason)

  // ---- Walking to the parents --------------------------------------------------------

  /** The first link with an identifier. */
  function Find(links: seq<Link>, id: Digest): (r: Option<nat>)
    ensures r.Some? ==> r.value < |links| && links[r.value].mandateId == id
    ensures r.None? <==> forall i :: 0 <= i < |links| ==> links[i].mandateId != id
  {
    if links == [] then None
    else if links[0].mandateId == id then Some(0)
    else
      match Find(links[1..], id)
      case Some(i) => Some(i + 1)
      case None => None
  }

  function ParentOf(links: seq<Link>, id: Digest): Option<Digest>
  {
    match Find(links, id)
    case Some(i) => links[i].parent
    case None => None
  }

  /** The identifier `k` parents above `id`. */
  function Ancestor(links: seq<Link>, id: Digest, k: nat): Option<Digest>
  {
    if k == 0 then Some(id)
    else
      match Ancestor(links, id, k - 1)
      case Some(a) => ParentOf(links, a)
      case None => None
  }

  ghost predicate NeverEnds(links: seq<Link>, id: Digest)
  {
    forall k: nat :: Ancestor(links, id, k).Some?
  }

  ghost predicate Cyclic(links: seq<Link>)
  {
    exists i :: 0 <= i < |links| && NeverEnds(links, links[i].mandateId)
  }

  lemma {:induction false} LowerAncestorsExist(links: seq<Link>, id: Digest, j: nat, k: nat)
    requires j <= k && Ancestor(links, id, k).Some?
    ensures Ancestor(links, id, j).Some?
    decreases k
  {
    if j < k { LowerAncestorsExist(links, id, j, k - 1); }
  }

  lemma {:induction false} EqualAncestorsContinueEqually(links: seq<Link>, id: Digest, i: nat, j: nat, k: nat)
    requires Ancestor(links, id, i) == Ancestor(links, id, j)
    ensures Ancestor(links, id, i + k) == Ancestor(links, id, j + k)
  {
    hide ParentOf;
    if k > 0 { EqualAncestorsContinueEqually(links, id, i, j, k - 1); }
  }

  /** A walk that repeats an identifier never reaches a root. */
  lemma {:induction false} RepetitionNeverEnds(links: seq<Link>, id: Digest, i: nat, j: nat, k: nat)
    requires i < j && Ancestor(links, id, i) == Ancestor(links, id, j) && Ancestor(links, id, j).Some?
    ensures Ancestor(links, id, k).Some?
  {
    hide Ancestor;
    if k <= j {
      LowerAncestorsExist(links, id, k, j);
    } else {
      EqualAncestorsContinueEqually(links, id, i, j, k - j);
      RepetitionNeverEnds(links, id, i, j, k - (j - i));
    }
  }

  function Ids(links: seq<Link>): set<Digest>
  {
    set i | 0 <= i < |links| :: links[i].mandateId
  }

  predicate Distinct(s: seq<Digest>)
  {
    forall i, j :: 0 <= i < j < |s| ==> s[i] != s[j]
  }

  lemma UndisclosedHasNoParent(links: seq<Link>, id: Digest)
    requires id !in Ids(links)
    ensures ParentOf(links, id).None?
  {
    hide Find;
  }

  /** The identifiers a walk has passed, in order. */
  ghost predicate Walked(links: seq<Link>, start: Digest, visited: seq<Digest>)
  {
    forall j :: 0 <= j < |visited| ==> Ancestor(links, start, j) == Some(visited[j])
  }

  lemma RepeatedVisit(links: seq<Link>, start: Digest, visited: seq<Digest>)
    requires Walked(links, start, visited)
    requires Ancestor(links, start, |visited|).Some? && Ancestor(links, start, |visited|).value in visited
    ensures NeverEnds(links, start)
  {
    hide Ancestor;
    var j :| 0 <= j < |visited| && visited[j] == Ancestor(links, start, |visited|).value;
    forall k: nat ensures Ancestor(links, start, k).Some? {
      RepetitionNeverEnds(links, start, j, |visited|, k);
    }
  }

  /** The parent walk from one link: it stops at a root, an undisclosed parent, or a repetition. */
  method RunsInACircle(links: seq<Link>, start: Digest) returns (circle: bool)
    ensures circle <==> NeverEnds(links, start)
  {
    hide ParentOf, Ids, Walked;
    var current := Some(start);
    var visited: seq<Digest> := [];
    ghost var unvisited := Ids(links);
    assert Walked(links, start, visited) by { NothingWalked(links, start); }
    while current.Some?
      invariant current == Ancestor(links, start, |visited|)
      invariant Walked(links, start, visited)
      invariant forall x :: x in Ids(links) ==> x in visited || x in unvisited
      decreases unvisited, current.Some?
    {
      var id := current.value;
      if id in visited {
        RepeatedVisit(links, start, visited);
        return true;
      }
      OneMoreWalked(links, start, visited);
      visited := visited + [id];
      current := ParentOf(links, id);
      if id in unvisited {
        unvisited := unvisited - {id};
      } else {
        UndisclosedHasNoParent(links, id);
      }
    }
    return false;
  }

  lemma NothingWalked(links: seq<Link>, start: Digest)
    ensures Walked(links, start, [])
  {
  }

  lemma OneMoreWalked(links: seq<Link>, start: Digest, visited: seq<Digest>)
    requires Walked(links, start, visited) && Ancestor(links, start, |visited|).Some?
    ensures Walked(links, start, visited + [Ancestor(links, start, |visited|).value])
  {
    hide Ancestor;
  }

  method HasCycle(links: seq<Link>) returns (r: bool)
    ensures r <==> Cyclic(links)
  {
    hide NeverEnds;
    for i := 0 to |links|
      invariant forall j :: 0 <= j < i ==> !NeverEnds(links, links[j].mandateId)
    {
      var circle := RunsInACircle(links, links[i].mandateId);
      if circle {
        return true;
      }
    }
    return false;
  }

  // ---- The evaluator's checks ------------------------------------------------------------

  predicate UniqueIds(links: seq<Link>)
  {
    forall i, j :: 0 <= i < j < |links| ==> links[i].mandateId != links[j].mandateId
  }

  predicate HasConflictingParents(links: seq<Link>)
  {
    exists i, j :: 0 <= i < j < |links| && links[j].mandateId == links[i].mandateId &&
        links[j].parent != links[i].parent
  }

  /** Canonical order excludes identical pairs, so no conflicting parents means unique identifiers. */
  lemma NoConflictIsUnique(links: seq<Link>)
    requires SortedLinks(links)
    ensures HasConflictingParents(links) <==> !UniqueIds(links)
  {
    if !UniqueIds(links) {
      var i, j :| 0 <= i < j < |links| && links[i].mandateId == links[j].mandateId;
      SortedLinksDiffer(links, i, j);
    }
  }

  function RootCount(links: seq<Link>): nat
  {
    if links == [] then 0
    else RootCount(links[..|links| - 1]) + (if links[|links| - 1].parent.None? then 1 else 0)
  }

  ghost predicate OneRoot(links: seq<Link>, root: nat)
  {
    root < |links| && forall i :: 0 <= i < |links| ==> (links[i].parent.None? <==> i == root)
  }

  lemma {:induction false} RootsCounted(links: seq<Link>)
    ensures RootCount(links) == 0 <==> forall i :: 0 <= i < |links| ==> links[i].parent.Some?
    ensures RootCount(links) == 1 <==> exists root :: OneRoot(links, root)
  {
    if links != [] {
      var front, last := links[..|links| - 1], |links| - 1;
      RootsCounted(front);
      if links[last].parent.None? {
        if RootCount(links) == 1 { assert OneRoot(links, last); }
        if root :| OneRoot(links, root) { assert root == last; }
      } else {
        if root :| OneRoot(front, root) { assert OneRoot(links, root); }
        if root :| OneRoot(links, root) { assert OneRoot(front, root); }
      }
    }
  }

  method CountRoots(links: seq<Link>) returns (n: nat)
    ensures n == RootCount(links)
  {
    n := 0;
    for i := 0 to |links|
      invariant n == RootCount(links[..i])
    {
      assert links[..i + 1][..i] == links[..i];
      if links[i].parent.None? {
        n := n + 1;
      }
    }
    assert links[..|links|] == links;
  }

  predicate Nested(link: Link, parent: Link)
  {
    parent.effectiveFrom <= link.effectiveFrom && link.effectiveUntil <= parent.effectiveUntil
  }

  predicate Delegates(parent: Link, link: Link)
  {
    && parent.subject == link.issuer
    && parent.domain == link.domain
    && Nested(link, parent)
    && parent.scopeDigest == link.scopeDigest
  }

  predicate InForce(links: seq<Link>, time: U64)
  {
    forall i :: 0 <= i < |links| ==> links[i].effectiveFrom <= time < links[i].effectiveUntil
  }

  predicate Sound(links: seq<Link>, i: nat)
    requires i < |links|
  {
    links[i].parent.Some? ==>
      var p := Find(links, links[i].parent.value);
      p.Some? && Delegates(links[p.value], links[i])
  }

  /** What the evaluator looks at: one link, or one link and its parent, at a time. */
  ghost predicate LocallySound(links: seq<Link>, time: U64)
  {
    && UniqueIds(links)
    && !Cyclic(links)
    && (exists root :: OneRoot(links, root))
    && InForce(links, time)
    && forall i :: 0 <= i < |links| ==> Sound(links, i)
  }

  // ---- The delegation tree -----------------------------------------------------------------

  ghost predicate Reaches(links: seq<Link>, i: nat, root: nat)
    requires i < |links| && root < |links|
  {
    exists k: nat :: k < |links| && Ancestor(links, links[i].mandateId, k) == Some(links[root].mandateId)
  }

  ghost predicate NestedInAncestors(links: seq<Link>, i: nat)
    requires i < |links|
  {
    forall j, k: nat | 0 <= j < |links| && Ancestor(links, links[i].mandateId, k) == Some(links[j].mandateId) ::
      Nested(links[i], links[j])
  }

  predicate IssuedByParent(links: seq<Link>, i: nat)
    requires i < |links|
  {
    links[i].parent.Some? ==>
      exists j :: 0 <= j < |links| && links[j].mandateId == links[i].parent.value && links[j].subject == links[i].issuer
  }

  /**
    One tree under one root: every link climbs to the root in fewer steps than there are
    links, holds the root's domain and scope, is in force and nested in every ancestor's
    interval, and was issued by its parent's subject.
   */
  ghost predicate DelegationTree(links: seq<Link>, time: U64, root: nat)
  {
    && UniqueIds(links)
    && root < |links| && links[root].parent.None?
    && InForce(links, time)
    && forall i :: 0 <= i < |links| ==>
         && Reaches(links, i, root)
         && links[i].domain == links[root].domain && links[i].scopeDigest == links[root].scopeDigest
         && NestedInAncestors(links, i)
         && IssuedByParent(links, i)
  }

  lemma FindIsTheOne(links: seq<Link>, i: nat)
    requires UniqueIds(links) && i < |links|
    ensures Find(links, links[i].mandateId) == Some(i)
  {
    hide Find;
  }

  /** Every ancestor is disclosed, and its domain, scope and interval carry down to the link. */
  lemma {:induction false} Climb(links: seq<Link>, time: U64, i: nat, k: nat)
    requires LocallySound(links, time) && i < |links| && Ancestor(links, links[i].mandateId, k).Some?
    ensures var f := Find(links, Ancestor(links, links[i].mandateId, k).value);
            && f.Some?
            && links[f.value].domain == links[i].domain
            && links[f.value].scopeDigest == links[i].scopeDigest
            && Nested(links[i], links[f.value])
  {
    hide Find, Cyclic, OneRoot, InForce;
    if k == 0 {
      FindIsTheOne(links, i);
    } else {
      LowerAncestorsExist(links, links[i].mandateId, k - 1, k);
      Climb(links, time, i, k - 1);
      var j := Find(links, Ancestor(links, links[i].mandateId, k - 1).value).value;
      assert Sound(links, j);
    }
  }

  /** Distinct identifiers drawn from the links are no more than the links. */
  lemma {:induction false} PigeonHole(s: seq<Digest>, ids: set<Digest>)
    requires Distinct(s) && forall i :: 0 <= i < |s| ==> s[i] in ids
    ensures |s| <= |ids|
  {
    if s != [] {
      var front, last := s[..|s| - 1], s[|s| - 1];
      PigeonHole(front, ids - {last});
    }
  }

  lemma {:induction false} FewIds(links: seq<Link>)
    ensures |Ids(links)| <= |links|
  {
    if links != [] {
      var front, last := links[..|links| - 1], |links| - 1;
      FewIds(front);
      assert Ids(links) == Ids(front) + {links[last].mandateId};
    } else {
      assert Ids(links) == {};
    }
  }

  /** The walk from a link ends, and its last identifier is the root's, fewer than `|links|` steps away. */
  lemma ClimbsToTheRoot(links: seq<Link>, time: U64, i: nat, root: nat)
    requires LocallySound(links, time) && i < |links| && OneRoot(links, root)
    ensures Reaches(links, i, root)
  {
    hide Find;
    var id := links[i].mandateId;
    assert !NeverEnds(links, id);
    var end: nat :| Ancestor(links, id, end).None?;
    var k := LastAncestor(links, id, end);
    var path := seq<Digest>(k + 1,
        j requires 0 <= j <= k => (LowerAncestorsExist(links, id, j, k); Ancestor(links, id, j).value));
    forall j | 0 <= j <= k
      ensures path[j] in Ids(links)
    {
      LowerAncestorsExist(links, id, j, k);
      Climb(links, time, i, j);
      var f := Find(links, path[j]).value;
      assert links[f].mandateId == path[j];
    }
    forall a, b | 0 <= a < b <= k
      ensures path[a] != path[b]
    {
      LowerAncestorsExist(links, id, a, k);
      LowerAncestorsExist(links, id, b, k);
      if path[a] == path[b] { RepetitionNeverEnds(links, id, a, b, end); }
    }
    PigeonHole(path, Ids(links));
    FewIds(links);
    Climb(links, time, i, k);
    var top := Find(links, Ancestor(links, id, k).value).value;
    assert links[top].parent.None?;
  }

  lemma {:induction false} LastAncestor(links: seq<Link>, id: Digest, end: nat) returns (k: nat)
    requires Ancestor(links, id, end).None?
    ensures k < end && Ancestor(links, id, k).Some? && Ancestor(links, id, k + 1).None?
  {
    hide Find;
    if Ancestor(links, id, end - 1).Some? { k := end - 1; } else { k := LastAncestor(links, id, end - 1); }
  }

  lemma LocalSoundnessIsATree(links: seq<Link>, time: U64, root: nat)
    requires LocallySound(links, time) && OneRoot(links, root)
    ensures DelegationTree(links, time, root)
  {
    hide Find, Cyclic;
    forall i | 0 <= i < |links|
      ensures Reaches(links, i, root)
      ensures links[i].domain == links[root].domain && links[i].scopeDigest == links[root].scopeDigest
      ensures NestedInAncestors(links, i)
      ensures IssuedByParent(links, i)
    {
      var id := links[i].mandateId;
      ClimbsToTheRoot(links, time, i, root);
      var k: nat :| k < |links| && Ancestor(links, id, k) == Some(links[root].mandateId);
      Climb(links, time, i, k);
      FindIsTheOne(links, root);
      forall j, k: nat | 0 <= j < |links| && Ancestor(links, id, k) == Some(links[j].mandateId)
        ensures Nested(links[i], links[j])
      {
        Climb(links, time, i, k);
        FindIsTheOne(links, j);
      }
      assert Sound(links, i);
    }
  }

  lemma TreeEndsAtTheRoot(links: seq<Link>, time: U64, root: nat, i: nat)
    requires DelegationTree(links, time, root) && i < |links|
    ensures !NeverEnds(links, links[i].mandateId)
    ensures links[i].parent.None? ==> i == root
  {
    hide Find;
    var id := links[i].mandateId;
    assert Reaches(links, i, root);
    var k: nat :| Ancestor(links, id, k) == Some(links[root].mandateId);
    FindIsTheOne(links, root);
    assert Ancestor(links, id, k + 1).None?;
    if links[i].parent.None? && k > 0 {
      FindIsTheOne(links, i);
      assert Ancestor(links, id, 0) == Some(id);
      LowerAncestorsExist(links, id, 1, k);
    }
  }

  lemma TreeIsSoundAt(links: seq<Link>, time: U64, root: nat, i: nat)
    requires DelegationTree(links, time, root) && i < |links|
    ensures Sound(links, i)
  {
    hide Find;
    if links[i].parent.Some? {
      assert IssuedByParent(links, i);
      var j :| 0 <= j < |links| && links[j].mandateId == links[i].parent.value && links[j].subject == links[i].issuer;
      FindIsTheOne(links, i);
      FindIsTheOne(links, j);
      assert Ancestor(links, links[i].mandateId, 0) == Some(links[i].mandateId);
      assert Ancestor(links, links[i].mandateId, 1) == Some(links[j].mandateId);
      assert NestedInAncestors(links, i);
    }
  }

  lemma TreeIsLocallySound(links: seq<Link>, time: U64, root: nat)
    requires DelegationTree(links, time, root)
    ensures LocallySound(links, time) && OneRoot(links, root)
  {
    hide Find, NeverEnds, Sound, Reaches, NestedInAncestors, IssuedByParent;
    forall i | 0 <= i < |links|
      ensures !NeverEnds(links, links[i].mandateId)
      ensures links[i].parent.None? ==> i == root
      ensures Sound(links, i)
    {
      TreeEndsAtTheRoot(links, time, root, i);
      TreeIsSoundAt(links, time, root, i);
    }
    assert OneRoot(links, root);
  }

  // ---- The evaluator ----------------------------------------------------------------------

  predicate AllAre(links: seq<Link>, a: Authentic)
  {
    forall i :: 0 <= i < |links| ==> links[i].authenticity == a
  }

  predicate SomeAre(links: seq<Link>, a: Authentic)
  {
    exists i :: 0 <= i < |links| && links[i].authenticity == a
  }

  /** The first link whose parent does not bear it out. */
  predicate FirstUnsound(links: seq<Link>, i: nat)
  {
    i < |links| && !Sound(links, i) && forall j :: 0 <= j < i ==> Sound(links, j)
  }

  /** There is such a link, and its parent is not disclosed. */
  ghost predicate FirstLacksItsParent(links: seq<Link>)
  {
    exists i: nat :: FirstUnsound(links, i) && links[i].parent.value !in Ids(links)
  }

  /** There is such a link, and its disclosed parent does not delegate it. */
  ghost predicate FirstExceedsItsParent(links: seq<Link>)
  {
    exists i: nat :: FirstUnsound(links, i) && links[i].parent.value in Ids(links)
  }

  lemma FirstUnsoundDecides(links: seq<Link>, i: nat)
    requires FirstUnsound(links, i)
    ensures FirstLacksItsParent(links) <==> links[i].parent.value !in Ids(links)
    ensures FirstExceedsItsParent(links) <==> links[i].parent.value in Ids(links)
  {
    hide Find, Ids;
    assert forall k: nat :: FirstUnsound(links, k) ==> k == i;
  }

  lemma AllSound(links: seq<Link>)
    requires forall i :: 0 <= i < |links| ==> Sound(links, i)
    ensures !FirstLacksItsParent(links) && !FirstExceedsItsParent(links)
  {
    hide Find, Ids;
  }

  method HasLapsed(links: seq<Link>, time: U64) returns (lapsed: bool)
    ensures lapsed <==> !InForce(links, time)
  {
    lapsed := exists i :: 0 <= i < |links| && (time < links[i].effectiveFrom || time >= links[i].effectiveUntil);
  }

  /** Each link against its parent, in order. */
  method CheckParents(links: seq<Link>) returns (r: Option<Reason>)
    ensures r.None? <==> forall i :: 0 <= i < |links| ==> Sound(links, i)
    ensures r == Some(ParentMissing) <==> FirstLacksItsParent(links)
    ensures r == Some(DelegationMismatch) <==> FirstExceedsItsParent(links)
    ensures r.Some? ==> r.value in {ParentMissing, DelegationMismatch}
  {
    hide Find, FirstLacksItsParent, FirstExceedsItsParent;
    for i := 0 to |links|
      invariant forall j :: 0 <= j < i ==> Sound(links, j)
    {
      var link := links[i];
      if link.parent.Some? {
        var p := Find(links, link.parent.value);
        if p.None? {
          FirstUnsoundDecides(links, i);
          return Some(ParentMissing);
        }
        var parent := links[p.value];
        if parent.subject != link.issuer
           || parent.domain != link.domain
           || link.effectiveFrom < parent.effectiveFrom
           || link.effectiveUntil > parent.effectiveUntil
           || parent.scopeDigest != link.scopeDigest
        {
          FirstUnsoundDecides(links, i);
          return Some(DelegationMismatch);
        }
      }
    }
    AllSound(links);
    return None;
  }

  ghost predicate Endorsed(r: Reconstruction)
  {
    && r.completeness == Complete
    && r.snapshotAuthenticity == Verified && AllAre(r.links, Verified)
    && r.contradictions == []
  }

  /** A well-formed set of links with one root and no cycle. */
  ghost predicate Rooted(r: Reconstruction)
  {
    ValidReconstruction(r) && UniqueIds(r.links) && !Cyclic(r.links) && exists root :: OneRoot(r.links, root)
  }

  predicate SomeRejected(r: Reconstruction) { r.snapshotAuthenticity == Rejected || SomeAre(r.links, Rejected) }

  predicate SomeUnknown(r: Reconstruction) { r.snapshotAuthenticity == Unknown || SomeAre(r.links, Unknown) }

  /** A delegation tree in force whose authenticity nobody rejected. */
  ghost predicate Credible(r: Reconstruction)
  {
    ValidReconstruction(r) && !SomeRejected(r) && exists root :: DelegationTree(r.links, r.evaluationTime, root)
  }

  /** Every reason is given exactly when its cause is the first to apply. */
  method Evaluate(r: Reconstruction) returns (e: Evaluation)
    ensures e.conclusion == Compatible <==> Credible(r) && Endorsed(r)
    ensures e.reason == ChainCompatible <==> e.conclusion == Compatible
    ensures e.conclusion == Indeterminate <==>
              e.reason in {ParentMissing, SourceIncomplete, AuthenticityUnknown, ContradictionPresent}
    ensures e.reason == MalformedReconstruction <==> !ValidReconstruction(r)
    ensures e.reason == ConflictingParents <==> ValidReconstruction(r) && !UniqueIds(r.links)
    ensures e.reason == Cycle <==> ValidReconstruction(r) && UniqueIds(r.links) && Cyclic(r.links)
    ensures e.reason == ConflictingRoots <==>
              ValidReconstruction(r) && UniqueIds(r.links) && !Cyclic(r.links) && !Rooted(r)
    ensures e.reason == AuthenticityRejected <==> Rooted(r) && SomeRejected(r)
    ensures e.reason == DelegationMismatch <==>
              && Rooted(r) && !SomeRejected(r)
              && (InForce(r.links, r.evaluationTime) ==> FirstExceedsItsParent(r.links))
    ensures e.reason == ParentMissing <==>
              Rooted(r) && !SomeRejected(r) && InForce(r.links, r.evaluationTime) && FirstLacksItsParent(r.links)
    ensures e.reason == SourceIncomplete <==> Credible(r) && r.completeness != Complete
    ensures e.reason == AuthenticityUnknown <==> Credible(r) && r.completeness == Complete && SomeUnknown(r)
    ensures e.reason == ContradictionPresent <==>
              Credible(r) && r.completeness == Complete && !SomeUnknown(r) && r.contradictions != []
  {
    hide ValidReconstruction, UniqueIds, Cyclic, OneRoot, Sound, Ids, DelegationTree, FirstLacksItsParent,
         FirstExceedsItsParent, InForce;
    CompatibleIsADelegationTree(r.links, r.evaluationTime);
    if !ValidReconstruction(r) {
      return Evaluation(Incompatible, MalformedReconstruction);
    }
    assert HasConflictingParents(r.links) <==> !UniqueIds(r.links) by { ValidIsSorted(r); NoConflictIsUnique(r.links); }
    if HasConflictingParents(r.links) {
      return Evaluation(Incompatible, ConflictingParents);
    }
    var cyclic := HasCycle(r.links);
    if cyclic {
      return Evaluation(Incompatible, Cycle);
    }
    var roots := CountRoots(r.links);
    RootsCounted(r.links);
    if roots != 1 {
      return Evaluation(Incompatible, ConflictingRoots);
    }
    if r.snapshotAuthenticity == Rejected || exists i :: 0 <= i < |r.links| && r.links[i].authenticity == Rejected {
      return Evaluation(Incompatible, AuthenticityRejected);
    }
    var lapsed := HasLapsed(r.links, r.evaluationTime);
    if lapsed {
      return Evaluation(Incompatible, DelegationMismatch);
    }
    var mismatch := CheckParents(r.links);
    if mismatch.Some? {
      return Evaluation(if mismatch.value == ParentMissing then Indeterminate else Incompatible, mismatch.value);
    }
    if r.completeness != Complete {
      return Evaluation(Indeterminate, SourceIncomplete);
    }
    if r.snapshotAuthenticity == Unknown || exists i :: 0 <= i < |r.links| && r.links[i].authenticity == Unknown {
      return Evaluation(Indeterminate, AuthenticityUnknown);
    }
    if r.contradictions != [] {
      return Evaluation(Indeterminate, ContradictionPresent);
    }
    return Evaluation(Compatible, ChainCompatible);
  }

  lemma ValidIsSorted(r: Reconstruction)
    requires ValidReconstruction(r)
    ensures SortedLinks(r.links)
  {
    hide AUTHORITY_REGISTRY_ID;
  }

  /** The pairwise checks hold exactly when the links form one delegation tree in force. */
  lemma CompatibleIsADelegationTree(links: seq<Link>, time: U64)
    ensures LocallySound(links, time) <==> exists root :: DelegationTree(links, time, root)
  {
    hide DelegationTree, Cyclic, InForce, Sound;
    if LocallySound(links, time) {
      var root :| OneRoot(links, root);
      LocalSoundnessIsATree(links, time, root);
    }
    if root :| DelegationTree(links, time, root) {
      TreeIsLocallySound(links, time, root);
    }
  }
}
