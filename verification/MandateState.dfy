/**
  Mandate transition law and journal validation (csv-accountability/src/state.rs).
 */
module MandateState {
  import opened Bytes
  import opened Text

  const MAX_STATE_POLICY_ID_BYTES: nat := 128

  datatype State =
    | Proposed | Issued | Reserved | Consumed | Expired | Revoked | Released | Quarantined | Abandoned

  datatype AttemptState =
    | Prepared | Dispatching | Accepted | Rejected | OutcomeAmbiguous
    | ReconciledAccepted | ReconciledNotAccepted | AbandonedAmbiguous

  datatype Certainty = NotDispatched | DefinitePreAcceptanceRejection | PossiblyAccepted | AcceptedByProvider

  datatype ReleasePolicy = Never | ProfileDefined(policyId: Text, policyDigest: Digest)

  datatype NonAcceptanceEvidence = NonAcceptanceEvidence(policyId: Text, policyDigest: Digest, evidenceDigest: Digest)

  datatype Context = Context(
    certainty: Certainty,
    releasePolicy: ReleasePolicy,
    nonAcceptance: Option<NonAcceptanceEvidence>)

  datatype TransitionError =
    | IllegalTransition | UnsafeRelease | InvalidNonAcceptanceEvidence | AttemptStateMismatch | InvalidJournal

  const BEFORE_DISPATCH: Context := Context(NotDispatched, Never, None)

  // ---- One transition ---------------------------------------------------------

  predicate LegalEdge(from: State, to: State)
  {
    match from
    case Proposed => to == Issued
    case Issued => to in {Reserved, Revoked, Expired}
    case Reserved => to in {Consumed, Released, Quarantined}
    case Quarantined => to in {Consumed, Released, Abandoned}
    case _ => false
  }

  /** The projection of the attempt and the dispatch knowledge an edge demands, if any. */
  function Demand(from: State, to: State): Option<(AttemptState, Certainty, TransitionError)>
  {
    match (from, to)
    case (Issued, Reserved) => Some((Prepared, NotDispatched, AttemptStateMismatch))
    case (Reserved, Consumed) => Some((Accepted, AcceptedByProvider, AttemptStateMismatch))
    case (Reserved, Released) => Some((Rejected, DefinitePreAcceptanceRejection, UnsafeRelease))
    case (Reserved, Quarantined) => Some((OutcomeAmbiguous, PossiblyAccepted, AttemptStateMismatch))
    case (Quarantined, Consumed) => Some((ReconciledAccepted, AcceptedByProvider, AttemptStateMismatch))
    case (Quarantined, Released) => Some((ReconciledNotAccepted, PossiblyAccepted, UnsafeRelease))
    case (Quarantined, Abandoned) => Some((AbandonedAmbiguous, PossiblyAccepted, AttemptStateMismatch))
    case _ => None
  }

  /** Profile-defined evidence that the provider did not accept, exactly matching its policy. */
  function ValidateNonAcceptance(context: Context): Result<(), TransitionError>
  {
    if context.certainty != PossiblyAccepted then Err(UnsafeRelease)
    else match context.releasePolicy
      case Never => Err(UnsafeRelease)
      case ProfileDefined(policyId, policyDigest) =>
        if !RegisteredId(policyId, MAX_STATE_POLICY_ID_BYTES) then Err(InvalidNonAcceptanceEvidence)
        else match context.nonAcceptance
          case None => Err(InvalidNonAcceptanceEvidence)
          case Some(e) =>
            if e.policyId != policyId || e.policyDigest != policyDigest || e.evidenceDigest == ZERO
            then Err(InvalidNonAcceptanceEvidence)
            else Ok(())
  }

  function ValidateTransition(from: State, to: State, attempt: Option<AttemptState>, context: Context)
    : Result<(), TransitionError>
  {
    if !LegalEdge(from, to) then Err(IllegalTransition)
    else match Demand(from, to)
      case None => if attempt.Some? then Err(AttemptStateMismatch) else Ok(())
      case Some((required, certainty, otherwise)) =>
        if attempt != Some(required) then Err(AttemptStateMismatch)
        else if from == Quarantined && to == Released then ValidateNonAcceptance(context)
        else if context.certainty != certainty then Err(otherwise)
        else Ok(())
  }

  /** The published list of state-diagram edges. */
  function TransitionEdges(): seq<(State, State)>
  {
    [(Proposed, Issued), (Issued, Reserved), (Issued, Revoked), (Issued, Expired),
     (Reserved, Consumed), (Reserved, Released), (Reserved, Quarantined),
     (Quarantined, Consumed), (Quarantined, Released), (Quarantined, Abandoned)]
  }

  lemma EdgeWitness(from: State, to: State)
    requires LegalEdge(from, to)
    ensures exists attempt, context :: ValidateTransition(from, to, attempt, context).Ok?
  {
    hide ValidateNonAcceptance;
    match Demand(from, to) {
      case None =>
        assert ValidateTransition(from, to, None, BEFORE_DISPATCH).Ok?;
      case Some((required, certainty, _)) =>
        if from == Quarantined && to == Released {
          var context := NonAcceptanceWitness();
          assert ValidateTransition(from, to, Some(required), context).Ok?;
        } else {
          assert ValidateTransition(from, to, Some(required), Context(certainty, Never, None)).Ok?;
        }
    }
  }

  lemma NonAcceptanceWitness() returns (context: Context)
    ensures ValidateNonAcceptance(context).Ok?
  {
    hide Ascii, RegisteredId, Utf8;
    OneLetterIsRegistered();
    var policyId: Text := Ascii("p");
    var digest: Digest := NonzeroDigest();
    context := Context(PossiblyAccepted, ProfileDefined(policyId, digest),
        Some(NonAcceptanceEvidence(policyId, digest, digest)));
  }

  lemma NonzeroDigest() returns (d: Digest)
    ensures d != ZERO
  {
    d := ZERO[0 := 1];
    assert d[0] == 1;
  }

  lemma OneLetterIsRegistered()
    ensures RegisteredId(Ascii("p"), MAX_STATE_POLICY_ID_BYTES)
  {}

  /** The published edges are exactly those some attempt state and context can take. */
  lemma EdgesAreExactlyTheRealisableOnes(from: State, to: State)
    ensures (from, to) in TransitionEdges()
       <==> exists attempt, context :: ValidateTransition(from, to, attempt, context).Ok?
  {
    hide Demand, ValidateNonAcceptance;
    assert (from, to) in TransitionEdges() <==> LegalEdge(from, to);
    if LegalEdge(from, to) { EdgeWitness(from, to); }
  }

  /** The edges an attempt state can accompany: each at most one, and only the rest go without an attempt. */
  predicate Accompanies(attempt: Option<AttemptState>, from: State, to: State)
  {
    match attempt
    case None => (from, to) in {(Proposed, Issued), (Issued, Revoked), (Issued, Expired)}
    case Some(Prepared) => from == Issued && to == Reserved
    case Some(Dispatching) => false
    case Some(Accepted) => from == Reserved && to == Consumed
    case Some(Rejected) => from == Reserved && to == Released
    case Some(OutcomeAmbiguous) => from == Reserved && to == Quarantined
    case Some(ReconciledAccepted) => from == Quarantined && to == Consumed
    case Some(ReconciledNotAccepted) => from == Quarantined && to == Released
    case Some(AbandonedAmbiguous) => from == Quarantined && to == Abandoned
  }

  /** What has to be known about the dispatch for an attempt state to be true. */
  predicate Known(attempt: AttemptState, certainty: Certainty)
  {
    match certainty
    case NotDispatched => attempt == Prepared
    case DefinitePreAcceptanceRejection => attempt == Rejected
    case PossiblyAccepted => attempt in {OutcomeAmbiguous, ReconciledNotAccepted, AbandonedAmbiguous}
    case AcceptedByProvider => attempt in {Accepted, ReconciledAccepted}
  }

  /** Evidence of non-acceptance under the very policy in force. */
  predicate Evidenced(context: Context)
  {
    && context.releasePolicy.ProfileDefined? && context.nonAcceptance.Some?
    && RegisteredId(context.releasePolicy.policyId, MAX_STATE_POLICY_ID_BYTES)
    && context.nonAcceptance.value.policyId == context.releasePolicy.policyId
    && context.nonAcceptance.value.policyDigest == context.releasePolicy.policyDigest
    && context.nonAcceptance.value.evidenceDigest != ZERO
  }

  predicate Lawful(from: State, to: State, attempt: Option<AttemptState>, context: Context)
  {
    && Accompanies(attempt, from, to)
    && (attempt.Some? ==> Known(attempt.value, context.certainty))
    && (attempt == Some(ReconciledNotAccepted) ==> Evidenced(context))
  }

  lemma EdgesAreLegal(from: State, to: State)
    ensures (from, to) in TransitionEdges() <==> LegalEdge(from, to)
  {
  }

  /** What an edge demands is the one attempt state that accompanies it, and what makes that one true. */
  lemma DemandsAreLawful(from: State, to: State, attempt: Option<AttemptState>, certainty: Certainty)
    ensures Accompanies(attempt, from, to) ==> LegalEdge(from, to)
    ensures LegalEdge(from, to) ==>
              match Demand(from, to)
              case None => (Accompanies(attempt, from, to) <==> attempt.None?) && to != Released
              case Some((required, known, otherwise)) =>
                && (Accompanies(attempt, from, to) <==> attempt == Some(required))
                && (Known(required, certainty) <==> certainty == known)
                && otherwise == (if to == Released then UnsafeRelease else AttemptStateMismatch)
                && (required == ReconciledNotAccepted <==> from == Quarantined && to == Released)
                && (required == ReconciledNotAccepted ==> known == PossiblyAccepted)
  {
  }

  lemma NonAcceptanceExactlyWhen(context: Context)
    ensures var r := ValidateNonAcceptance(context);
            && (r.Ok? <==> context.certainty == PossiblyAccepted && Evidenced(context))
            && (r == Err(UnsafeRelease) <==> context.certainty != PossiblyAccepted || context.releasePolicy.Never?)
            && (r.Err? ==> r.error in {UnsafeRelease, InvalidNonAcceptanceEvidence})
            && (Evidenced(context) ==> !context.releasePolicy.Never?)
  {
    hide RegisteredId, Utf8;
  }

  /**
    A transition is accepted exactly when its attempt state accompanies the edge and is known to
    be true, with evidence where it denies an acceptance; the release policy matters nowhere else.
   */
  lemma TransitionIsAcceptedExactlyWhen(from: State, to: State, attempt: Option<AttemptState>, context: Context)
    ensures ValidateTransition(from, to, attempt, context).Ok? <==> Lawful(from, to, attempt, context)
  {
    hide LegalEdge, Demand, Accompanies, Known, Evidenced, ValidateNonAcceptance;
    DemandsAreLawful(from, to, attempt, context.certainty);
    NonAcceptanceExactlyWhen(context);
  }

  /** Which error a transition gets. */
  lemma TransitionErrorsExactlyWhen(from: State, to: State, attempt: Option<AttemptState>, context: Context)
    ensures var r := ValidateTransition(from, to, attempt, context);
            var paired := Accompanies(attempt, from, to);
            var known := attempt.Some? ==> Known(attempt.value, context.certainty);
            var reconciled := attempt == Some(ReconciledNotAccepted);
            && (r == Err(IllegalTransition) <==> (from, to) !in TransitionEdges())
            && (r == Err(AttemptStateMismatch) <==>
                (from, to) in TransitionEdges() && (!paired || (to != Released && !known)))
            && (r == Err(UnsafeRelease) <==>
                paired && to == Released && (!known || (reconciled && context.releasePolicy.Never?)))
            && (r == Err(InvalidNonAcceptanceEvidence) <==>
                paired && known && reconciled && !context.releasePolicy.Never? && !Evidenced(context))
            && r != Err(InvalidJournal)
  {
    hide LegalEdge, TransitionEdges, Demand, Accompanies, Known, Evidenced, ValidateNonAcceptance;
    EdgesAreLegal(from, to);
    DemandsAreLawful(from, to, attempt, context.certainty);
    NonAcceptanceExactlyWhen(context);
  }

  // ---- Journals ---------------------------------------------------------------

  datatype JournalEntry = JournalEntry(
    mandateId: Digest,
    previousRevision: U64,
    revision: U64,
    from: State,
    to: State,
    attempt: Option<AttemptState>,
    occurredAt: U64,
    context: Context)

  /** The state an entry at position `k` must start from. */
  function StateBefore(initial: State, entries: seq<JournalEntry>, k: nat): State
    requires k <= |entries|
  {
    if k == 0 then initial else entries[k - 1].to
  }

  function StateAfter(initial: State, entries: seq<JournalEntry>): State
  {
    StateBefore(initial, entries, |entries|)
  }

  function TimeBefore(entries: seq<JournalEntry>, k: nat): Option<U64>
    requires k <= |entries|
  {
    if k == 0 then None else Some(entries[k - 1].occurredAt)
  }

  /** One entry, checked against the projection it continues. */
  function CheckEntry(id: Digest, state: State, revision: nat, lastTime: Option<U64>, e: JournalEntry)
    : Result<(), TransitionError>
  {
    if revision >= U64_MAX
       || e.mandateId != id || e.from != state || e.previousRevision != revision || e.revision != revision + 1
       || (lastTime.Some? && e.occurredAt < lastTime.value)
    then Err(InvalidJournal)
    else ValidateTransition(e.from, e.to, e.attempt, e.context)
  }

  function CheckAt(id: Digest, initial: State, revision: U64, entries: seq<JournalEntry>, k: nat)
    : Result<(), TransitionError>
    requires k < |entries|
  {
    CheckEntry(id, StateBefore(initial, entries, k), revision + k, TimeBefore(entries, k), entries[k])
  }

  /** A journal is accepted when every entry continues the ones before it. */
  predicate AcceptedJournal(id: Digest, initial: State, revision: U64, entries: seq<JournalEntry>)
  {
    forall k :: 0 <= k < |entries| ==> CheckAt(id, initial, revision, entries, k).Ok?
  }

  method ValidateJournal(id: Digest, initial: State, initialRevision: U64, entries: seq<JournalEntry>)
    returns (r: Result<(State, U64), TransitionError>)
    ensures r.Ok? <==> AcceptedJournal(id, initial, initialRevision, entries)
    ensures r.Ok? ==> r.value == (StateAfter(initial, entries), initialRevision + |entries|)
    ensures r.Err? ==> exists k ::
                         && 0 <= k < |entries|
                         && CheckAt(id, initial, initialRevision, entries, k) == Err(r.error)
                         && forall m :: 0 <= m < k ==> CheckAt(id, initial, initialRevision, entries, m).Ok?
  {
    hide ValidateTransition;
    var state, revision := initial, initialRevision;
    var lastTime: Option<U64> := None;
    for k := 0 to |entries|
      invariant revision == initialRevision + k
      invariant state == StateBefore(initial, entries, k)
      invariant lastTime == TimeBefore(entries, k)
      invariant forall m :: 0 <= m < k ==> CheckAt(id, initial, initialRevision, entries, m).Ok?
    {
      var e := entries[k];
      if revision == U64_MAX
         || e.mandateId != id || e.from != state || e.previousRevision != revision || e.revision != revision + 1
         || (lastTime.Some? && e.occurredAt < lastTime.value)
      {
        assert CheckAt(id, initial, initialRevision, entries, k) == Err(InvalidJournal);
        return Err(InvalidJournal);
      }
      var step := ValidateTransition(e.from, e.to, e.attempt, e.context);
      assert CheckAt(id, initial, initialRevision, entries, k) == step;
      if step.Err? {
        return Err(step.error);
      }
      state, revision, lastTime := e.to, e.revision, Some(e.occurredAt);
    }
    return Ok((state, revision));
  }

  /** An entry is about the mandate and takes up state, revision and time where the ones before left off. */
  predicate Continues(id: Digest, initial: State, revision: U64, entries: seq<JournalEntry>, k: nat)
    requires k < |entries|
  {
    var e := entries[k];
    && e.mandateId == id
    && e.from == (if k == 0 then initial else entries[k - 1].to)
    && e.previousRevision == revision + k && e.revision == revision + k + 1
    && (k > 0 ==> entries[k - 1].occurredAt <= e.occurredAt)
  }

  /** An entry is refused as out of place exactly when it does not continue, and otherwise as its transition is. */
  lemma EntryCheckedExactly(id: Digest, initial: State, revision: U64, entries: seq<JournalEntry>, k: nat)
    requires k < |entries|
    ensures var check, e := CheckAt(id, initial, revision, entries, k), entries[k];
            && (check == Err(InvalidJournal) <==> !Continues(id, initial, revision, entries, k))
            && (check != Err(InvalidJournal) ==> check == ValidateTransition(e.from, e.to, e.attempt, e.context))
  {
    hide ValidateTransition;
    TransitionErrorsExactlyWhen(entries[k].from, entries[k].to, entries[k].attempt, entries[k].context);
  }

  /** A journal is accepted exactly when every entry continues the ones before it by a lawful transition. */
  lemma JournalIsAcceptedExactlyWhen(id: Digest, initial: State, revision: U64, entries: seq<JournalEntry>)
    ensures AcceptedJournal(id, initial, revision, entries) <==>
              forall k :: 0 <= k < |entries| ==>
                && Continues(id, initial, revision, entries, k)
                && Lawful(entries[k].from, entries[k].to, entries[k].attempt, entries[k].context)
  {
    hide CheckAt, Continues, Lawful, ValidateTransition;
    forall k | 0 <= k < |entries|
      ensures CheckAt(id, initial, revision, entries, k).Ok? <==>
                && Continues(id, initial, revision, entries, k)
                && Lawful(entries[k].from, entries[k].to, entries[k].attempt, entries[k].context)
    {
      EntryCheckedExactly(id, initial, revision, entries, k);
      TransitionIsAcceptedExactlyWhen(entries[k].from, entries[k].to, entries[k].attempt, entries[k].context);
    }
  }

  predicate SeamInOrder(a: seq<JournalEntry>, b: seq<JournalEntry>)
  {
    a != [] && b != [] ==> a[|a| - 1].occurredAt <= b[0].occurredAt
  }

  lemma CheckInFront(id: Digest, initial: State, revision: U64, a: seq<JournalEntry>, b: seq<JournalEntry>, k: nat)
    requires k < |a|
    ensures CheckAt(id, initial, revision, a + b, k) == CheckAt(id, initial, revision, a, k)
  {
    hide ValidateTransition;
  }

  lemma CheckBehind(id: Digest, initial: State, revision: U64, a: seq<JournalEntry>, b: seq<JournalEntry>, k: nat)
    requires k < |b| && revision + |a| <= U64_MAX
    ensures CheckAt(id, initial, revision, a + b, |a| + k).Ok?
       <==> CheckAt(id, StateAfter(initial, a), revision + |a|, b, k).Ok? && (k == 0 ==> SeamInOrder(a, b))
  {
    hide ValidateTransition;
  }

  /** An accepted journal has room for its revisions. */
  lemma RevisionsFit(id: Digest, initial: State, revision: U64, entries: seq<JournalEntry>)
    requires AcceptedJournal(id, initial, revision, entries)
    ensures revision + |entries| <= U64_MAX
  {
    if entries != [] { assert CheckAt(id, initial, revision, entries, |entries| - 1).Ok?; }
  }

  lemma JournalFromHalves(id: Digest, initial: State, revision: U64, a: seq<JournalEntry>, b: seq<JournalEntry>)
    requires AcceptedJournal(id, initial, revision, a) && revision + |a| <= U64_MAX
    requires AcceptedJournal(id, StateAfter(initial, a), revision + |a|, b) && SeamInOrder(a, b)
    ensures AcceptedJournal(id, initial, revision, a + b)
  {
    hide CheckAt;
    forall k | 0 <= k < |a + b| ensures CheckAt(id, initial, revision, a + b, k).Ok? {
      if k < |a| {
        CheckInFront(id, initial, revision, a, b, k);
      } else {
        CheckBehind(id, initial, revision, a, b, k - |a|);
      }
    }
  }

  lemma HalvesOfJournal(id: Digest, initial: State, revision: U64, a: seq<JournalEntry>, b: seq<JournalEntry>)
    requires AcceptedJournal(id, initial, revision, a + b)
    ensures AcceptedJournal(id, initial, revision, a) && revision + |a| <= U64_MAX
    ensures AcceptedJournal(id, StateAfter(initial, a), revision + |a|, b) && SeamInOrder(a, b)
  {
    hide CheckAt;
    forall k | 0 <= k < |a| ensures CheckAt(id, initial, revision, a, k).Ok? {
      CheckInFront(id, initial, revision, a, b, k);
    }
    RevisionsFit(id, initial, revision, a);
    var state, next := StateAfter(initial, a), revision + |a|;
    forall k | 0 <= k < |b| ensures CheckAt(id, state, next, b, k).Ok? {
      CheckBehind(id, initial, revision, a, b, k);
    }
    if b != [] { CheckBehind(id, initial, revision, a, b, 0); }
  }

  /**
    A journal split anywhere is accepted exactly when both halves are, the second from the
    state and revision the first reaches, and times agree at the seam.
   */
  lemma JournalSplits(id: Digest, initial: State, revision: U64, a: seq<JournalEntry>, b: seq<JournalEntry>)
    ensures AcceptedJournal(id, initial, revision, a + b)
       <==> && AcceptedJournal(id, initial, revision, a)
            && revision + |a| <= U64_MAX
            && AcceptedJournal(id, StateAfter(initial, a), revision + |a|, b)
            && SeamInOrder(a, b)
  {
    hide AcceptedJournal, SeamInOrder;
    if AcceptedJournal(id, initial, revision, a + b) {
      HalvesOfJournal(id, initial, revision, a, b);
    } else if && AcceptedJournal(id, initial, revision, a)
              && revision + |a| <= U64_MAX
              && AcceptedJournal(id, StateAfter(initial, a), revision + |a|, b)
              && SeamInOrder(a, b)
    {
      JournalFromHalves(id, initial, revision, a, b);
    }
  }

  // ---- What accepted journals cannot do ------------------------------------------

  /** The number of transitions still possible. */
  function Rank(s: State): nat
  {
    match s
    case Proposed => 4
    case Issued => 3
    case Reserved => 2
    case Quarantined => 1
    case _ => 0
  }

  predicate Terminal(s: State) { s in {Consumed, Expired, Revoked, Released, Abandoned} }

  lemma AcceptedPrefix(id: Digest, initial: State, revision: U64, entries: seq<JournalEntry>, k: nat)
    requires AcceptedJournal(id, initial, revision, entries) && k <= |entries|
    ensures AcceptedJournal(id, initial, revision, entries[..k])
  {
    assert entries == entries[..k] + entries[k..];
    JournalSplits(id, initial, revision, entries[..k], entries[k..]);
  }

  /** Every entry lowers the rank, so a journal is no longer than its initial rank. */
  lemma {:induction false} JournalsAreShort(id: Digest, initial: State, revision: U64, entries: seq<JournalEntry>)
    requires AcceptedJournal(id, initial, revision, entries)
    ensures |entries| + Rank(StateAfter(initial, entries)) <= Rank(initial)
  {
    if entries != [] {
      var n := |entries| - 1;
      AcceptedPrefix(id, initial, revision, entries, n);
      JournalsAreShort(id, initial, revision, entries[..n]);
      assert CheckAt(id, initial, revision, entries, n).Ok?;
    }
  }

  lemma {:induction false} RanksFall(id: Digest, initial: State, revision: U64, entries: seq<JournalEntry>, i: nat,
      j: nat)
    requires AcceptedJournal(id, initial, revision, entries) && i < j < |entries|
    ensures Rank(entries[i].to) > Rank(entries[j].to)
    decreases j
  {
    assert CheckAt(id, initial, revision, entries, j).Ok?;
    if i < j - 1 { RanksFall(id, initial, revision, entries, i, j - 1); }
  }

  /** A mandate is reserved at most once in its life. */
  lemma ReservedAtMostOnce(id: Digest, initial: State, revision: U64, entries: seq<JournalEntry>, i: nat, j: nat)
    requires AcceptedJournal(id, initial, revision, entries)
    requires i < |entries| && j < |entries| && entries[i].to == Reserved && entries[j].to == Reserved
    ensures i == j
  {
    if i < j { RanksFall(id, initial, revision, entries, i, j); }
    if j < i { RanksFall(id, initial, revision, entries, j, i); }
  }

  /** No accepted journal continues after a terminal state. */
  lemma TerminalIsFinal(id: Digest, initial: State, revision: U64, entries: seq<JournalEntry>, k: nat)
    requires AcceptedJournal(id, initial, revision, entries) && k < |entries|
    requires Terminal(entries[k].to)
    ensures k == |entries| - 1
  {
    if k + 1 < |entries| { RanksFall(id, initial, revision, entries, k, k + 1); }
  }

  /** Under a never-release policy a quarantined mandate stays, is consumed, or is abandoned. */
  lemma NeverPolicyNeverReleases(id: Digest, initial: State, revision: U64, entries: seq<JournalEntry>, k: nat)
    requires AcceptedJournal(id, initial, revision, entries) && k <= |entries|
    requires forall i :: 0 <= i < |entries| ==> entries[i].context.releasePolicy == Never
    requires StateBefore(initial, entries, k) == Quarantined
    ensures StateAfter(initial, entries) in {Quarantined, Consumed, Abandoned}
  {
    if k < |entries| {
      assert CheckAt(id, initial, revision, entries, k).Ok?;
      if k + 1 < |entries| { TerminalIsFinal(id, initial, revision, entries, k); }
    }
  }

  /**
    No entry concludes more than is known about the dispatch: consumption needs an
    acceptance, a release from reservation needs a definite rejection, quarantine an open
    outcome, abandonment one given up on, and everything short of an attempt carries none.
   */
  lemma NothingIsConcludedWithoutKnowledge(id: Digest, initial: State, revision: U64, entries: seq<JournalEntry>,
      k: nat)
    requires AcceptedJournal(id, initial, revision, entries) && k < |entries|
    ensures var e := entries[k];
      && (e.to == Reserved <==> e.attempt == Some(Prepared))
      && (e.to == Consumed <==> e.attempt in {Some(Accepted), Some(ReconciledAccepted)})
      && (e.to == Released <==> e.attempt in {Some(Rejected), Some(ReconciledNotAccepted)})
      && (e.to == Quarantined <==> e.attempt == Some(OutcomeAmbiguous))
      && (e.to == Abandoned <==> e.attempt == Some(AbandonedAmbiguous))
      && (e.to in {Issued, Revoked, Expired} <==> e.attempt == None)
      && (e.from == Quarantined <==> e.attempt in {Some(ReconciledAccepted), Some(ReconciledNotAccepted),
                                                   Some(AbandonedAmbiguous)})
      && (e.to == Reserved ==> e.context.certainty == NotDispatched)
      && (e.to == Consumed ==> e.context.certainty == AcceptedByProvider)
      && (e.to in {Quarantined, Abandoned} ==> e.context.certainty == PossiblyAccepted)
      && (e.to == Released ==>
          e.context.certainty == if e.from == Reserved then DefinitePreAcceptanceRejection else PossiblyAccepted)
  {
    hide RegisteredId, Utf8;
    assert CheckAt(id, initial, revision, entries, k).Ok?;
  }

  /** Conversely, a journal that releases from quarantine carries the exact evidence its policy demands. */
  lemma QuarantineReleaseIsEvidenced(id: Digest, initial: State, revision: U64, entries: seq<JournalEntry>, k: nat)
    requires AcceptedJournal(id, initial, revision, entries) && k < |entries|
    requires entries[k].from == Quarantined && entries[k].to == Released
    ensures var c := entries[k].context;
      && c.certainty == PossiblyAccepted
      && c.releasePolicy.ProfileDefined? && c.nonAcceptance.Some?
      && c.nonAcceptance.value.policyId == c.releasePolicy.policyId
      && c.nonAcceptance.value.policyDigest == c.releasePolicy.policyDigest
      && c.nonAcceptance.value.evidenceDigest != ZERO
  {
    assert CheckAt(id, initial, revision, entries, k).Ok?;
  }
}
