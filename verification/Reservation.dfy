/**
  Compare-and-swap reservation under concurrency (csv-accountability/src/state.rs).

  Executors read the persisted row at any time, keep what they read for as long as
  they like, turn it into a conditional update, and submit that update any number of
  times; other writers move the row by validated transitions. A run is any finite
  sequence of these steps.
 */
module Reservation {
  import opened Bytes
  import opened Hashing
  import opened Mandate
  import opened MandateState

  /** The persisted row of one mandate, and what a reader sees of it. */
  datatype Snapshot = Snapshot(mandateId: Digest, state: State, revision: U64)

  datatype CasReservation = CasReservation(
    mandateId: Digest,
    expectedState: State,
    expectedRevision: U64,
    nextState: State,
    nextRevision: U64,
    tokenDigest: Digest)

  datatype ReservationError =
    | InvalidMandate | MandateMismatch | RevisionMismatch | NotIssued | NotCurrentlyValid | InvalidReservationToken

  function ValidateReservationCas(
    h: Hashes, m: ActionMandate, snapshot: Snapshot, expectedRevision: U64, reservedAt: U64, token: Digest)
    : Result<CasReservation, ReservationError>
  {
    if !ValidMandate(m) then Err(InvalidMandate)
    else if snapshot.mandateId != MandateId(h, m) then Err(MandateMismatch)
    else if snapshot.revision != expectedRevision then Err(RevisionMismatch)
    else if expectedRevision == U64_MAX then Err(RevisionMismatch)
    else if snapshot.state != Issued then Err(NotIssued)
    else if !ValidAt(m, reservedAt) then Err(NotCurrentlyValid)
    else if token == ZERO then Err(InvalidReservationToken)
    else Ok(CasReservation(MandateId(h, m), Issued, expectedRevision, Reserved, expectedRevision + 1, token))
  }

  /** The update statement's predicate: every expected value still matches the row. */
  predicate Matches(row: Snapshot, u: CasReservation)
  {
    row.mandateId == u.mandateId && row.state == u.expectedState && row.revision == u.expectedRevision
  }

  /**
    A reservation is granted exactly on the mandate's own issued row at the revision the caller
    expects, with room for the next, at a time inside its window and with a token; it then asks
    for that row at that revision and moves it one on.
   */
  lemma ReservationExactlyWhen(
    h: Hashes, m: ActionMandate, snapshot: Snapshot, expectedRevision: U64, reservedAt: U64, token: Digest)
    ensures var r := ValidateReservationCas(h, m, snapshot, expectedRevision, reservedAt, token);
      && (r.Ok? <==>
          && snapshot == Snapshot(MandateId(h, m), Issued, expectedRevision) && expectedRevision < U64_MAX
          && ValidAt(m, reservedAt) && token != ZERO)
      && (r.Ok? ==>
          && Matches(snapshot, r.value) && r.value.expectedRevision == expectedRevision
          && r.value.nextState == Reserved && r.value.nextRevision == expectedRevision + 1
          && r.value.tokenDigest == token)
  {
    hide ValidMandate, MandateId;
  }

  /** What can be wrong with a request, in the order it is looked for. */
  function ReservationFaults(
    h: Hashes, m: ActionMandate, snapshot: Snapshot, expectedRevision: U64, reservedAt: U64, token: Digest)
    : seq<(ReservationError, bool)>
  {
    [(InvalidMandate, !ValidMandate(m)),
     (MandateMismatch, snapshot.mandateId != MandateId(h, m)),
     (RevisionMismatch, snapshot.revision != expectedRevision || expectedRevision == U64_MAX),
     (NotIssued, snapshot.state != Issued),
     (NotCurrentlyValid, reservedAt < m.validFrom || m.expiresAt <= reservedAt),
     (InvalidReservationToken, token == ZERO)]
  }

  /** A refusal names the first fault. */
  lemma RefusalNamesTheFirstFault(
    h: Hashes, m: ActionMandate, snapshot: Snapshot, expectedRevision: U64, reservedAt: U64, token: Digest, i: nat)
    requires i < 6
    ensures var faults := ReservationFaults(h, m, snapshot, expectedRevision, reservedAt, token);
      ValidateReservationCas(h, m, snapshot, expectedRevision, reservedAt, token) == Err(faults[i].0) <==>
        faults[i].1 && forall j :: 0 <= j < i ==> !faults[j].1
  {
    hide ValidMandate, MandateId;
    var faults := ReservationFaults(h, m, snapshot, expectedRevision, reservedAt, token);
    assert (forall j :: 0 <= j < i ==> !faults[j].1) <==>
             && (i > 0 ==> !faults[0].1) && (i > 1 ==> !faults[1].1) && (i > 2 ==> !faults[2].1)
             && (i > 3 ==> !faults[3].1) && (i > 4 ==> !faults[4].1);
  }

  // ---- The system ---------------------------------------------------------------

  type Executor = nat

  /** An update an executor holds, with what it was made from. */
  datatype Pending = Pending(
    read: Snapshot, mandate: ActionMandate, expected: U64, reservedAt: U64, update: CasReservation)

  datatype World = World(
    row: Snapshot,
    clock: U64,
    history: seq<JournalEntry>,
    views: map<Executor, Snapshot>,
    pending: map<Executor, Pending>,
    winners: seq<Pending>)

  datatype Step =
    | Tick(now: U64)
    | Read(reader: Executor)
    | Prepare(owner: Executor, mandate: ActionMandate, expectedRevision: U64, reservedAt: U64, token: Digest)
    | Commit(executor: Executor)
    | Transition(to: State, attempt: Option<AttemptState>, context: Context)

  function Start(row: Snapshot, clock: U64): World
  {
    World(row, clock, [], map[], map[], [])
  }

  /** The row moves to `to`, and the move is journalled at the current time. */
  function Move(w: World, to: State, next: U64, attempt: Option<AttemptState>, context: Context): World
  {
    w.(row := Snapshot(w.row.mandateId, to, next),
       history := w.history +
         [JournalEntry(w.row.mandateId, w.row.revision, next, w.row.state, to, attempt, w.clock, context)])
  }

  function Do(h: Hashes, w: World, s: Step): World
  {
    match s
    case Tick(now) =>
      if w.clock <= now then w.(clock := now) else w
    case Read(e) =>
      w.(views := w.views[e := w.row])
    case Prepare(e, m, expectedRevision, reservedAt, token) =>
      if e !in w.views then w
      else
        var cas := ValidateReservationCas(h, m, w.views[e], expectedRevision, reservedAt, token);
        if cas.Err? then w
        else w.(pending := w.pending[e := Pending(w.views[e], m, expectedRevision, reservedAt, cas.value)])
    case Commit(e) =>
      if e !in w.pending || !Matches(w.row, w.pending[e].update) then w
      else
        var p := w.pending[e];
        Move(w, p.update.nextState, p.update.nextRevision, Some(Prepared), BEFORE_DISPATCH)
          .(winners := w.winners + [p])
    case Transition(to, attempt, context) =>
      if w.row.revision < U64_MAX && ValidateTransition(w.row.state, to, attempt, context).Ok?
      then Move(w, to, w.row.revision + 1, attempt, context)
      else w
  }

  function Run(h: Hashes, w: World, steps: seq<Step>): World
  {
    if steps == [] then w else Do(h, Run(h, w, steps[..|steps| - 1]), steps[|steps| - 1])
  }

  // ---- What every run keeps --------------------------------------------------------

  /** The row is where the history leads. */
  predicate RowFollowsHistory(first: Snapshot, w: World)
  {
    && w.row.mandateId == first.mandateId
    && w.row.state == StateAfter(first.state, w.history)
    && w.row.revision == first.revision + |w.history|
    && AcceptedJournal(first.mandateId, first.state, first.revision, w.history)
    && (w.history != [] ==> w.history[|w.history| - 1].occurredAt <= w.clock)
  }

  /** A snapshot is the row as it was after some prefix of the history. */
  predicate WasTheRow(first: Snapshot, history: seq<JournalEntry>, v: Snapshot)
  {
    && v.mandateId == first.mandateId
    && first.revision <= v.revision <= first.revision + |history|
    && v.state == StateBefore(first.state, history, v.revision - first.revision)
  }

  /** An update is the reservation its owner validly derived from what it read. */
  predicate Derived(h: Hashes, p: Pending)
  {
    ValidateReservationCas(h, p.mandate, p.read, p.expected, p.reservedAt, p.update.tokenDigest) == Ok(p.update)
  }

  predicate ViewsAreOld(first: Snapshot, history: seq<JournalEntry>, views: map<Executor, Snapshot>)
  {
    forall e <- views :: WasTheRow(first, history, views[e])
  }

  predicate UpdatesAreDerived(h: Hashes, first: Snapshot, w: World)
  {
    forall e <- w.pending :: WasTheRow(first, w.history, w.pending[e].read) && Derived(h, w.pending[e])
  }

  predicate EverReserved(history: seq<JournalEntry>)
  {
    exists k :: 0 <= k < |history| && history[k].to == Reserved
  }

  predicate AtMostOneWinner(h: Hashes, first: Snapshot, w: World)
  {
    && |w.winners| <= 1
    && (w.winners != [] ==>
          && Derived(h, w.winners[0])
          && WasTheRow(first, w.history, w.winners[0].read)
          && EverReserved(w.history))
  }

  predicate Safe(h: Hashes, first: Snapshot, w: World)
  {
    && RowFollowsHistory(first, w)
    && ViewsAreOld(first, w.history, w.views)
    && UpdatesAreDerived(h, first, w)
    && AtMostOneWinner(h, first, w)
  }

  /** What a derived update asks for. */
  lemma DerivedUpdate(h: Hashes, p: Pending)
    requires Derived(h, p)
    ensures p.read.state == Issued && p.read.revision == p.expected < U64_MAX && p.update.tokenDigest != ZERO
    ensures p.update ==
        CasReservation(p.read.mandateId, Issued, p.read.revision, Reserved, p.read.revision + 1, p.update.tokenDigest)
    ensures ValidAt(p.mandate, p.reservedAt) && MandateId(h, p.mandate) == p.read.mandateId
  {
    hide ValidMandate, MandateId;
  }

  /** Once reserved, the row never waits to be reserved again. */
  lemma ReservedOnceIsNeverIssued(first: Snapshot, w: World, k: nat)
    requires RowFollowsHistory(first, w) && k < |w.history| && w.history[k].to == Reserved
    ensures w.row.state != Issued
  {
    hide AcceptedJournal;
    var last := |w.history| - 1;
    if k < last { RanksFall(first.mandateId, first.state, first.revision, w.history, k, last); }
  }

  lemma MoveFollows(first: Snapshot, w: World, to: State, attempt: Option<AttemptState>, context: Context)
    requires RowFollowsHistory(first, w) && w.row.revision < U64_MAX
    requires ValidateTransition(w.row.state, to, attempt, context).Ok?
    ensures RowFollowsHistory(first, Move(w, to, w.row.revision + 1, attempt, context))
  {
    hide ValidateTransition;
    var w' := Move(w, to, w.row.revision + 1, attempt, context);
    var id, s, r := first.mandateId, first.state, first.revision;
    var e := w'.history[|w.history|];
    forall k | 0 <= k < |w'.history| ensures CheckAt(id, s, r, w'.history, k).Ok? {
      if k < |w.history| { CheckInFront(id, s, r, w.history, [e], k); }
    }
  }

  /** A longer history keeps every earlier snapshot in the past, and a reservation made. */
  lemma MoveKeepsTheRest(h: Hashes, first: Snapshot, w: World, to: State, next: U64, attempt: Option<AttemptState>,
      context: Context)
    requires ViewsAreOld(first, w.history, w.views) && UpdatesAreDerived(h, first, w) && AtMostOneWinner(h, first, w)
    ensures var w' := Move(w, to, next, attempt, context);
            ViewsAreOld(first, w'.history, w'.views) && UpdatesAreDerived(h, first, w') && AtMostOneWinner(h, first, w')
  {
    hide Derived;
    var w' := Move(w, to, next, attempt, context);
    forall v: Snapshot | WasTheRow(first, w.history, v) ensures WasTheRow(first, w'.history, v) {}
    if EverReserved(w.history) {
      var k :| 0 <= k < |w.history| && w.history[k].to == Reserved;
      assert w'.history[k].to == Reserved;
    }
  }

  lemma CommitIsAMove(h: Hashes, w: World, e: Executor)
    requires e in w.pending && Derived(h, w.pending[e])
    ensures w.pending[e].read.revision < U64_MAX
    ensures Matches(w.row, w.pending[e].update) ==>
      && w.row == w.pending[e].read && w.row.state == Issued
      && Do(h, w, Commit(e)) ==
           Move(w, Reserved, w.row.revision + 1, Some(Prepared), BEFORE_DISPATCH)
             .(winners := w.winners + [w.pending[e]])
    ensures w.row == w.pending[e].read ==> Matches(w.row, w.pending[e].update)
  {
    hide Derived, Move, ValidMandate, MandateId, ValidAt, ValidateReservationCas, ValidateTransition;
    DerivedUpdate(h, w.pending[e]);
  }

  lemma CommitKeepsSafe(h: Hashes, first: Snapshot, w: World, e: Executor)
    requires Safe(h, first, w) && e in w.pending && Matches(w.row, w.pending[e].update)
    ensures w.winners == []
    ensures Safe(h, first, Do(h, w, Commit(e)))
  {
    hide Derived, RowFollowsHistory, ViewsAreOld, Matches, Do, Move, WasTheRow;
    var p := w.pending[e];
    CommitIsAMove(h, w, e);
    var moved := Move(w, Reserved, w.row.revision + 1, Some(Prepared), BEFORE_DISPATCH);
    ReservingMove(h, first, w);
    if w.winners != [] {
      var k :| 0 <= k < |w.history| && w.history[k].to == Reserved;
      ReservedOnceIsNeverIssued(first, w, k);
    }
    assert w.winners + [p] == [p];
    WasTheRowStays(first, w, p.read);
    WinnerIsSafe(h, first, moved, p);
  }

  lemma ReservingMove(h: Hashes, first: Snapshot, w: World)
    requires Safe(h, first, w) && w.row.state == Issued && w.row.revision < U64_MAX
    ensures var w' := Move(w, Reserved, w.row.revision + 1, Some(Prepared), BEFORE_DISPATCH);
            Safe(h, first, w') && EverReserved(w'.history) && w'.winners == w.winners
  {
    hide Derived, AcceptedJournal, WasTheRow;
    MoveFollows(first, w, Reserved, Some(Prepared), BEFORE_DISPATCH);
    MoveKeepsTheRest(h, first, w, Reserved, w.row.revision + 1, Some(Prepared), BEFORE_DISPATCH);
    var w' := Move(w, Reserved, w.row.revision + 1, Some(Prepared), BEFORE_DISPATCH);
    assert w'.history[|w.history|].to == Reserved;
  }

  lemma WasTheRowStays(first: Snapshot, w: World, v: Snapshot)
    requires WasTheRow(first, w.history, v) && w.row.revision < U64_MAX
    ensures WasTheRow(first, Move(w, Reserved, w.row.revision + 1, Some(Prepared), BEFORE_DISPATCH).history, v)
  {}

  lemma WinnerIsSafe(h: Hashes, first: Snapshot, w: World, p: Pending)
    requires Safe(h, first, w) && Derived(h, p) && WasTheRow(first, w.history, p.read)
    requires w.winners == [] && EverReserved(w.history)
    ensures Safe(h, first, w.(winners := [p]))
  {
    hide Derived, WasTheRow, EverReserved;
  }

  lemma PrepareKeepsSafe(h: Hashes, first: Snapshot, w: World, s: Step)
    requires Safe(h, first, w) && s.Prepare?
    ensures Safe(h, first, Do(h, w, s))
  {
    hide ValidMandate, MandateId, ValidAt, WasTheRow, EverReserved, AcceptedJournal;
  }

  lemma TransitionKeepsSafe(h: Hashes, first: Snapshot, w: World, to: State, attempt: Option<AttemptState>,
      context: Context)
    requires Safe(h, first, w) && w.row.revision < U64_MAX
    requires ValidateTransition(w.row.state, to, attempt, context).Ok?
    ensures Safe(h, first, Move(w, to, w.row.revision + 1, attempt, context))
  {
    hide RowFollowsHistory, ViewsAreOld, UpdatesAreDerived, AtMostOneWinner, Move, ValidateTransition;
    MoveFollows(first, w, to, attempt, context);
    MoveKeepsTheRest(h, first, w, to, w.row.revision + 1, attempt, context);
  }

  lemma TickKeepsSafe(h: Hashes, first: Snapshot, w: World, now: U64)
    requires Safe(h, first, w) && w.clock <= now
    ensures Safe(h, first, w.(clock := now))
  {
    hide AcceptedJournal, StateAfter, WasTheRow, Derived, EverReserved;
  }

  lemma RowIsItsOwnPast(first: Snapshot, w: World)
    requires RowFollowsHistory(first, w)
    ensures WasTheRow(first, w.history, w.row)
  {
    hide AcceptedJournal;
  }

  lemma OneMoreOldView(first: Snapshot, history: seq<JournalEntry>, views: map<Executor, Snapshot>, e: Executor,
      v: Snapshot)
    requires WasTheRow(first, history, v) && ViewsAreOld(first, history, views)
    ensures ViewsAreOld(first, history, views[e := v])
  {
    hide WasTheRow;
  }

  lemma ReadKeepsSafe(h: Hashes, first: Snapshot, w: World, e: Executor)
    requires Safe(h, first, w)
    ensures Safe(h, first, w.(views := w.views[e := w.row]))
  {
    hide AcceptedJournal, StateAfter, WasTheRow, Derived, EverReserved;
    RowIsItsOwnPast(first, w);
    OneMoreOldView(first, w.history, w.views, e, w.row);
  }

  lemma StepKeepsSafe(h: Hashes, first: Snapshot, w: World, s: Step)
    requires Safe(h, first, w)
    ensures Safe(h, first, Do(h, w, s))
  {
    hide Safe, Move, Matches, ValidateTransition, ValidateReservationCas;
    match s
    case Tick(now) =>
      if w.clock <= now { TickKeepsSafe(h, first, w, now); }
    case Read(e) =>
      ReadKeepsSafe(h, first, w, e);
    case Prepare(_, _, _, _, _) =>
      PrepareKeepsSafe(h, first, w, s);
    case Commit(e) =>
      if e in w.pending && Matches(w.row, w.pending[e].update) { CommitKeepsSafe(h, first, w, e); }
    case Transition(to, attempt, context) =>
      if w.row.revision < U64_MAX && ValidateTransition(w.row.state, to, attempt, context).Ok? {
        TransitionKeepsSafe(h, first, w, to, attempt, context);
      }
  }

  /** In every interleaving the invariant holds. */
  lemma {:induction false} EveryRunIsSafe(h: Hashes, first: Snapshot, clock: U64, steps: seq<Step>)
    ensures Safe(h, first, Run(h, Start(first, clock), steps))
  {
    if steps != [] {
      EveryRunIsSafe(h, first, clock, steps[..|steps| - 1]);
      StepKeepsSafe(h, first, Run(h, Start(first, clock), steps[..|steps| - 1]), steps[|steps| - 1]);
    }
  }

  /**
    In every interleaving of any number of executors at most one reservation wins, the row's
    history is a journal that validation accepts, ending in the row, and the winner's update was
    derived from a snapshot of this row at a time inside its mandate's validity.
   */
  lemma OneReservationWins(h: Hashes, first: Snapshot, clock: U64, steps: seq<Step>)
    ensures var w := Run(h, Start(first, clock), steps);
      && |w.winners| <= 1
      && AcceptedJournal(first.mandateId, first.state, first.revision, w.history)
      && w.row.mandateId == first.mandateId
      && w.row.state == StateAfter(first.state, w.history)
      && w.row.revision == first.revision + |w.history|
      && (forall i, j | 0 <= i < |w.history| && 0 <= j < |w.history| ::
            w.history[i].to == Reserved == w.history[j].to ==> i == j)
      && (w.winners != [] ==>
            var p := w.winners[0];
            && ValidAt(p.mandate, p.reservedAt) && MandateId(h, p.mandate) == first.mandateId
            && p.update.expectedRevision == p.expected == p.read.revision && p.update.tokenDigest != ZERO)
  {
    hide Run, Start, AcceptedJournal, ValidMandate, MandateId;
    EveryRunIsSafe(h, first, clock, steps);
    var w := Run(h, Start(first, clock), steps);
    if w.winners != [] { DerivedUpdate(h, w.winners[0]); }
    forall i, j | 0 <= i < |w.history| && 0 <= j < |w.history| && w.history[i].to == Reserved == w.history[j].to
      ensures i == j
    {
      ReservedAtMostOnce(first.mandateId, first.state, first.revision, w.history, i, j);
    }
  }

  /**
    In every reachable state a commit wins exactly when nothing was written since its
    executor read the row, so a fresh reservation always wins and a stale one never does.
   */
  lemma CommitWinsExactlyWhenFresh(h: Hashes, first: Snapshot, clock: U64, steps: seq<Step>, e: Executor)
    requires e in Run(h, Start(first, clock), steps).pending
    ensures var w := Run(h, Start(first, clock), steps);
      Do(h, w, Commit(e)) == w <==> w.row.revision != w.pending[e].read.revision
    ensures var w := Run(h, Start(first, clock), steps);
      w.row.revision == w.pending[e].read.revision ==>
        && w.row == w.pending[e].read && w.winners == []
        && Do(h, w, Commit(e)).winners == [w.pending[e]]
  {
    hide Run, Start, Derived;
    EveryRunIsSafe(h, first, clock, steps);
    var w := Run(h, Start(first, clock), steps);
    FreshCommit(h, first, w, e);
  }

  lemma FreshCommit(h: Hashes, first: Snapshot, w: World, e: Executor)
    requires Safe(h, first, w) && e in w.pending
    ensures Do(h, w, Commit(e)) == w <==> w.row.revision != w.pending[e].read.revision
    ensures w.row.revision == w.pending[e].read.revision ==>
      && w.row == w.pending[e].read && w.winners == []
      && Do(h, w, Commit(e)).winners == [w.pending[e]]
  {
    hide Derived, RowFollowsHistory, ViewsAreOld, AtMostOneWinner, Matches;
    CommitIsAMove(h, w, e);
    SameRevisionSameRow(first, w, w.pending[e].read);
    if Matches(w.row, w.pending[e].update) {
      CommitKeepsSafe(h, first, w, e);
      assert |Do(h, w, Commit(e)).history| == |w.history| + 1;
    }
  }

  /** Revisions only grow, so a snapshot with the row's revision is the row. */
  lemma SameRevisionSameRow(first: Snapshot, w: World, v: Snapshot)
    requires RowFollowsHistory(first, w) && WasTheRow(first, w.history, v)
    ensures v.revision == w.row.revision <==> v == w.row
  {
    hide AcceptedJournal;
  }

  lemma RunOfThree(h: Hashes, w: World, a: Step, b: Step, c: Step)
    ensures Run(h, w, [a, b, c]) == Do(h, Do(h, Do(h, w, a), b), c)
  {
    hide Do;
    assert [a, b, c][..2] == [a, b] && [a, b][..1] == [a];
    assert Run(h, w, [a]) == Do(h, w, a);
    assert Run(h, w, [a, b]) == Do(h, Do(h, w, a), b);
  }

  /** What a reader of an issued row prepares inside the validity window. */
  lemma PreparedFromIssued(h: Hashes, m: ActionMandate, w: World, reservedAt: U64, token: Digest, e: Executor)
    requires ValidAt(m, reservedAt) && w.row.revision < U64_MAX && token != ZERO
    requires w.row.mandateId == MandateId(h, m) && w.row.state == Issued
    ensures var prepared := Do(h, Do(h, w, Read(e)), Prepare(e, m, w.row.revision, reservedAt, token));
      && prepared == w.(views := prepared.views, pending := prepared.pending) && e in prepared.pending
      && prepared.pending[e].mandate == m
      && prepared.pending[e].update ==
          CasReservation(w.row.mandateId, Issued, w.row.revision, Reserved, w.row.revision + 1, token)
  {
    hide ValidMandate, MandateId;
  }

  /** Left alone, an executor that reads an issued row and reserves inside the validity window wins. */
  lemma AnUncontendedReservationWins(h: Hashes, m: ActionMandate, first: Snapshot, clock: U64, reservedAt: U64,
      token: Digest, e: Executor, steps: seq<Step>)
    requires steps == [Read(e), Prepare(e, m, first.revision, reservedAt, token), Commit(e)]
    requires ValidAt(m, reservedAt) && first.revision < U64_MAX && token != ZERO
    requires first.mandateId == MandateId(h, m) && first.state == Issued
    ensures var w := Run(h, Start(first, clock), steps);
      && w.row == Snapshot(first.mandateId, Reserved, first.revision + 1)
      && (exists p :: w.winners == [p] && p.mandate == m && p.update.tokenDigest == token)
  {
    hide ValidAt, MandateId, Run, ValidateReservationCas;
    var w := Start(first, clock);
    PreparedFromIssued(h, m, w, reservedAt, token, e);
    RunOfThree(h, w, Read(e), Prepare(e, m, first.revision, reservedAt, token), Commit(e));
  }

  // ---- When the reservation lands ------------------------------------------------------------

  /**
    A winning commit is journalled at the time it lands, not at the time it was prepared for,
    and that time is inside its mandate's window exactly when the clock is: the update's
    predicate reads no time.
   */
  lemma CommitLandsInTheWindowExactlyWhen(h: Hashes, first: Snapshot, clock: U64, steps: seq<Step>, e: Executor)
    requires e in Run(h, Start(first, clock), steps).pending
    requires Matches(Run(h, Start(first, clock), steps).row, Run(h, Start(first, clock), steps).pending[e].update)
    ensures var w := Run(h, Start(first, clock), steps);
      var p, after := w.pending[e], Do(h, w, Commit(e));
      && ValidAt(p.mandate, p.reservedAt)
      && after.winners == w.winners + [p] && |after.history| == |w.history| + 1
      && after.history[|w.history|].to == Reserved
      && (ValidAt(p.mandate, after.history[|w.history|].occurredAt) <==>
          p.mandate.validFrom <= w.clock < p.mandate.expiresAt)
  {
    hide Run, Start, AcceptedJournal, ValidMandate, MandateId;
    EveryRunIsSafe(h, first, clock, steps);
    var w := Run(h, Start(first, clock), steps);
    DerivedUpdate(h, w.pending[e]);
  }

  lemma RunOfFour(h: Hashes, w: World, a: Step, b: Step, c: Step, d: Step)
    ensures Run(h, w, [a, b, c, d]) == Do(h, Do(h, Do(h, Do(h, w, a), b), c), d)
  {
    hide Do;
    assert [a, b, c, d][..3] == [a, b, c];
    RunOfThree(h, w, a, b, c);
  }

  /** Prepared in time and committed late: a reservation wins after its mandate expired. */
  lemma AReservationMayLandAfterExpiry(h: Hashes, m: ActionMandate, first: Snapshot, reservedAt: U64, token: Digest,
                                       e: Executor, late: U64, steps: seq<Step>)
    requires steps == [Read(e), Prepare(e, m, first.revision, reservedAt, token), Tick(late), Commit(e)]
    requires ValidAt(m, reservedAt) && first.revision < U64_MAX && token != ZERO
    requires first.mandateId == MandateId(h, m) && first.state == Issued && m.expiresAt <= late
    ensures var w := Run(h, Start(first, reservedAt), steps);
      && (exists p :: w.winners == [p] && p.mandate == m)
      && (exists entry :: w.history == [entry] && entry.to == Reserved && !ValidAt(m, entry.occurredAt))
  {
    hide ValidMandate, MandateId, Run, ValidateReservationCas;
    var w := Start(first, reservedAt);
    PreparedFromIssued(h, m, w, reservedAt, token, e);
    RunOfFour(h, w, Read(e), Prepare(e, m, first.revision, reservedAt, token), Tick(late), Commit(e));
    var prepared := Do(h, Do(h, w, Read(e)), Prepare(e, m, first.revision, reservedAt, token));
    var p, after := prepared.pending[e], Do(h, Do(h, prepared, Tick(late)), Commit(e));
    assert after.winners == [p];
    assert after.history == [after.history[0]] && after.history[0].occurredAt == late;
  }

  /** Claimed for later and committed at once: a reservation wins before its mandate's window opens. */
  lemma AReservationMayLandBeforeItsWindow(h: Hashes, m: ActionMandate, first: Snapshot, reservedAt: U64,
                                           token: Digest, e: Executor, early: U64, steps: seq<Step>)
    requires steps == [Read(e), Prepare(e, m, first.revision, reservedAt, token), Commit(e)]
    requires ValidAt(m, reservedAt) && first.revision < U64_MAX && token != ZERO
    requires first.mandateId == MandateId(h, m) && first.state == Issued && early < m.validFrom
    ensures var w := Run(h, Start(first, early), steps);
      && (exists p :: w.winners == [p] && p.mandate == m)
      && (exists entry :: w.history == [entry] && entry.to == Reserved && !ValidAt(m, entry.occurredAt))
  {
    hide ValidMandate, MandateId, Run, ValidateReservationCas;
    var w := Start(first, early);
    PreparedFromIssued(h, m, w, reservedAt, token, e);
    RunOfThree(h, w, Read(e), Prepare(e, m, first.revision, reservedAt, token), Commit(e));
    var prepared := Do(h, Do(h, w, Read(e)), Prepare(e, m, first.revision, reservedAt, token));
    var p, after := prepared.pending[e], Do(h, prepared, Commit(e));
    assert after.winners == [p];
    assert after.history == [after.history[0]] && after.history[0].occurredAt == early;
  }

  /** No executor claims a time that has not come when it prepares. */
  predicate ClaimsThePast(h: Hashes, w: World, steps: seq<Step>)
  {
    forall i :: 0 <= i < |steps| && steps[i].Prepare? ==> steps[i].reservedAt <= Run(h, w, steps[..i]).clock
  }

  predicate ClaimsHaveCome(w: World)
  {
    forall e <- w.pending :: w.pending[e].reservedAt <= w.clock
  }

  lemma StepKeepsClaims(h: Hashes, w: World, s: Step)
    requires ClaimsHaveCome(w) && (s.Prepare? ==> s.reservedAt <= w.clock)
    ensures ClaimsHaveCome(Do(h, w, s))
  {
    hide Matches, ValidateTransition, ValidateReservationCas;
  }

  lemma {:induction false} EveryClaimHasCome(h: Hashes, first: Snapshot, clock: U64, steps: seq<Step>)
    requires ClaimsThePast(h, Start(first, clock), steps)
    ensures ClaimsHaveCome(Run(h, Start(first, clock), steps))
  {
    hide Do, ClaimsHaveCome;
    if steps == [] {
      assert ClaimsHaveCome(Start(first, clock)) by { NothingIsClaimed(first, clock); }
    } else {
      var last := |steps| - 1;
      forall i | 0 <= i < last && steps[i].Prepare?
        ensures steps[i].reservedAt <= Run(h, Start(first, clock), steps[..last][..i]).clock
      {
        assert steps[..last][..i] == steps[..i];
      }
      EveryClaimHasCome(h, first, clock, steps[..last]);
      StepKeepsClaims(h, Run(h, Start(first, clock), steps[..last]), steps[last]);
    }
  }

  lemma NothingIsClaimed(first: Snapshot, clock: U64)
    ensures ClaimsHaveCome(Start(first, clock))
  {
  }

  /**
    In every run whose executors claim no future time, a winning commit lands inside its
    mandate's window exactly when the mandate has not expired by then.
   */
  lemma AnHonestCommitLandsExactlyBeforeExpiry(h: Hashes, first: Snapshot, clock: U64, steps: seq<Step>, e: Executor)
    requires ClaimsThePast(h, Start(first, clock), steps)
    requires e in Run(h, Start(first, clock), steps).pending
    requires Matches(Run(h, Start(first, clock), steps).row, Run(h, Start(first, clock), steps).pending[e].update)
    ensures var w := Run(h, Start(first, clock), steps);
      var p, after := w.pending[e], Do(h, w, Commit(e));
      && after.winners == w.winners + [p] && |after.history| == |w.history| + 1
      && after.history[|w.history|].to == Reserved
      && (ValidAt(p.mandate, after.history[|w.history|].occurredAt) <==> w.clock < p.mandate.expiresAt)
  {
    hide Run, Start, Matches, Do, ClaimsThePast, ValidMandate, MandateId;
    EveryClaimHasCome(h, first, clock, steps);
    CommitLandsInTheWindowExactlyWhen(h, first, clock, steps, e);
  }
}
