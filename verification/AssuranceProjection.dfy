/**
  The projection of a verification report onto the eleven assurance dimensions, and what
  gates can conclude from it (csv-accountability-verify/src/lib.rs).
 */
module AssuranceProjection {
  import opened Bytes
  import opened Text
  import opened Sorting
  import opened Stages
  import opened Verifier
  import opened A = Assurance

  function REQUIREMENT_MET(): (s: Text)
    ensures Printable(s, 512)
  {
    Ascii("ACCOUNTABILITY.REQUIREMENT_MET")
  }

  function NOT_EVALUATED(): (s: Text)
    ensures Printable(s, 512)
  {
    Code("PROFILE_V0_1", "NOT_EVALUATED")
  }

  function SINGLE_USE_INDEPENDENTLY_ENFORCED(): (s: Text)
    ensures Printable(s, 512)
  {
    Code("SINGLE_USE", "INDEPENDENTLY_ENFORCED")
  }

  function CSV_SEAL_CONSUMPTION_VALID(): (s: Text)
    ensures Printable(s, 512)
  {
    Code("EVIDENCE", "CSV_SEAL_CONSUMPTION_VALID")
  }

  function LIMITED_TO_CONTEXT(): (s: Text)
    ensures Printable(s, 512)
  {
    Sentence("Conclusion", "is limited to the selected, hash-bound verification", "context")
  }

  function NOT_EVALUATED_NOTE(): (s: Text)
    ensures Printable(s, 512)
  {
    Sentence("Not", "evaluated by accountability profile", "v0.1")
  }

  function ANCHOR_DID_NOT_CORROBORATE(): (s: Text)
    ensures Printable(s, 512)
  {
    Sentence("A", "preserved single-use anchor did not corroborate this", "mandate")
  }

  function NO_ANCHOR(): (s: Text)
    ensures Printable(s, 512)
  {
    Sentence("No", "independent single-use anchor was preserved for this", "mandate")
  }

  // ---- One dimension ------------------------------------------------------------------

  function Selected(results: seq<StageResult>, stages: set<Stage>): (r: seq<StageResult>)
    ensures |r| <= |results|
    ensures forall s :: s in r <==> s in results && s.stage in stages
  {
    if results == [] then []
    else
      var rest := Selected(results[1..], stages);
      assert results == [results[0]] + results[1..];
      if results[0].stage in stages then [results[0]] + rest else rest
  }

  function Codes(results: seq<StageResult>): (r: seq<Text>)
    ensures |r| <= |results|
    ensures forall t :: t in r ==> Printable(t, 512)
  {
    if results == [] then []
    else
      var rest := Codes(results[1..]);
      match results[0].disposition
      case Pass => rest
      case Fails(reason) => [RegistryId(reason)] + rest
      case Indeterminate(reason) => [RegistryId(reason)] + rest
      case Unsupported(reason) => [RegistryId(reason)] + rest
  }

  function SortedCodes(codes: seq<Text>): (r: seq<Text>)
    ensures Ascending(r) && |r| <= |codes|
    ensures forall t :: t in r <==> t in codes
  {
    var r := SortedUnique(codes);
    assert forall i :: 0 <= i < |r| ==> r[i] in codes;
    r
  }

  function StatusOf(results: seq<StageResult>): A.Status
  {
    if exists s :: s in results && s.disposition.Fails? then A.NotSatisfied
    else if exists s :: s in results && s.disposition.Indeterminate? then A.Indeterminate
    else if results == [] || exists s :: s in results && s.disposition.Unsupported? then A.NotApplicable
    else A.Satisfied
  }

  function Evaluated(dimension: A.Dimension, report: Report, stages: set<Stage>): A.DimensionResult
  {
    var results := Selected(report.stages, stages);
    var status := StatusOf(results);
    var codes := Codes(results) + if status == A.Satisfied then [REQUIREMENT_MET()] else [];
    A.DimensionResult(dimension, status, None, SortedCodes(codes), [],
                      [if status == A.NotApplicable then NOT_EVALUATED_NOTE() else LIMITED_TO_CONTEXT()])
  }

  function Deferred(dimension: A.Dimension): A.DimensionResult
  {
    A.DimensionResult(dimension, A.NotApplicable, None, [NOT_EVALUATED()], [], [NOT_EVALUATED_NOTE()])
  }

  /** The disposition of the first corroboration stage. */
  function Corroboration(results: seq<StageResult>): (r: Option<Disposition>)
    ensures r.Some? ==> StageResult(Stage.ExternalCorroboration, r.value) in results
    ensures r.None? <==> forall s :: s in results ==> s.stage != Stage.ExternalCorroboration
  {
    if results == [] then None
    else if results[0].stage == Stage.ExternalCorroboration then Some(results[0].disposition)
    else
      assert results == [results[0]] + results[1..];
      Corroboration(results[1..])
  }

  function External(status: A.Status, codes: seq<Text>, limitation: Text): A.DimensionResult
  {
    A.DimensionResult(A.ExternalCorroboration, status, None, codes, [], [limitation])
  }

  function Corroborates(report: Report): A.DimensionResult
  {
    match Corroboration(report.stages)
    case Some(Pass) =>
      External(A.Satisfied, SortedCodes([SINGLE_USE_INDEPENDENTLY_ENFORCED(), CSV_SEAL_CONSUMPTION_VALID()]),
          LIMITED_TO_CONTEXT())
    case Some(Indeterminate(reason)) => External(A.Indeterminate, [RegistryId(reason)], ANCHOR_DID_NOT_CORROBORATE())
    case _ => External(A.NotApplicable, [RegistryId(IndependentSingleUseUnverified)], NO_ANCHOR())
  }

  function AssuranceProfile(contextId: Digest, report: Report): (p: A.Profile)
    ensures |p.dimensions| == |A.DIMENSIONS|
  {
    A.Profile(contextId, [
      Evaluated(A.Structural, report, {Structure}),
      Deferred(A.Cryptographic),
      Deferred(A.Identity),
      Evaluated(A.Authority, report, {IntentStage, AuthorityStage, Executor}),
      Evaluated(A.Temporal, report, {Stage.Temporal}),
      Evaluated(A.SingleUse, report, {Replay}),
      Evaluated(A.Execution, report, {ReceiptStage}),
      Corroborates(report),
      Evaluated(A.Completeness, report, {EvidenceStage, ContradictionAndGap}),
      Evaluated(A.Custody, report, {Stage.Custody}),
      Evaluated(A.Preservation, report, {PreservationStage})])
  }

  // ---- The projection is always a valid profile -------------------------------------------

  lemma EvaluatedIsValid(dimension: A.Dimension, report: Report, stages: set<Stage>)
    requires |report.stages| <= 12
    ensures A.ValidDimension(Evaluated(dimension, report, stages)) &&
        Evaluated(dimension, report, stages).dimension == dimension
  {
    hide Codes, Selected, SortedCodes, Printable, REQUIREMENT_MET, NOT_EVALUATED_NOTE, LIMITED_TO_CONTEXT, StatusOf,
         Utf8;
    var d := Evaluated(dimension, report, stages);
    forall i | 0 <= i < |d.reasonCodes|
      ensures Printable(d.reasonCodes[i], 512)
    {
      assert d.reasonCodes[i] in d.reasonCodes;
    }
  }

  lemma CorroboratesIsValid(report: Report)
    ensures A.ValidDimension(Corroborates(report)) && Corroborates(report).dimension == A.ExternalCorroboration
  {
    hide Printable, SortedCodes, RegistryId, SINGLE_USE_INDEPENDENTLY_ENFORCED, CSV_SEAL_CONSUMPTION_VALID,
         LIMITED_TO_CONTEXT, ANCHOR_DID_NOT_CORROBORATE, NO_ANCHOR, Corroboration, Utf8;
    var d := Corroborates(report);
    forall i | 0 <= i < |d.reasonCodes|
      ensures Printable(d.reasonCodes[i], 512)
    {
      assert d.reasonCodes[i] in d.reasonCodes;
    }
  }

  lemma DeferredIsValid(dimension: A.Dimension)
    ensures A.ValidDimension(Deferred(dimension)) && Deferred(dimension).dimension == dimension
  {
    hide Printable, NOT_EVALUATED, NOT_EVALUATED_NOTE, Utf8;
  }

  /** The dimension at a position of the projected profile. */
  function DimensionAt(report: Report, i: nat): A.DimensionResult
  {
    match i
    case 0 => Evaluated(A.Structural, report, {Structure})
    case 1 => Deferred(A.Cryptographic)
    case 2 => Deferred(A.Identity)
    case 3 => Evaluated(A.Authority, report, {IntentStage, AuthorityStage, Executor})
    case 4 => Evaluated(A.Temporal, report, {Stage.Temporal})
    case 5 => Evaluated(A.SingleUse, report, {Replay})
    case 6 => Evaluated(A.Execution, report, {ReceiptStage})
    case 7 => Corroborates(report)
    case 8 => Evaluated(A.Completeness, report, {EvidenceStage, ContradictionAndGap})
    case 9 => Evaluated(A.Custody, report, {Stage.Custody})
    case _ => Evaluated(A.Preservation, report, {PreservationStage})
  }

  lemma ProfileAt(contextId: Digest, report: Report, i: nat)
    requires i < 11
    ensures AssuranceProfile(contextId, report).dimensions[i] == DimensionAt(report, i)
  {
    hide Evaluated, Deferred, Corroborates, Utf8;
  }

  lemma DimensionIsValid(report: Report, i: nat)
    requires Complete(report) && i < 11
    ensures A.ValidDimension(DimensionAt(report, i)) && DimensionAt(report, i).dimension == A.DIMENSIONS[i]
  {
    hide Evaluated, Deferred, Corroborates, A.ValidDimension, Overall, Utf8;
    match i {
      case 0 => EvaluatedIsValid(A.Structural, report, {Structure});
      case 1 => DeferredIsValid(A.Cryptographic);
      case 2 => DeferredIsValid(A.Identity);
      case 3 => EvaluatedIsValid(A.Authority, report, {IntentStage, AuthorityStage, Executor});
      case 4 => EvaluatedIsValid(A.Temporal, report, {Stage.Temporal});
      case 5 => EvaluatedIsValid(A.SingleUse, report, {Replay});
      case 6 => EvaluatedIsValid(A.Execution, report, {ReceiptStage});
      case 7 => CorroboratesIsValid(report);
      case 8 => EvaluatedIsValid(A.Completeness, report, {EvidenceStage, ContradictionAndGap});
      case 9 => EvaluatedIsValid(A.Custody, report, {Stage.Custody});
      case _ => EvaluatedIsValid(A.Preservation, report, {PreservationStage});
    }
  }

  /** Every projected profile passes its own validation. */
  lemma ProjectionIsValid(contextId: Digest, report: Report)
    requires Complete(report)
    ensures A.ValidProfile(AssuranceProfile(contextId, report))
  {
    hide AssuranceProfile, DimensionAt, A.ValidDimension, Complete;
    var p := AssuranceProfile(contextId, report);
    forall i | 0 <= i < |p.dimensions|
      ensures p.dimensions[i].dimension == A.DIMENSIONS[i] && A.ValidDimension(p.dimensions[i])
    {
      ProfileAt(contextId, report, i);
      DimensionIsValid(report, i);
    }
  }

  // ---- What the dimensions say about the verdict ----------------------------------------------

  predicate SomeDimension(p: A.Profile, status: A.Status)
  {
    exists i :: 0 <= i < |p.dimensions| && p.dimensions[i].status == status
  }

  /** Some stage of a set is in the report with a disposition of a kind. */
  predicate SomeStage(report: Report, stages: set<Stage>, kind: Disposition -> bool)
  {
    exists s :: s in report.stages && s.stage in stages && kind(s.disposition)
  }

  predicate AnyAtAll(d: Disposition) { true }
  predicate Failing(d: Disposition) { d.Fails? }
  predicate NotPassing(d: Disposition) { !d.Pass? }
  predicate Troubling(d: Disposition) { d.Fails? || d.Indeterminate? }

  /**
    A dimension's status is the worst disposition among the stages it is evaluated from, and
    it is satisfied exactly when there are such stages and every one of them passes.
   */
  lemma StatusReflectsStages(dimension: A.Dimension, report: Report, stages: set<Stage>)
    ensures var status := Evaluated(dimension, report, stages).status;
            && (status == A.NotSatisfied <==> SomeStage(report, stages, Failing))
            && (status in {A.NotSatisfied, A.Indeterminate} <==> SomeStage(report, stages, Troubling))
            && (status == A.Satisfied <==>
                SomeStage(report, stages, AnyAtAll) && !SomeStage(report, stages, NotPassing))
  {
    hide Codes, Selected, SortedCodes, REQUIREMENT_MET, NOT_EVALUATED_NOTE, LIMITED_TO_CONTEXT, Utf8;
    var results := Selected(report.stages, stages);
    assert results != [] ==> results[0] in results;
  }

  /**
    The reason codes of a dimension are those its stages give, with the requirement-met code
    exactly when it is satisfied; its limitation says whether it was evaluated at all.
   */
  lemma ReasonsReflectStages(dimension: A.Dimension, report: Report, stages: set<Stage>)
    ensures var d := Evaluated(dimension, report, stages);
            && d.dimension == dimension && d.level == None && d.evidenceRefs == []
            && Ascending(d.reasonCodes)
            && (forall t :: t in d.reasonCodes <==>
                  || (t == REQUIREMENT_MET() && d.status == A.Satisfied)
                  || (exists s :: s in report.stages && s.stage in stages && NotPassing(s.disposition) &&
                        t == RegistryId(s.disposition.reason)))
            && d.limitations == [if d.status == A.NotApplicable then NOT_EVALUATED_NOTE() else LIMITED_TO_CONTEXT()]
  {
    hide Codes, Selected, SortedCodes, REQUIREMENT_MET, NOT_EVALUATED_NOTE, LIMITED_TO_CONTEXT, RegistryId, StatusOf,
         Utf8;
    CodesAreTheReasons(Selected(report.stages, stages));
  }

  lemma {:induction false} CodesAreTheReasons(results: seq<StageResult>)
    ensures forall t :: t in Codes(results) <==>
              exists s :: s in results && NotPassing(s.disposition) && t == RegistryId(s.disposition.reason)
  {
    hide RegistryId, Utf8;
    if results != [] {
      CodesAreTheReasons(results[1..]);
      assert results == [results[0]] + results[1..];
    }
  }

  lemma CorroborationReflectsItsStage(report: Report)
    requires Complete(report)
    ensures Corroborates(report).status != A.NotSatisfied
    ensures Corroborates(report).status == A.Indeterminate <==>
              exists s :: s in report.stages && s.stage == Stage.ExternalCorroboration && s.disposition.Indeterminate?
    ensures Corroborates(report).status == A.Satisfied <==>
              exists s :: s in report.stages && s.stage == Stage.ExternalCorroboration && s.disposition.Pass?
  {
    hide SortedCodes, RegistryId, SINGLE_USE_INDEPENDENTLY_ENFORCED, CSV_SEAL_CONSUMPTION_VALID, LIMITED_TO_CONTEXT,
         ANCHOR_DID_NOT_CORROBORATE, NO_ANCHOR, Corroboration, Utf8, Overall;
    OneCorroborationStage(report);
  }

  /** What the corroboration dimension says, by the disposition of its one stage. */
  lemma CorroborationReasons(report: Report)
    requires Complete(report)
    ensures var d, stage := Corroborates(report), report.stages[9].disposition;
            && d.dimension == A.ExternalCorroboration && d.level == None && d.evidenceRefs == []
            && Ascending(d.reasonCodes)
            && (d.status == A.Satisfied ==>
                && (forall t :: t in d.reasonCodes <==>
                      t in [SINGLE_USE_INDEPENDENTLY_ENFORCED(), CSV_SEAL_CONSUMPTION_VALID()])
                && d.limitations == [LIMITED_TO_CONTEXT()])
            && (d.status == A.Indeterminate ==>
                stage.Indeterminate? && d.reasonCodes == [RegistryId(stage.reason)] &&
                d.limitations == [ANCHOR_DID_NOT_CORROBORATE()])
            && (d.status == A.NotApplicable ==>
                d.reasonCodes == [RegistryId(IndependentSingleUseUnverified)] && d.limitations == [NO_ANCHOR()])
  {
    hide SortedCodes, RegistryId, SINGLE_USE_INDEPENDENTLY_ENFORCED, CSV_SEAL_CONSUMPTION_VALID, LIMITED_TO_CONTEXT,
         ANCHOR_DID_NOT_CORROBORATE, NO_ANCHOR, Corroboration, Utf8, Overall;
    OneCorroborationStage(report);
  }

  /** A complete report has one corroboration stage, at its place in the order. */
  lemma OneCorroborationStage(report: Report)
    requires Complete(report)
    ensures report.stages[9] in report.stages
    ensures forall s :: s in report.stages && s.stage == Stage.ExternalCorroboration ==> s == report.stages[9]
    ensures report.stages[9].stage == Stage.ExternalCorroboration && !report.stages[9].disposition.Fails?
  {
    hide Overall;
    forall s | s in report.stages && s.stage == Stage.ExternalCorroboration
      ensures s == report.stages[9]
    {
      var i :| 0 <= i < |report.stages| && report.stages[i] == s;
      assert report.stages[i].stage == STAGE_ORDER[i];
    }
  }

  /** The position of the dimension a stage contributes to. */
  function Home(stage: Stage): (i: nat)
    ensures i < 11
  {
    match stage
    case Structure => 0
    case IntentStage | AuthorityStage | Executor => 3
    case Temporal => 4
    case Replay => 5
    case ReceiptStage => 6
    case ExternalCorroboration => 7
    case EvidenceStage | ContradictionAndGap => 8
    case Custody => 9
    case PreservationStage => 10
  }

  /** The stages that contribute to the dimension at a position. */
  ghost function StagesAt(i: nat): set<Stage>
  {
    set stage: Stage | Home(stage) == i
  }

  /** The status a report gives the dimension at a position, by the dispositions of the stages at home there. */
  ghost predicate StatusAt(report: Report, i: nat, status: A.Status)
  {
    var stages := StagesAt(i);
    && (status == A.NotSatisfied <==> SomeStage(report, stages, Failing))
    && (status in {A.NotSatisfied, A.Indeterminate} <==> SomeStage(report, stages, Troubling))
    && (status == A.Satisfied <==> SomeStage(report, stages, AnyAtAll) && !SomeStage(report, stages, NotPassing))
  }

  lemma EvaluatedAt(dimension: A.Dimension, report: Report, stages: set<Stage>, i: nat)
    requires forall stage :: stage in stages <==> Home(stage) == i
    ensures StatusAt(report, i, Evaluated(dimension, report, stages).status)
  {
    hide Evaluated, Home, SomeStage;
    StatusReflectsStages(dimension, report, stages);
    assert stages == StagesAt(i);
  }

  lemma CorroboratesAt(report: Report)
    requires Complete(report)
    ensures StatusAt(report, 7, Corroborates(report).status)
  {
    hide Corroborates, Complete;
    CorroborationReflectsItsStage(report);
    OneCorroborationStage(report);
    assert forall stage :: stage in StagesAt(7) <==> stage == Stage.ExternalCorroboration;
  }

  lemma NothingAt(report: Report, i: nat)
    requires forall stage :: Home(stage) != i
    ensures StatusAt(report, i, A.NotApplicable)
  {
  }

  /** Every dimension has the status its home stages give it; without any it is not applicable. */
  lemma DimensionReflectsItsStages(report: Report, i: nat)
    requires Complete(report) && i < 11
    ensures StatusAt(report, i, DimensionAt(report, i).status)
  {
    hide Evaluated, Corroborates, Complete, StatusAt, Utf8, NOT_EVALUATED, NOT_EVALUATED_NOTE;
    match i {
      case 0 => EvaluatedAt(A.Structural, report, {Structure}, 0);
      case 1 => NothingAt(report, 1);
      case 2 => NothingAt(report, 2);
      case 3 => EvaluatedAt(A.Authority, report, {IntentStage, AuthorityStage, Executor}, 3);
      case 4 => EvaluatedAt(A.Temporal, report, {Stage.Temporal}, 4);
      case 5 => EvaluatedAt(A.SingleUse, report, {Replay}, 5);
      case 6 => EvaluatedAt(A.Execution, report, {ReceiptStage}, 6);
      case 7 => CorroboratesAt(report);
      case 8 => EvaluatedAt(A.Completeness, report, {EvidenceStage, ContradictionAndGap}, 8);
      case 9 => EvaluatedAt(A.Custody, report, {Stage.Custody}, 9);
      case _ => EvaluatedAt(A.Preservation, report, {PreservationStage}, 10);
    }
  }

  /** The profile gives each dimension, in its place, the status of the stages at home there. */
  lemma ProfileReflectsStages(contextId: Digest, report: Report, i: nat)
    requires Complete(report) && i < 11
    ensures var p := AssuranceProfile(contextId, report);
            && p.contextId == contextId && p.dimensions[i].dimension == A.DIMENSIONS[i]
            && StatusAt(report, i, p.dimensions[i].status)
  {
    hide DimensionAt, StatusAt, A.ValidDimension, Evaluated, Deferred, Corroborates, Complete, Utf8;
    ProfileAt(contextId, report, i);
    DimensionIsValid(report, i);
    DimensionReflectsItsStages(report, i);
  }

  ghost predicate FailsAt(report: Report, i: nat) { SomeStage(report, StagesAt(i), Failing) }

  ghost predicate TroubledAt(report: Report, i: nat) { SomeStage(report, StagesAt(i), Troubling) }

  /**
    The dimensions determine the verdict: it is Invalid exactly when one is not satisfied,
    and Valid exactly when none is not satisfied or indeterminate.
   */
  lemma DimensionsDetermineTheVerdict(contextId: Digest, report: Report)
    requires Complete(report)
    ensures var p := AssuranceProfile(contextId, report);
            && (report.verdict == Invalid <==> SomeDimension(p, A.NotSatisfied))
            && (report.verdict == Valid <==> !SomeDimension(p, A.NotSatisfied) && !SomeDimension(p, A.Indeterminate))
  {
    hide AssuranceProfile, SomeStage, StagesAt;
    var p := AssuranceProfile(contextId, report);
    forall i: nat | i < 11
      ensures p.dimensions[i].status == A.NotSatisfied <==> FailsAt(report, i)
      ensures p.dimensions[i].status in {A.NotSatisfied, A.Indeterminate} <==> TroubledAt(report, i)
    {
      ProfileReflectsStages(contextId, report, i);
    }
    EveryStageHasAHome(report);
    if i :| 0 <= i < 11 && p.dimensions[i].status == A.NotSatisfied { assert FailsAt(report, i); }
    if i :| 0 <= i < 11 && p.dimensions[i].status == A.Indeterminate { assert TroubledAt(report, i); }
    if i: nat :| i < 11 && FailsAt(report, i) { assert p.dimensions[i].status == A.NotSatisfied; }
    if i: nat :| i < 11 && TroubledAt(report, i) { assert p.dimensions[i].status in {A.NotSatisfied, A.Indeterminate}; }
  }

  lemma EveryStageHasAHome(report: Report)
    ensures SomeFails(report.stages) <==> exists i: nat :: i < 11 && FailsAt(report, i)
    ensures SomeFails(report.stages) || SomeIndeterminate(report.stages) <==>
        exists i: nat :: i < 11 && TroubledAt(report, i)
  {
    forall k | 0 <= k < |report.stages|
      ensures Failing(report.stages[k].disposition) ==> FailsAt(report, Home(report.stages[k].stage))
      ensures Troubling(report.stages[k].disposition) ==> TroubledAt(report, Home(report.stages[k].stage))
    {
      assert report.stages[k] in report.stages;
    }
    if i: nat :| i < 11 && FailsAt(report, i) {
      var s :| s in report.stages && Failing(s.disposition);
      var k :| 0 <= k < |report.stages| && report.stages[k] == s;
    }
    if i: nat :| i < 11 && TroubledAt(report, i) {
      var s :| s in report.stages && Troubling(s.disposition);
      var k :| 0 <= k < |report.stages| && report.stages[k] == s;
    }
  }

  // ---- Gates over projected profiles ------------------------------------------------------------

  /** A gate that blocks on every unmet or undecided dimension. */
  predicate Strict(g: A.Gate)
  {
    forall i :: 0 <= i < |g.rules| ==> g.rules[i].notSatisfied == A.Block && g.rules[i].indeterminate == A.Block
  }

  /** A gate that blocks on nothing else. */
  predicate Lenient(g: A.Gate)
  {
    forall i :: 0 <= i < |g.rules| ==> g.rules[i].satisfied != A.Block && g.rules[i].notApplicable != A.Block
  }

  /** A strict gate lets only valid reports through, and one that blocks on nothing else lets them all through. */
  lemma StrictGatesAdmitOnlyValidReports(g: A.Gate, contextId: Digest, report: Report, outcome: A.Outcome)
    requires Complete(report) && A.ValidGate(g) && Strict(g)
    requires A.MostSevere(g, AssuranceProfile(contextId, report), |A.DIMENSIONS|, outcome)
    ensures outcome != A.Blocked ==> report.verdict == Valid
    ensures Lenient(g) && report.verdict == Valid ==> outcome != A.Blocked
  {
    hide AssuranceProfile, Complete;
    DimensionsDetermineTheVerdict(contextId, report);
    var p := AssuranceProfile(contextId, report);
    forall i | 0 <= i < |p.dimensions|
      ensures p.dimensions[i].status in {A.NotSatisfied, A.Indeterminate} ==>
          A.SomeHandled(g, p, |A.DIMENSIONS|, A.Block)
    {
      assert p.dimensions[i].status in {A.NotSatisfied, A.Indeterminate} ==>
          A.Prescribes(g.rules[i], p.dimensions[i].status, A.Block);
    }
    if A.SomeHandled(g, p, |A.DIMENSIONS|, A.Block) && Lenient(g) {
      var i :| 0 <= i < |A.DIMENSIONS| && A.Prescribes(g.rules[i], p.dimensions[i].status, A.Block);
      assert p.dimensions[i].status in {A.NotSatisfied, A.Indeterminate};
    }
  }
}
