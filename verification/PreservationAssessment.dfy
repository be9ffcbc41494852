/** The preservation stage of verification (csv-accountability-verify/src/lib.rs). */
module PreservationAssessment {
  import opened Bytes
  import opened Text
  import opened Hashing
  import opened Preservation
  import opened Stages

  datatype AlgorithmPolicy = Allowed | Deprecated | Disallowed | Undecided

  datatype AlgorithmEntry = AlgorithmEntry(algorithmId: Text, status: AlgorithmPolicy)

  /** The first policy conclusion for an algorithm. */
  function PolicyFor(entries: seq<AlgorithmEntry>, id: Text): (r: Option<AlgorithmPolicy>)
    ensures r.Some? ==> AlgorithmEntry(id, r.value) in entries
    ensures r.None? <==> forall i :: 0 <= i < |entries| ==> entries[i].algorithmId != id
  {
    if entries == [] then None
    else if entries[0].algorithmId == id then Some(entries[0].status)
    else PolicyFor(entries[1..], id)
  }

  predicate CanonicalPolicy(entries: seq<AlgorithmEntry>)
  {
    && (forall i :: 0 <= i < |entries| ==> RegisteredId(entries[i].algorithmId, MAX_PRESERVATION_TEXT_BYTES))
    && forall i :: 0 < i < |entries| ==> Less(entries[i - 1].algorithmId, entries[i].algorithmId)
  }

  predicate WellFormed(h: Hashes, chain: seq<Generation>, assessed: seq<Assessment>, policy: seq<AlgorithmEntry>)
  {
    ValidChain(h, chain) && CanonicalPolicy(policy) && SortedAssessments(assessed)
  }

  predicate AllVerified(chain: seq<Generation>, assessed: seq<Assessment>)
  {
    forall i :: 0 <= i < |chain| ==> Conclusion(assessed, chain[i].id) == Some(Verified)
  }

  predicate AllAllowed(algorithms: seq<Text>, policy: seq<AlgorithmEntry>)
  {
    forall i :: 0 <= i < |algorithms| ==> PolicyFor(policy, algorithms[i]) == Some(Allowed)
  }

  predicate SomeAre(algorithms: seq<Text>, policy: seq<AlgorithmEntry>, conclusion: AlgorithmPolicy)
  {
    exists i :: 0 <= i < |algorithms| && PolicyFor(policy, algorithms[i]) == Some(conclusion)
  }

  predicate SomeConcluded(chain: seq<Generation>, assessed: seq<Assessment>, conclusion: Authenticated)
  {
    exists i :: 0 <= i < |chain| && Conclusion(assessed, chain[i].id) == Some(conclusion)
  }

  predicate SomeUnlisted(algorithms: seq<Text>, policy: seq<AlgorithmEntry>)
  {
    exists i :: 0 <= i < |algorithms| && PolicyFor(policy, algorithms[i]).None?
  }

  /** What can be wrong with preservation, in the order it is looked for. */
  function PreservationCauses(h: Hashes, chain: seq<Generation>, assessed: seq<Assessment>,
      policy: seq<AlgorithmEntry>): seq<Cause>
  {
    var latest := if chain == [] then [] else chain[|chain| - 1].envelope.algorithmIds;
    [Cause(Unsupported(PreservationEvidenceAbsent), chain == []),
     Cause(Fails(PreservationEvidenceInvalid), !WellFormed(h, chain, assessed, policy)),
     Cause(Fails(PreservationAuthenticityRejected), SomeConcluded(chain, assessed, Rejected)),
     Cause(Indeterminate(PreservationAuthenticityUnknown), !AllVerified(chain, assessed)),
     Cause(Fails(PreservationAlgorithmDisallowed), SomeAre(latest, policy, Disallowed)),
     Cause(Indeterminate(PreservationAlgorithmUnknown),
           SomeAre(latest, policy, Undecided) || SomeUnlisted(latest, policy)),
     Cause(Indeterminate(PreservationAlgorithmDeprecated), SomeAre(latest, policy, Deprecated))]
  }

  /** Authenticity of every generation, rejection first. */
  method AssessGenerations(chain: seq<Generation>, assessed: seq<Assessment>) returns (d: Disposition)
    ensures d == Pass <==> AllVerified(chain, assessed)
    ensures d.Fails? <==> SomeConcluded(chain, assessed, Rejected)
    ensures d in {Pass, Fails(PreservationAuthenticityRejected), Indeterminate(PreservationAuthenticityUnknown)}
  {
    hide Conclusion;
    var unknown := false;
    for i := 0 to |chain|
      invariant forall j :: 0 <= j < i ==> Conclusion(assessed, chain[j].id) != Some(Rejected)
      invariant unknown <==> exists j :: 0 <= j < i && Conclusion(assessed, chain[j].id) != Some(Verified)
    {
      match Conclusion(assessed, chain[i].id) {
        case Some(Verified) =>
        case Some(Rejected) => return Fails(PreservationAuthenticityRejected);
        case _ => unknown := true;
      }
    }
    return if unknown then Indeterminate(PreservationAuthenticityUnknown) else Pass;
  }

  /** Policy for the algorithms of one generation, prohibition first. */
  method AssessAlgorithms(algorithms: seq<Text>, policy: seq<AlgorithmEntry>) returns (d: Disposition)
    ensures d == Pass <==> AllAllowed(algorithms, policy)
    ensures d.Fails? <==> SomeAre(algorithms, policy, Disallowed)
    ensures d == Indeterminate(PreservationAlgorithmUnknown) <==>
              && !SomeAre(algorithms, policy, Disallowed)
              && (SomeAre(algorithms, policy, Undecided) || SomeUnlisted(algorithms, policy))
    ensures d == Indeterminate(PreservationAlgorithmDeprecated) <==>
              && !SomeAre(algorithms, policy, Disallowed)
              && !SomeAre(algorithms, policy, Undecided) && !SomeUnlisted(algorithms, policy)
              && SomeAre(algorithms, policy, Deprecated)
    ensures d in {Pass, Fails(PreservationAlgorithmDisallowed), Indeterminate(PreservationAlgorithmUnknown),
                  Indeterminate(PreservationAlgorithmDeprecated)}
  {
    hide PolicyFor;
    var deprecated, unknown := false, false;
    for i := 0 to |algorithms|
      invariant forall j :: 0 <= j < i ==> PolicyFor(policy, algorithms[j]) != Some(Disallowed)
      invariant deprecated <==> exists j :: 0 <= j < i && PolicyFor(policy, algorithms[j]) == Some(Deprecated)
      invariant unknown <==> exists j :: 0 <= j < i && PolicyFor(policy, algorithms[j]) in {None, Some(Undecided)}
      invariant !deprecated && !unknown ==> forall j :: 0 <= j < i ==> PolicyFor(policy, algorithms[j]) == Some(Allowed)
    {
      match PolicyFor(policy, algorithms[i]) {
        case Some(Allowed) =>
        case Some(Deprecated) => deprecated := true;
        case Some(Disallowed) => return Fails(PreservationAlgorithmDisallowed);
        case _ => unknown := true;
      }
    }
    return if unknown then Indeterminate(PreservationAlgorithmUnknown)
           else if deprecated then Indeterminate(PreservationAlgorithmDeprecated)
           else Pass;
  }

  /** A renewal history that is malformed, disowned, or vouched for throughout but resting on a prohibited algorithm. */
  predicate PreservationRefuted(h: Hashes, chain: seq<Generation>, assessed: seq<Assessment>,
      policy: seq<AlgorithmEntry>)
  {
    chain != [] &&
      (|| !WellFormed(h, chain, assessed, policy)
       || SomeConcluded(chain, assessed, Rejected)
       || (AllVerified(chain, assessed) && SomeAre(chain[|chain| - 1].envelope.algorithmIds, policy, Disallowed)))
  }

  method AssessPreservation(h: Hashes, chain: seq<Generation>, assessed: seq<Assessment>, policy: seq<AlgorithmEntry>)
      returns (d: Disposition)
    ensures d.Unsupported? <==> chain == []
    ensures chain != [] ==> (d == Fails(PreservationEvidenceInvalid) <==> !WellFormed(h, chain, assessed, policy))
    ensures d == Pass <==>
              && WellFormed(h, chain, assessed, policy)
              && AllVerified(chain, assessed)
              && AllAllowed(chain[|chain| - 1].envelope.algorithmIds, policy)
    ensures d.Fails? <==> PreservationRefuted(h, chain, assessed, policy)
    ensures Explains(PreservationCauses(h, chain, assessed, policy), d)
  {
    hide ValidChain, CanonicalPolicy, SortedAssessments, AllVerified, AllAllowed, SomeAre, SomeUnlisted, SomeConcluded,
         Conclusion, PolicyFor, Explains;
    PickExplains(PreservationCauses(h, chain, assessed, policy));
    if chain == [] {
      assert !WellFormed(h, chain, assessed, policy) by { EmptyChainIsInvalid(h); }
      return Unsupported(PreservationEvidenceAbsent);
    }
    var valid := ValidateChain(h, chain);
    if valid.Err? || !CanonicalPolicy(policy) || !SortedAssessments(assessed) {
      return Fails(PreservationEvidenceInvalid);
    }
    d := AssessGenerations(chain, assessed);
    if d != Pass {
      return;
    }
    d := AssessAlgorithms(chain[|chain| - 1].envelope.algorithmIds, policy);
    VerifiedIsNotRejected(chain, assessed);
  }

  lemma VerifiedIsNotRejected(chain: seq<Generation>, assessed: seq<Assessment>)
    requires AllVerified(chain, assessed)
    ensures !SomeConcluded(chain, assessed, Rejected)
  {
    hide Conclusion;
  }

  lemma EmptyChainIsInvalid(h: Hashes)
    ensures !ValidChain(h, [])
  {
  }

  /**
    Although only the latest generation's algorithms are checked, a pass covers the whole
    history: every algorithm any generation ever declared is allowed, and every generation
    is verified and preserves the first one's bytes.
   */
  lemma PassCoversTheWholeHistory(h: Hashes, chain: seq<Generation>, assessed: seq<Assessment>,
      policy: seq<AlgorithmEntry>, i: nat)
    requires ValidChain(h, chain) && i < |chain|
    requires AllVerified(chain, assessed) && AllAllowed(chain[|chain| - 1].envelope.algorithmIds, policy)
    ensures AllAllowed(chain[i].envelope.algorithmIds, policy)
    ensures Conclusion(assessed, chain[i].id) == Some(Verified)
    ensures chain[i].envelope.originalBytes == chain[0].envelope.originalBytes
    ensures chain[i].envelope.objectRegistryId == chain[0].envelope.objectRegistryId
  {
    hide Conclusion, PolicyFor, Renewals, UniqueUpTo;
    var latest := |chain| - 1;
    if i > 0 { HistoryIsNeverRewritten(h, chain, 0, i); }
    if i < latest {
      HistoryIsNeverRewritten(h, chain, i, latest);
      var ids, all := chain[i].envelope.algorithmIds, chain[latest].envelope.algorithmIds;
      forall k | 0 <= k < |ids|
        ensures PolicyFor(policy, ids[k]) == Some(Allowed)
      {
        assert ids[k] in all;
        var m :| 0 <= m < |all| && all[m] == ids[k];
      }
    }
  }
}
