# Parwana accountability core, in Dafny

A model of the Parwana accountability protocol and of the admission controller beside it, with
proofs about whole runs, whole chains and whole lineages. Parwana records what an automated agent was
allowed to do, what it did, and what evidence exists: an *intent* is authorised by a single-use
*mandate*, carried out as an *attempt*, reported by a *receipt*, supported by an *evidence graph*,
and judged by a *verifier* whose report is projected onto eleven assurance dimensions and put to a
gate.

`dafny verify dfyconfig.toml` checks the project with Dafny 4.11.

## How the model reads

- One module per source file or component. Code made of matches and iterator expressions is functions
  and predicates. Loops, cursors, the search stack, the registry and the admission controller are
  methods and classes, each proved against a function or predicate. What makes an object valid is a
  predicate; `Validators` holds the checks that decide it, in their order and with their errors.
- The hash functions are a parameter (`Hashes`) about which nothing is assumed. A 32-byte hash cannot
  be injective on longer inputs, so every commitment theorem concludes "equal, or this pair of inputs
  collides", naming the pair, instead of assuming injectivity.
- Bytes are integers from 0 to 255. Text is bytes that are well-formed UTF-8 in the sense of section 4
  of RFC 3629; trimming and control characters are those of Unicode White_Space and Cc.
- Integers carry their width. Length prefixes are the truncating 32-bit casts of the source; the
  validators keep every object but the intent clear of the truncation.
- A layout is a right-nested chain of pushes, each promising to be undone by its read; `ReadsConsume`
  gives the other direction. Where the source has a decoder, an imperative decoder over a `Cursor` is
  proved equal to the parse; where it has only an encoder, an imperative encoder appends to a `Writer`
  and is proved to produce the layout. `Layouts` says in offsets and digits where the fields of a
  mandate, an attempt and a receipt then lie.

## Findings

Places where the code, as it stands, does less than its comments or the obvious law say. Each has a
lemma at a concrete failing input and a lemma saying exactly when the code does meet the law.

- The intent encoding is injective on valid intents of one size if and only if that size is below
  2^32 + 110 bytes (`InjectiveExactlyBelowTheAmbiguousSize`). From that size on there are two valid
  intents with one encoding, so one identifier under every hash (`LongIntentsAreConfused`), and two
  valid verdicts that share receipt, attempt and mandate but not the intent
  (`LongIntentsShareAVerdict`). Measuring one intent is enough: a short one shares its bytes with no
  valid intent of whatever field lengths (`IntentBytesInjective`), and every intent that verifies
  under a built-in profile is short (`BuiltInIntentsAreShort`).
- A valid chain anchor round-trips if and only if its finality is not a pending reading whose positive
  threshold is met (`AnchorRoundTripsExactlyWhen`, `SomeValidAnchorDoesNotRoundTrip`).
- Classification is documented as the only path to a final reading, at a positive depth. A decoded
  anchor's finality is one that classification can produce if and only if it is not final at depth
  zero, which the decoder accepts (`DecodedFinalityIsClassifiableExactlyWhen`,
  `SomeDecodedFinalityIsNotClassifiable`).
- Reconciliation ignores the order of observations if and only if the sources differ on the hash or
  agree on the height; the height reported as agreed is the first source's
  (`ResultIgnoresOrderExactlyWhen`, `ResultMayDependOnOrder`).
- An intent constructed under a valid descriptor re-verifies if and only if it also meets the
  protocol-wide limits and the descriptor names an action and media type
  (`ConstructedIntentVerifiesExactlyWhen`, `ConstructedIntentMayFailToVerify`).
- Registration is documented as order-independent; two registrations commute if and only if they do
  not compete for one free identifier (`RegistrationsCommuteExactlyWhen`, `RegistrationsMayNotCommute`).
- Joining a tag and a payload with a zero byte separates two tags if and only if neither, so ended,
  begins the other (`TagsAreConfusableExactlyWhen`, `SomeTagsAreConfused`). The protocol's own tags
  contain no zero byte (`ProtocolTagsAreZeroFree`).
- Gate-policy identifiers, gate-profile identifiers and parameter commitments share one hash domain. A
  descriptor's commitments can hash what a gate policy hashes if and only if its tag is the policy's
  own, or that tag, a zero byte and what stands before some zero byte of the encoded contexts
  (`CommitmentMeetsPolicyExactlyWhen`, `SomeCommitmentIsAGatePolicy`). They can hash what a gate
  profile hashes, which has no tag, if and only if the tag is what stands before a zero byte of it
  (`CommitmentMeetsGateProfileExactlyWhen`, `SomeCommitmentIsAGateProfile`); of the tags without zero
  bytes that is the empty one (`ZeroFreeTagMeetsGateProfileExactlyWhen`), which descriptor validation
  admits. Under the built-in profiles none of this happens (`BuiltInCommitmentsAreSeparate`,
  `GateProfilesAreSeparate`).
- The reservation check reads the time its caller claims, and the compare-and-swap reads none. A
  winning commit lands inside its mandate's window if and only if the clock is inside it
  (`CommitLandsInTheWindowExactlyWhen`), so it may land late (`AReservationMayLandAfterExpiry`) or,
  with a claim about the future, early (`AReservationMayLandBeforeItsWindow`). In every run whose
  executors claim no future time it lands inside if and only if the mandate has not expired
  (`AnHonestCommitLandsExactlyBeforeExpiry`).
- The verifier holds only the evaluation time against the mandate's window. A valid verdict admits
  exactly the times its objects order among themselves (`TimesOfAValidVerdictExactly`), among them a
  dispatch after expiry and after the reported completion (`AValidVerdictMayDispatchLate`); whoever
  needs dispatch inside the window has to compare the two.
- Single use reaches the verifier as a conclusion: one mandate can have valid verdicts on two attempts
  (`OneMandateMayHaveTwoAttempts`). A caller that records one attempt per mandate and answers from
  that record rules it out (`OneRecordOneAttempt`).
- The verifier checks an intent's shape and identifier and never consults its profile: every valid
  intent can be the subject of a valid verdict (`EveryValidIntentCanBeVindicated`), also one that no
  built-in profile verifies (`AValidVerdictNeedsNoProfile`). Verification of one side under a built-in
  profile is what fixes the profile (`ARegisteredVerdictFixesTheProfile`).
- The comment on the default registry lists two profiles; the code registers three, and the model
  follows the code.

## Model

| member | source | states |
|---|---|---|
| MandateState.EdgesAreExactlyTheRealisableOnes | csv-accountability/src/state.rs:143-211 | the published edge list contains an edge exactly when some attempt state and dispatch context make the transition legal |
| MandateState.TransitionIsAcceptedExactlyWhen | csv-accountability/src/state.rs:143-249 | a transition is accepted iff its attempt state is the one that accompanies the edge, what is known of the dispatch makes that state true, and a denial of acceptance is evidenced under the policy in force; the policy matters nowhere else |
| MandateState.TransitionErrorsExactlyWhen | csv-accountability/src/state.rs:143-249 | each transition error is given iff its own cause is the first to apply |
| MandateState.ValidateJournal | csv-accountability/src/state.rs:374-401 | the replay loop accepts exactly the journals whose every entry continues the ones before it, returns the state and revision they lead to, and otherwise reports the first offending entry's error |
| MandateState.JournalIsAcceptedExactlyWhen | csv-accountability/src/state.rs:374-401 | a journal is accepted iff every entry is about the mandate, takes up state, revision and time where the ones before left off, and is a lawful transition |
| MandateState.EntryCheckedExactly | csv-accountability/src/state.rs:374-401 | an entry is refused as out of place iff it does not continue the ones before, and otherwise exactly as its transition is |
| MandateState.JournalSplits | csv-accountability/src/state.rs:374-401 | a journal split anywhere is accepted iff both halves are, the second from the state and revision the first reaches, and times agree at the seam |
| MandateState.JournalsAreShort | csv-accountability/src/state.rs:143-211 | an accepted journal is no longer than the rank of its initial state less that of its final one, so four entries from Proposed |
| MandateState.ReservedAtMostOnce | csv-accountability/src/state.rs:143-211 | no accepted journal enters Reserved twice |
| MandateState.TerminalIsFinal | csv-accountability/src/state.rs:143-211 | no accepted journal continues after Consumed, Expired, Revoked, Released or Abandoned |
| MandateState.NeverPolicyNeverReleases | csv-accountability/src/state.rs:197-249 | under a never-release policy a journal that reaches Quarantined ends in Quarantined, Consumed or Abandoned |
| MandateState.NothingIsConcludedWithoutKnowledge | csv-accountability/src/state.rs:166-211 | in an accepted journal the target state and the attempt state of an entry determine each other up to reconciliation (Quarantined iff OutcomeAmbiguous, Abandoned iff AbandonedAmbiguous, no attempt iff Issued, Revoked or Expired), and each carries the dispatch certainty it needs |
| MandateState.QuarantineReleaseIsEvidenced | csv-accountability/src/state.rs:224-249 | a release from quarantine carries nonzero evidence naming exactly the policy it is released under |
| Reservation.EveryRunIsSafe | csv-accountability/src/state.rs:270-401 | in every interleaving of readers with stale snapshots, prepared updates, repeated commits and other writers, the row follows its history, views are old rows, held updates are validly derived and at most one reservation won |
| Reservation.ReservationExactlyWhen | csv-accountability/src/state.rs:309-346 | a reservation is granted iff the snapshot is the mandate's own issued row at the revision the caller expects, with room for the next, inside the window and with a token; it then expects that row at that revision and moves it one on |
| Reservation.RefusalNamesTheFirstFault | csv-accountability/src/state.rs:309-346 | each refusal is given iff its fault is the first of the six, a stale expectation being a revision mismatch |
| Reservation.OneReservationWins | csv-accountability/src/state.rs:270-346 | in every interleaving at most one compare-and-swap reservation wins, the row's history is a journal validation accepts with final revision = initial + number of updates, and the winner claimed a time inside its mandate's validity and expected the revision it read |
| Reservation.CommitWinsExactlyWhenFresh | csv-accountability/src/state.rs:309-346 | in every reachable state a commit takes effect exactly when nothing was written since its executor read the row |
| Reservation.AnUncontendedReservationWins | csv-accountability/src/state.rs:309-346 | from an issued row, one executor reading, preparing inside the validity window and committing always wins |
| Reservation.CommitLandsInTheWindowExactlyWhen | csv-accountability/src/state.rs:309-346 | in every reachable state a winning commit is journalled at the clock, and inside its mandate's window iff the clock is |
| Reservation.AnHonestCommitLandsExactlyBeforeExpiry | csv-accountability/src/state.rs:309-346 | in every run whose executors claim no future time, a winning commit lands inside its mandate's window iff the clock is below the expiry |
| Reservation.AReservationMayLandAfterExpiry | csv-accountability/src/state.rs:309-346 | a reservation prepared in time and committed after expiry wins, journalled outside the window |
| Reservation.AReservationMayLandBeforeItsWindow | csv-accountability/src/state.rs:309-346 | a reservation claimed for a later time and committed at once wins before the window opens |
| EvidenceGraph.ValidateEvidenceGraph | csv-accountability/src/evidence.rs:459-510 | graph validation accepts exactly the graphs that are small, uniquely identified, resolved, with walks of at most 64 edges, valid nodes under their own identifiers and linked custody; duplicate, invalid-content, identifier and custody errors are reported exactly when theirs is the first fault; cycle, missing-relationship and bounds errors together exactly for structural faults or a first fault in a node's number or order of relationships, each implying its own cause, and in a sound structure the bounds error exactly for the latter |
| EvidenceGraph.Search.Visit | csv-accountability/src/evidence.rs:512-534 | the depth-first visit succeeds exactly when everything below is explorable from the current path, and restores the path stack on success |
| EvidenceGraph.SearchDecidesBoundedness | csv-accountability/src/evidence.rs:486-534 | with unique ids the un-memoised search succeeds from every node iff every relationship resolves and every walk has at most 64 edges |
| EvidenceGraph.BoundedWalksAreAcyclic | csv-accountability/src/evidence.rs:512-534 | a graph whose walks are bounded has no walk returning to its start |
| EvidenceGraph.CustodyReachesAFirstRecord | csv-accountability/src/evidence.rs:486-534 | in an accepted graph, following previous custody records from any record stays on one subject and reaches a first record within 64 steps |
| Evidence.NodeRoundTrip | csv-accountability/src/evidence.rs:278-447 | every valid evidence node is decoded from its canonical bytes |
| Evidence.NodeGuardNeverFires | csv-accountability/src/evidence.rs:359-447 | bytes that parse and validate already re-encode to themselves, so the decoder's final comparison refuses nothing |
| Evidence.RegistryIdsAreDistinct | csv-accountability/src/evidence.rs:114-127 | a registry identifier names one evidence kind |
| Evidence.NodeIdCommits | csv-accountability/src/evidence.rs:450-456 | valid nodes with one identifier are equal or exhibit a collision |
| Evidence.DecodeNode | csv-accountability/src/evidence.rs:359-447 | the cursor-driven decoder computes the guarded parse |
| Validators.ValidateNode | csv-accountability/src/evidence.rs:181-275 | the validator accepts exactly the valid nodes, reports bounds iff only number or order of relationships is wrong, and semantic confusion iff an otherwise sound observation is named as a claim |
| Mandate.MandateRoundTrip | csv-accountability/src/mandate.rs:169-257 | every valid mandate is decoded from its canonical bytes |
| Mandate.MandateDecoderAcceptsTheImage | csv-accountability/src/mandate.rs:205-257 | the decoder, which never re-encodes, accepts exactly the encodings of valid mandates, each the canonical bytes of its result |
| Mandate.MandateBytesInjective | csv-accountability/src/mandate.rs:169-203 | valid mandates with the same bytes are equal |
| Mandate.MandateIdCommits | csv-accountability/src/mandate.rs:260-269 | valid mandates with one identifier are equal or exhibit a collision |
| Mandate.DecodeMandate | csv-accountability/src/mandate.rs:205-257 | the cursor-driven decoder computes the parse |
| Mandate.EnvelopeRoundTrip | csv-accountability/src/mandate.rs:292-336 | a signature envelope valid for a mandate is decoded from its canonical bytes |
| Mandate.EnvelopeDecoderAcceptsTheImage | csv-accountability/src/mandate.rs:320-336 | for a fixed mandate the envelope decoder accepts exactly the encodings of envelopes valid for it |
| Mandate.DecodeEnvelope | csv-accountability/src/mandate.rs:320-336 | the cursor-driven envelope decoder computes the parse |
| Validators.ValidateMandate | csv-accountability/src/mandate.rs:121-159 | the validator, check by check, accepts exactly the valid mandates and gives each error iff its fault is the first |
| Validators.ValidateRequirements | csv-accountability/src/mandate.rs:358-375 | the requirement loop accepts exactly the bounded, well-named, ascending lists, and names a field iff the number is right and an identifier malformed, and otherwise number or order |
| Layouts.MandateLayout | csv-accountability/src/mandate.rs:169-203 | every field of a valid mandate lies at its offset in the canonical bytes, little-endian and digit by digit, with its width, length prefix and case tag, and nothing follows |
| Execution.EncodeAttempt | csv-accountability/src/execution.rs:120-138 | the appending encoder produces the layout for exactly the valid attempts |
| Execution.AttemptBytesInjective | csv-accountability/src/execution.rs:120-138 | the encoding determines every field of an attempt |
| Execution.AttemptIdCommits | csv-accountability/src/execution.rs:141-146 | valid attempts with one identifier are equal or exhibit a collision |
| Validators.ValidateAttempt | csv-accountability/src/execution.rs:66-117 | the validator accepts exactly the valid attempts; version, binding and field errors are given iff theirs is the first fault |
| Layouts.AttemptLayout | csv-accountability/src/execution.rs:120-168 | every field of an attempt lies at its offset in the canonical bytes, big-endian, and the last byte is the position of its state in the tag order |
| Receipt.ValidateRequirementStatuses | csv-accountability/src/receipt.rs:247-270 | the coverage loop accepts exactly the status lists that match the mandate's requirements one to one, satisfied iff evidence is named, and reports a field iff the first failing status fails by its references alone |
| Receipt.EncodeReceipt | csv-accountability/src/receipt.rs:179-212 | the appending encoder produces the layout for exactly the valid receipts |
| Receipt.ReceiptBytesInjective | csv-accountability/src/receipt.rs:179-212 | the encoding determines every field of a receipt |
| Receipt.ReceiptIdCommits | csv-accountability/src/receipt.rs:215-224 | valid receipts with one identifier are equal or exhibit a collision |
| Validators.ValidateReceipt | csv-accountability/src/receipt.rs:113-176 | the validator accepts exactly the valid receipts; each error is given iff its fault is the first |
| Layouts.ReceiptLayout | csv-accountability/src/receipt.rs:179-279 | every field of a receipt lies at its offset in the canonical bytes, big-endian, with counted lists item by item and the outcome at its place in the tag order |
| Receipt.OutcomeFixesTheMandate | csv-accountability/src/receipt.rs:152-171 | for a valid receipt and an accepted journal ending in its attempt's state, Succeeded or Failed means Consumed, Rejected means Released straight from Reserved, Unknown means Quarantined for an ambiguous outcome and Abandoned for one given up on |
| Lineage.ReceiptIdCommitsToTheLineage | csv-accountability/src/receipt.rs:113-224 | any two valid receipts with one identifier are equal and report the same attempt under the same mandate, or two inputs of one domain collide |
| Lineage.ReceiptIdCommitsToTheCase | csv-accountability/src/receipt.rs:113-224 | with one of the two intents short, they are also about the same intent, or a named collision exists |
| IntentProfiles.GatePolicyCommits | csv-accountability/src/intent.rs:175-214 | a gate-policy identifier fixes the context mode and exact context set, up to a named collision |
| IntentProfiles.GitHubRoundTrip | csv-accountability/src/intent.rs:310-413 | every valid GitHub deployment profile is decoded from its canonical bytes |
| IntentProfiles.GitHubGuardNeverFires | csv-accountability/src/intent.rs:346-413 | the re-encoding comparison of the GitHub decoder refuses nothing |
| IntentProfiles.DecodeGitHub | csv-accountability/src/intent.rs:346-413 | the cursor-driven decoder computes the guarded parse |
| IntentProfiles.MigrationRoundTrip | csv-accountability/src/intent.rs:584-645 | every valid database-migration profile is decoded from its canonical bytes |
| IntentProfiles.MigrationGuardNeverFires | csv-accountability/src/intent.rs:603-645 | the re-encoding comparison of the migration decoder refuses nothing |
| IntentProfiles.DecodeMigration | csv-accountability/src/intent.rs:603-645 | the cursor-driven decoder computes the guarded parse |
| IntentProfiles.PaymentRoundTrip | csv-accountability/src/intent.rs:788-827 | every valid payment profile is decoded from its canonical bytes |
| IntentProfiles.PaymentGuardNeverFires | csv-accountability/src/intent.rs:804-827 | the re-encoding comparison of the payment decoder refuses nothing |
| IntentProfiles.DecodePayment | csv-accountability/src/intent.rs:804-827 | the cursor-driven decoder computes the guarded parse |
| IntentProfiles.GitHubTargetIsTheIds | csv-accountability/src/intent.rs:301-307 | the target is repository and environment identifier in 16 bytes, so profiles share a target iff they share both, whatever they display |
| IntentProfiles.MigrationTargetIsTheIds | csv-accountability/src/intent.rs:574-581 | the target is database and environment identifier in 16 bytes, so profiles share a target iff they share both |
| IntentProfiles.PaymentTargetIsTheParties | csv-accountability/src/intent.rs:779-785 | the target is payer then merchant, so valid payments share a target iff they share both |
| Validators.ValidateGitHub | csv-accountability/src/intent.rs:246-278 | the validator accepts exactly the valid deployment profiles and gives each error iff its fault is the first |
| Validators.ValidateMigration | csv-accountability/src/intent.rs:533-572 | the validator accepts exactly the valid migration profiles, a zero identifier being the first thing refused |
| Validators.ValidatePayment | csv-accountability/src/intent.rs:742-776 | the validator accepts exactly the valid payment profiles, whose amount is positive and within the cap |
| Intent.ConstructedIntentVerifiesExactlyWhen | csv-accountability/src/intent.rs:953-1085 | a constructed intent passes independent re-verification iff it meets the protocol-wide limits and its descriptor names an action and media type |
| Intent.ConstructedIntentMayFailToVerify | csv-accountability/src/intent.rs:953-1052 | a valid descriptor without an action type yields an intent that fails re-verification |
| Intent.ConstructionExactlyWhen | csv-accountability/src/intent.rs:953-995 | construction succeeds iff the descriptor is valid, the codec accepts the bytes and the free fields meet the descriptor's limits |
| Intent.ConstructionRestoresTheIntent | csv-accountability/src/intent.rs:953-1085 | constructing from the profile bytes and free fields of an intent that verifies within the limits gives that intent back |
| Validators.ValidateIntent | csv-accountability/src/intent.rs:1027-1052 | the validator accepts exactly the valid intents and gives each error iff its fault is the first |
| Validators.ValidateDescriptor | csv-accountability/src/profile.rs:182-208 | the validator accepts exactly the valid descriptors, each declaring an executor source and a corroborating one, and names an identifier iff one is malformed |
| Intent.CommitmentFixesTheProfile | csv-accountability/src/intent.rs:1054-1085 | intents verified against one codec with one parameters commitment agree on the profile bytes and everything derived from them, or exhibit a collision |
| Intent.EncodeIntent | csv-accountability/src/intent.rs:1088-1108 | the appending encoder produces the layout for exactly the valid intents |
| Intent.IntentBytesInjective | csv-accountability/src/intent.rs:1088-1108 | a valid intent of fewer than 2^32 + 110 bytes shares its encoding with no other valid intent, however long the other's fields |
| Intent.TargetAndProfileAreConfused | csv-accountability/src/intent.rs:1088-1108 | from any intent whose other fields leave room, two intents that differ only in target and profile bytes and have one encoding |
| Intent.LongIntentsAreConfused | csv-accountability/src/intent.rs:1027-1108 | at every size from 2^32 + 110 on there are two different valid intents with one encoding |
| Intent.InjectiveExactlyBelowTheAmbiguousSize | csv-accountability/src/intent.rs:1027-1108 | the encoding is injective on the valid intents of a size iff the size is below 2^32 + 110 |
| Intent.IntentIdCommits | csv-accountability/src/intent.rs:1111-1119 | valid intents with one identifier, one of them short, are equal or exhibit a collision |
| Registry.BuiltInIntentsAreShort | csv-accountability/src/intent.rs:1054-1085 | an intent that verifies under a built-in profile is short, so its identifier commits to it |
| Hashing.ZeroFreeTagsAreSeparated | csv-hash/src/domain_hash.rs:92-107 | joining by a zero byte recovers tag and payload when tags contain no zero byte |
| Hashing.TagsAreConfusableExactlyWhen | csv-hash/src/domain_hash.rs:92-107 | two tags admit payloads with one joined preimage iff one, ended by a zero byte, is a prefix of the other so ended |
| Hashing.SomeTagsAreConfused | csv-hash/src/domain_hash.rs:92-107 | the empty tag and a lone zero byte are confused |
| GatePreimages.ProtocolTagsAreZeroFree | csv-accountability/src/intent.rs:77 | no tag of the protocol contains the separator |
| GatePreimages.CommitmentMeetsPolicyExactlyWhen | csv-accountability/src/intent.rs:192-214 | some profile bytes make a descriptor's commitment hash what a gate policy hashes iff its tag, ended by a zero byte, begins the policy's preimage, that is, iff it is the policy's tag or extends it by a zero byte and what stands before a zero byte of the encoded contexts |
| GatePreimages.ZeroFreeTagMeetsPolicyExactlyWhen | csv-accountability/src/intent.rs:192-214 | for a tag without zero bytes that is iff it is the gate policy's own tag |
| GatePreimages.SomeCommitmentIsAGatePolicy | csv-accountability/src/profile.rs:182-208 | a valid descriptor may carry that tag, and then one of its commitments is a gate-policy identifier |
| GatePreimages.BuiltInCommitmentsAreSeparate | csv-accountability/src/intent.rs:954-993 | under the built-in profiles no commitment shares a preimage with a gate policy or with another profile's commitment |
| GateIdentity.EncodeGate | csv-accountability/src/assurance.rs:232-247 | the appending encoder produces the layout for exactly the valid gate profiles |
| GateIdentity.GateBytesInjective | csv-accountability/src/assurance.rs:232-247 | the encoding determines identifier, version and every rule of a valid gate profile |
| GateIdentity.GateIdCommits | csv-accountability/src/assurance.rs:232-247 | valid gate profiles with one identifier are equal or exhibit a collision |
| GatePreimages.CommitmentMeetsGateProfileExactlyWhen | csv-accountability/src/assurance.rs:232-247 | some profile bytes make a descriptor's commitment hash what a gate profile hashes iff its tag is what stands before a zero byte of the profile's bytes |
| GatePreimages.TagsThatMeetGateProfiles | csv-accountability/src/assurance.rs:232-247 | the empty tag and a lone zero byte meet every valid gate profile, and any other tag that meets one begins with two zero bytes |
| GatePreimages.ZeroFreeTagMeetsGateProfileExactlyWhen | csv-accountability/src/assurance.rs:232-247 | a tag without zero bytes meets a valid gate profile iff it is empty |
| GatePreimages.SomeCommitmentIsAGateProfile | csv-accountability/src/profile.rs:182-208 | a valid descriptor may have an empty tag, and then one of its commitments is any given gate-profile identifier |
| GatePreimages.GateProfilesAreSeparate | csv-accountability/src/assurance.rs:232-247 | a valid gate profile shares its preimage with no gate policy and no built-in profile's commitment |
| Wire.WrappedLengthIsAmbiguous | csv-codec/src/manual_encoder.rs:78-83 | a field of exactly 2^32 bytes is laid out like an empty field followed by its bytes |
| Bundle.ValidateBundle | csv-accountability/src/bundle.rs:87-142 | validation, with its running total and early refusals, accepts exactly the bundles with valid metadata, bounded and digest-consistent objects, sorted tables and nothing both disclosed and withheld; each error is given iff its fault is the first |
| Bundle.RequireDisclosed | csv-accountability/src/bundle.rs:145-158 | returns bytes the bundle discloses under the identifier and digest, and reports a missing object exactly when a valid bundle discloses none |
| Bundle.DisclosureIsUnambiguous | csv-accountability/src/bundle.rs:87-158 | a disclosed entry is the only one with its key, hashes to its digest and is not withheld as well |
| Bundle.DisclosuresAgree | csv-accountability/src/bundle.rs:145-158 | two valid bundles disclosing under one digest disclose the same bytes or exhibit a SHA-256 collision |
| Bundle.EncodeBundle | csv-accountability/src/bundle.rs:161-192 | the appending encoder produces the layout for exactly the valid bundles |
| Bundle.BundleBytesInjective | csv-accountability/src/bundle.rs:161-192 | valid bundles with the same bytes are equal |
| Bundle.BundleIdCommits | csv-accountability/src/bundle.rs:195-200 | valid bundles with one identifier are equal or exhibit a collision |
| Authority.ReconstructionRoundTrip | csv-accountability/src/authority.rs:226-307 | every valid reconstruction is decoded from its canonical bytes |
| Authority.ReconstructionGuardNeverFires | csv-accountability/src/authority.rs:255-307 | the re-encoding comparison of the decoder refuses nothing |
| Authority.DecodeReconstruction | csv-accountability/src/authority.rs:255-307 | the cursor-driven decoder computes the guarded parse |
| Authority.ReconstructionIdCommits | csv-accountability/src/authority.rs:310-315 | valid reconstructions with one identifier are equal or exhibit a collision |
| Validators.ValidateReconstruction | csv-accountability/src/authority.rs:188-223 | the validator accepts exactly the valid reconstructions, and reports an order iff everything else is in order |
| AuthorityEvaluation.RunsInACircle | csv-accountability-verify/src/lib.rs:105-121 | the parent walk with its visited list terminates and reports a cycle exactly when the walk never reaches an end |
| AuthorityEvaluation.Evaluate | csv-accountability-verify/src/lib.rs:22-94 | Compatible exactly when the reconstruction is valid, its links form one delegation tree in force, everything is verified, complete and uncontradicted; each of the ten other reasons is given exactly when its cause is the first to apply |
| AuthorityEvaluation.CompatibleIsADelegationTree | csv-accountability-verify/src/lib.rs:22-121 | the link-by-link checks hold iff the links form one tree: unique ids, every link reaching the single root in fewer than as many steps as links, sharing its domain and scope, nested in every ancestor's interval and in force, issued by its parent's subject |
| AuthorityEvaluation.NoConflictIsUnique | csv-accountability-verify/src/lib.rs:96-103 | over canonically ordered links, no conflicting parents means unique mandate ids |
| AuthorityEvaluation.CountRoots | csv-accountability-verify/src/lib.rs:34-42 | counts the links without a parent |
| Preservation.PreservationRoundTrip | csv-accountability/src/preservation.rs:102-163 | every valid envelope is decoded from its canonical bytes |
| Preservation.PreservationGuardNeverFires | csv-accountability/src/preservation.rs:125-163 | the re-encoding comparison of the decoder refuses nothing |
| Preservation.DecodePreservation | csv-accountability/src/preservation.rs:125-163 | the cursor-driven decoder computes the guarded parse |
| Preservation.ValidateChain | csv-accountability/src/preservation.rs:175-209 | the chain loop accepts exactly the bounded chains of uniquely and correctly identified envelopes, each continuing and keeping the one before, and otherwise reports the first fault of the first faulty generation |
| Validators.ValidateEnvelope | csv-accountability/src/preservation.rs:82-99 | the validator accepts exactly the valid envelopes, the version being looked at first |
| Preservation.HistoryIsNeverRewritten | csv-accountability/src/preservation.rs:175-209 | any two generations of a chain have the same original bytes and registry id, growing times and growing algorithm sets |
| Preservation.LatestIdCommitsToTheChain | csv-accountability/src/preservation.rs:166-209 | two renewal chains with one latest identifier are the same chain or contain a collision |
| PreservationAssessment.AssessPreservation | csv-accountability-verify/src/lib.rs:751-817 | Unsupported iff there is no envelope, Pass iff every generation is verified and every algorithm of the latest one allowed, failing iff the inputs are malformed, a generation is disowned, or all are vouched for and an algorithm is prohibited; the disposition is always the first of seven causes that applies |
| PreservationAssessment.PassCoversTheWholeHistory | csv-accountability-verify/src/lib.rs:751-817 | a pass means every algorithm any generation ever declared is allowed and every generation is verified over the first one's bytes |
| Anchor.ClassificationIsHonest | csv-accountability/src/anchor.rs:256-267 | classification yields exactly the readings that are not a met pending threshold, and Final only at a positive depth |
| Anchor.ClassifiableExactlyWhen | csv-accountability/src/anchor.rs:256-267 | a reading is the classification of some confirmation counts iff it is neither a met pending one nor final at depth zero |
| Anchor.SealAssessmentExactlyWhen | csv-accountability/src/anchor.rs:134-147 | a seal-consumption record corroborates iff it is well formed and names both the expected nullifier and the expected commitment, and is malformed iff a digest is zero or its backend field invalid |
| Anchor.DecodedFinalityIsClassifiableExactlyWhen | csv-accountability/src/anchor.rs:297-323 | the finality of a decoded anchor is one classification can produce iff it is not final at depth zero |
| Anchor.SomeDecodedFinalityIsNotClassifiable | csv-accountability/src/anchor.rs:313-319 | the decoder accepts an anchor that is final at depth zero |
| Anchor.AnchorRoundTripsExactlyWhen | csv-accountability/src/anchor.rs:275-420 | a valid chain anchor round-trips iff its finality is not a pending reading with a positive threshold met |
| Anchor.SomeValidAnchorDoesNotRoundTrip | csv-accountability/src/anchor.rs:297-323 | there is a valid anchor whose own canonical bytes are refused |
| Anchor.AcceptedAnchorBytesAreCanonical | csv-accountability/src/anchor.rs:394-420 | every byte string the decoder accepts re-encodes to itself |
| Anchor.DecodeAnchor | csv-accountability/src/anchor.rs:394-420 | the cursor-driven decoder computes the parse |
| Anchor.DisagreementExactlyWhen | csv-accountability/src/anchor.rs:500-514 | Disagreement is reported iff two sources differ on the block hash, listing each reported hash once in order |
| Sorting.SortingIsCanonical | csv-accountability/src/anchor.rs:507-509 | sorting and deduplicating forgets order and repetition of its input and nothing else |
| Anchor.HashListIgnoresOrder | csv-accountability/src/anchor.rs:507-514 | the hash list depends only on which observations were made |
| Anchor.FinalityIgnoresOrder | csv-accountability/src/anchor.rs:518-554 | the reconciled finality depends only on which observations were made |
| Anchor.FinalRequiresEveryFinal | csv-accountability/src/anchor.rs:518-554 | the reconciled finality is Final iff every source is final, at no more than any source's depth |
| Anchor.FinalityIsTheMostConservative | csv-accountability/src/anchor.rs:518-554 | the reconciled reading is the least depth some source observed against the greatest threshold some pending source demands |
| Anchor.ReconciliationExactly | csv-accountability/src/anchor.rs:500-559 | no observations, agreement and disagreement are told apart exactly, and an agreement reports the first height and the reconciled finality |
| Anchor.ReconciliationStaysHonest | csv-accountability/src/anchor.rs:518-554 | if no source reports a pending reading with a met positive threshold, neither does the result |
| Anchor.ResultIgnoresOrderExactlyWhen | csv-accountability/src/anchor.rs:500-559 | the whole result is invariant under permutation iff hashes differ or heights agree |
| Anchor.ResultMayDependOnOrder | csv-accountability/src/anchor.rs:555-558 | two sources with one hash and two heights give an order-dependent result |
| Registry.ProfileRegistry.Register | csv-accountability/src/registry.rs:35-43 | inserts exactly the valid codecs whose identifier is free and otherwise leaves the table unchanged |
| Registry.RegistrationsCommuteExactlyWhen | csv-accountability/src/registry.rs:30-43 | two registrations commute iff they do not compete for one free identifier |
| Registry.RegistrationsMayNotCommute | csv-accountability/src/registry.rs:30-43 | two valid codecs with one identifier leave different tables in the two orders |
| Registry.PolicyOfExactly | csv-accountability/src/profile.rs:210-222 | a descriptor's release rule and the policy its journals are held to are the same |
| Registry.DefaultRegistry | csv-accountability/src/registry.rs:84-105 | the default registry holds exactly the three built-in profiles, so no registration fails |
| Registry.BuiltInsNeverRelease | csv-accountability/src/intent.rs:131 | every built-in profile's release policy is Never |
| Registry.BuiltInQuarantineIsNeverReleased | csv-accountability/src/profile.rs:211-222 | under a built-in profile, an accepted journal that quarantines its mandate never ends Released |
| Context.EncodeContext | csv-accountability/src/context.rs:101-124 | the appending encoder produces the layout for exactly the valid contexts |
| Context.ContextErrorsExactlyWhen | csv-accountability/src/context.rs:64-99 | a context is valid iff its versions are supported, all six policies named and its extensions valid, and each error is given iff its fault is the first |
| Validators.ValidateExtensions | csv-accountability/src/context.rs:82-96 | the extension check accepts exactly the bounded, well-named, ascending lists with nonzero digests |
| Context.ContextIdCommits | csv-accountability/src/context.rs:127-132 | valid contexts with one identifier are equal or exhibit a collision |
| EvidenceSummary.Summarize | csv-accountability-verify/src/lib.rs:819-836 | the counters hold the number of nodes of each kind and of withheld locators, modulo 2^32 |
| EvidenceSummary.KindsPartitionTheEvidence | csv-accountability-verify/src/lib.rs:819-836 | the seven kind counts add up to the number of nodes |
| Verifier.Verify | csv-accountability-verify/src/lib.rs:520-745 | a report is produced exactly for valid contexts and bound to their identifier; it lists twelve stages in order, each with the first cause its part of the input gives for not passing; its verdict is Valid iff the case, evidence, corroboration and preservation are all sound, and Invalid iff something in the input refutes the case |
| Verifier.InvalidExactlyWhenRefuted | csv-accountability-verify/src/lib.rs:718-731 | the verdict is Invalid iff an object is invalid, the intent is not the mandate's, the time is outside the window, the mandate revoked, its algorithm disallowed, the use a replay, the executor another, the evidence malformed, a reference missing, an authenticity rejected, or preservation refuted |
| Verifier.StageExplained | csv-accountability-verify/src/lib.rs:525-717 | every stage reports the first of its causes that applies, stated over the input, and passes iff none does |
| Verifier.ReferencesPresentExactlyWhen | csv-accountability-verify/src/lib.rs:864-879 | references are present iff every node the receipt names for dispatch, target or a requirement is in the graph |
| Verifier.CanonicalAssessmentsExactlyWhen | csv-accountability-verify/src/lib.rs:852-862 | assessments are canonical iff they ascend strictly and each is of a node that bears authenticity |
| Verifier.UnpairedExactlyWhen | csv-accountability-verify/src/lib.rs:838-850 | a counterclaim stands unpaired iff no contradiction names it on either side |
| Verifier.ValidVerdictMeans | csv-accountability-verify/src/lib.rs:520-745 | a Valid verdict binds receipt to attempt to mandate to intent, and a preserved seal to this reservation and this intent; it puts the evaluation time inside the half-open validity window, backs every requirement with a node of an acyclic graph that holds every node the receipt names, and leaves the attempt Accepted, ReconciledAccepted or Rejected |
| Verifier.ValidVerdictCoversTheHistory | csv-accountability-verify/src/lib.rs:751-817 | under a Valid verdict the whole renewal history is verified and everything it ever relied on is allowed |
| Verifier.ValidVerdictsShareTheirCase | csv-accountability-verify/src/lib.rs:520-745 | two Valid verdicts on one receipt identifier are about the same receipt, attempt and mandate, and with one of the intents short about the same intent, or a collision is named |
| Verifier.EvidenceStages | csv-accountability-verify/src/lib.rs:596-709 | the evidence, contradiction and custody stages are all clear iff the graph is valid, references resolve, requirements are met, and no node is a gap, contradiction or counterclaim, withheld, or of unverified authenticity |
| ValidCase.EveryValidIntentCanBeVindicated | csv-accountability-verify/src/lib.rs:520-745 | for every choice of hash functions, every valid intent and all times in order, an input with that intent and those times has a Valid verdict at every evaluation time inside its window |
| ValidCase.TimesOfAValidVerdictExactly | csv-accountability-verify/src/lib.rs:565-585 | some input with given times has a Valid verdict at a time iff issue, validity and expiry are in order around that time and dispatch and completion are not before the start |
| ValidCase.EveryValidVerdictHasTimes | csv-accountability/src/receipt.rs:152-167 | an input with a Valid verdict carries a dispatch and a completion time |
| ValidCase.AValidVerdictMayDispatchLate | csv-accountability-verify/src/lib.rs:565-585 | a Valid verdict exists for a dispatch after the mandate's expiry and after the reported completion |
| ValidCase.OneMandateMayHaveTwoAttempts | csv-accountability-verify/src/lib.rs:586-595 | two Valid verdicts can share their mandate and differ in the attempt |
| ValidCase.OneRecordOneAttempt | csv-accountability-verify/src/lib.rs:586-595 | if replay is concluded from one record of an attempt per mandate, Valid verdicts on one mandate share their attempt or a collision is named |
| ValidCase.AValidVerdictNeedsNoProfile | csv-accountability-verify/src/lib.rs:520-545 | a Valid verdict exists for an intent that no built-in profile verifies |
| ValidCase.ARegisteredVerdictFixesTheProfile | csv-accountability-verify/src/lib.rs:520-545 | if one of two Valid verdicts under one intent identifier is about an intent a built-in profile verifies, both are about that intent, so the profile verifies the other one too, or a collision is named |
| ValidCase.LongIntentsShareAVerdict | csv-accountability-verify/src/lib.rs:520-745 | two Valid verdicts can share receipt, attempt and mandate and differ in the intent with no collision |
| Instances.TwoLinksAreCompatible | csv-accountability-verify/src/lib.rs:22-94 | a root and its delegate meet the condition for Compatible |
| Instances.ACustodyChainIsPossible | csv-accountability/src/evidence.rs:486-510 | some accepted graph has a custody record with an earlier one behind it |
| Instances.AJournalledReceiptIsPossible | csv-accountability/src/receipt.rs:113-176 | some valid receipt reports an attempt whose state ends an accepted journal |
| Instances.AStrictGateAdmitsValidReports | csv-accountability/src/assurance.rs:250-273 | a valid gate that blocks every unmet and undecided dimension admits every Valid report of the verifier |
| Instances.AValidReportIsPossible | csv-accountability-verify/src/lib.rs:520-745 | there is a complete report with a Valid verdict |
| Instances.APassingRenewalIsPossible | csv-accountability-verify/src/lib.rs:751-817 | some chain of two generations passes the preservation stage |
| Assurance.EvaluateGate | csv-accountability/src/assurance.rs:250-273 | the fold over valid inputs returns the most severe handling its rules prescribe for the eleven statuses |
| AssuranceProjection.ProjectionIsValid | csv-accountability-verify/src/lib.rs:288-436 | the projection of every report the verifier produces passes profile validation |
| AssuranceProjection.StatusReflectsStages | csv-accountability-verify/src/lib.rs:320-375 | a dimension is not satisfied iff one of its stages fails, undecided or worse iff one fails or is indeterminate, and satisfied iff it has a stage in the report and every one passes |
| AssuranceProjection.ReasonsReflectStages | csv-accountability-verify/src/lib.rs:347-375 | the reason codes are, in order and once each, those of the stages that do not pass, with requirement-met iff satisfied; the limitation says whether the dimension was evaluated |
| AssuranceProjection.CorroborationReflectsItsStage | csv-accountability-verify/src/lib.rs:395-436 | corroboration is satisfied iff its stage passes, indeterminate iff that is, and never unsatisfied |
| AssuranceProjection.CorroborationReasons | csv-accountability-verify/src/lib.rs:395-436 | what the corroboration dimension says for each status |
| AssuranceProjection.ProfileReflectsStages | csv-accountability-verify/src/lib.rs:288-318 | in the profile every dimension stands in its place with the status of the stages at home there, not applicable where there are none |
| AssuranceProjection.DimensionsDetermineTheVerdict | csv-accountability-verify/src/lib.rs:288-436 | the verdict is Invalid iff some dimension is NotSatisfied and Valid iff none is NotSatisfied or Indeterminate |
| AssuranceProjection.StrictGatesAdmitOnlyValidReports | csv-accountability/src/assurance.rs:250-273 | a gate blocking both bad statuses everywhere lets only Valid reports through, and one blocking nothing else lets all of them through |
| Admission.AdmissionController.AcquireTransfer | csv-admission/src/lib.rs:95-138 | acquires exactly when neither limit is reached, counting the transfer once per distinct chain; a refusal reports the first full limit and changes nothing |
| Admission.AdmissionController.ReleaseTransfer | csv-admission/src/lib.rs:149-160 | subtracts one from the total and from each chain, removing entries that reach zero |
| Admission.AdmissionPermit.Drop | csv-admission/src/lib.rs:177-184 | the first drop releases the permit's chains and later ones do nothing |
| Admission.ReleaseUndoesAcquire | csv-admission/src/lib.rs:95-160 | releasing right after acquiring restores the state exactly |
| Admission.EveryRunBalances | csv-admission/src/lib.rs:95-192 | after every interleaving of acquires and drops the total is the number of live permits, each chain's count the live permits touching it, no entry is zero and both limits hold |
| Admission.ReleaseNeverSaturates | csv-admission/src/lib.rs:149-160 | whenever a live permit is dropped, the total and each of its chains have a positive count |
| Admission.StateDependsOnlyOnLivePermits | csv-admission/src/lib.rs:95-192 | two runs with the same multiset of live permits have the same state |
| Admission.RefusedExactlyWhenFull | csv-admission/src/lib.rs:95-138 | in every reachable state an acquire is refused iff the live permits fill the runtime or one of the two chains |

## Left out

- Hash and signature strength, clocks and persistence: hashes, times, snapshots and authenticity conclusions are inputs.
- csv-cli, csv-adapter-factory, csv-contract-bindings, csv-chain-ports, csv-content, csv-algebra and the canonical CBOR of csv-codec: input and output, calls into libraries, and constructors without protocol state.
- csv-coordinator, csv-runtime, csv-verifier and csv-storage are not part of this model.
- Names of the broken field inside an error variant: the variants are modelled and when each is given, the label it carries is not.
- In-place buffers of encoders whose object also has a decoder: those encoders are modelled as values, tied to the imperative decoder by the round-trip lemmas.
- Library sorting and deduplication: modelled by their result, `Sorting.SortedUnique`, not by an algorithm.
- The assurance-profile encoder and identifier, the seal-consumption and external-commitment codecs, the chain-anchor digest and `signing_bytes`: the same layouts with fewer fields.
- Mutex poisoning and the admission snapshot accessor: a locked section is one atomic step.
