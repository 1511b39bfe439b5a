# A verified model of Atlas's evidence, audit and identity core

Atlas collects claims about aviation accidents from many sources, keeps the disagreements between them as
conflicts that curators settle, chains its audit tables with keyed hashes, and decides which submissions
describe the same event. This project models that core in Dafny and proves what it keeps.

`dafny verify dfyconfig.toml` checks everything.

## What is modelled

**Claims and conflicts.** The tables (`Evidence.dfy`), the three ways claims change with their history rows
(`ClaimLedger.dfy`), and the eight version-checked updates of a conflict row (`ConflictRows.dfy`) are modelled
once and used twice.

- *Concurrently*: `Interleaving.dfy` is a transition system in which a writer decides on a state it read at any
  earlier moment of the run and then takes one atomic step (update, links and log row together).
  `EvidenceStore.dfy` and `Reconciler.dfy` put the reconciler's retry loops on top of it as classes: before each
  of a worker's reads and writes, any number of other writers may act. `Moments.dfy` says what a run shows between
  two of the worker's moments, which is how the loops state their outcomes under interference.
- *Serially*: `ClaimWriting.dfy` and `ClaimWriter.dfy` (the write), `Curation.dfy` (resolve, override, reopen),
  `EventMerges.dfy` (merging one event into another), `SerialRuns.dfy` and `EvidenceRuns.dfy` (whole ingestions
  and whole runs of all of these from empty tables), `IngestPipeline.dfy` and `MergePipeline.dfy` (the imperative
  use cases, proved to be those steps), `SupersessionChains.dfy` (where the chains of superseding claims end),
  `SafeRuns.dfy` (every such run ends in a state with the invariants of the concurrent model).
  `FieldHistory.dfy` follows one conflict and its field through a step, `LaterReopens.dfy` says what a reopen at
  any later moment restores, and `RunWitnesses.dfy` holds concrete runs from the empty tables.
  `ConflictEntity.dfy` is the domain entity with its validators.

**Audit chain.** `AuditChain.dfy` holds the append trigger, the verifier and the backfill of migration 053 over
one table; `AuditIntegrity.dfy` says what their verdicts prove about tampering; `AuditTransactions.dfy` runs
transactions concurrently under the anchor lock. HMAC-SHA256 (section 2 of RFC 2104) is an injective function of
the key's input.

**Event identity.** `MergeGraph.dfy` (merge pointers and the three loops that follow them), `AliasCap.dfy` and
`IdentityIndex.dfy` (the bounded alias list and the rows it lives in), `EventMatching.dfy` and
`EventResolution.dfy` (attach, review or create), `Replay.dfy` and `JsonValues.dfy` (idempotent resubmission).

**Key case.** `KeyCase.dfy` and `JsonKeys.dfy` are the browser's snake_case/camelCase transformers on keys and on
whole JSON trees.

## Where code and documentation part

- ARCHITECTURE.md:113 promises that a curator's reopen restores the dispute exactly as it was. For a decision that
  superseded a claim, and any ingestions, event merges and decisions on other conflicts between it and the reopen, it
  does if and only if the conflict's event has not been merged away since, no linked claim had lost to the winner
  before, and no claim of the field written since is active (`LaterReopens.LiveDisputeComesBackIff`, which also covers
  a decision that superseded nobody while the event is unmerged; `DisputeComesBackIff` covers every decision and every
  run; `ResolvedDisputeComesBackIff` and `OverriddenDisputeComesBackIff` are the two kinds of decision). A claim that
  lost by the decision comes back as it was if and only if the conflict still has that winner (`LoserComesBackIff`). A
  reopen leaves two active claims of one source record if and only if two claims that are active or about to be
  revived share one (`EvidenceRuns.ReopenKeepsOneActiveIff`). `RunWitnesses` has a run for each failure: a correction
  that lost to the winner before the decision (`CorrectedBefore`, which is also how the older losers of
  ARCHITECTURE.md:116 come back), one between decision and reopen (`CorrectedMeanwhile`), a winner corrected in
  between (`WinnerCorrectedMeanwhile`, where the loser stays superseded), and an event merged in between
  (`MergedMeanwhile`, where the loser comes back on the absorbed event and the winner does not: the reopen never looks
  at the merge pointer).
- A curator can reopen a conflict that was closed because its evidence agreed, and it is then open over agreeing
  claims (`RunWitnesses.ReopenedWithoutDispute`); on events that were not absorbed, such reopens are the only way an
  open conflict stops being genuine (`EvidenceRuns.GenuineThroughoutIff`).
- An event with an open conflict cannot be merged. The merge means to close such conflicts as resolved without a
  winner, but the repository maps the rows it has just written back to entities, one validator of the entity rejects a
  resolved conflict whose winner is given as none (`ConflictEntity.OnlyTombstonesDoNotLoad`), and the whole
  transaction is rolled back. A merge commits if and only if both events exist, differ and are unmerged and the source
  event has no open conflict (`EventMerges.MergeCommitsIff`; `RunWitnesses.DisputedEventCannotMerge` is a run). So no
  winnerless resolved row is ever committed, and the `Tombstone` update of the interleaving model only adds behaviour
  that cannot occur.
- Of the four retry loops, the one that moves a superseded winner gives up without an error; the other three raise.
- Migration 020 leaves lists of at most five entries as they are, repeats included (`AliasCap.MigrationCapsIff`).
- The audit verifier reads rows in (time, id) order, so an untouched chain verifies if and only if it was appended in
  that order (`AuditIntegrity.UntouchedChainVerifiesIff`). Transactions commit in the order of the anchor lock, not of
  their times, so an honest schedule can fail verification (`AuditTransactions.ScheduleVerifiesIff`,
  `OvertakenScheduleFails`). Its `ok` is NULL, not false, for a row without a hash.
- application/use_cases/ingest_source_data.py:185-190 requires changed claims to be rejected. The replay guard accepts a
  submission of the same content, and also one whose raw payload and ids are equal and whose claims Python calls equal
  to the stored ones as the JSONB column hands them back (`Replay.AcceptsIff`). This parts from the requirement twice:
  - To Python 1, 1.0 and true are one value. The guard tells a submission from the stored one by content if and only if
    it is not a respelling of it (`DecidesByContentIff`), and a stored run accepts nothing but its own content if and
    only if none of its claims holds a bool, an integral float, or an integer that is the value of a double
    (`AcceptsOnlyItsContentIff`). `OneAsTrueIsAccepted` is the case of 1 and true; `NoFloatIsAcceptedFor` is the case of
    2^53 + 1, which no float equals.
  - Python writes a float of 10^16 or more with an exponent, and the column hands it back as the integer which that
    shortest decimal text denotes, which need not be the float's value. The guard decides by Python's equality if and
    only if no float was so rounded (`AcceptsWhatPythonEquatesIff`). `FloatIsRounded` is the case of the double nearest
    to 10^24: a run stored with it accepts the integer 10^24, a different number.
- The comment on the replay guard says a changed `captured_at` changes the submission hash. The hash material leaves
  `captured_at` out; only rows of an earlier release hashed it. Such a row refuses even the very same submission when
  the column rounded one of its floats (`Replay.AcceptsItsOwnContentIff`).
- A row from before fingerprints is meant to accept the submissions with its raw payload. It also accepts one whose whole
  hash material is that payload (`Replay.LegacyAcceptsIff`).
- A tie for the top score between a merged event and the event it was merged into counts as ambiguous, so a review of
  one event is queued where an attachment was possible (`EventResolution.TiedAliasesAreReviewed`,
  `SubmitBesideAlias`); the model follows the code.

## Model

| member | source | states |
|---|---|---|
| Evidence.CountingValuesTestsAgreement | domain/services/conflict_detector.py:62-69 | counting distinct normalised values decides agreement: none iff no active claim, more than one iff two active claims differ |
| Evidence.DisagreementNeedsTwoSources | domain/services/conflict_detector.py:90-121 | with at most one active claim per source, any disagreement is one the detector reports |
| ClaimLedger.SupersedeKeepsHistory | infrastructure/db/repositories/claims.py:179-221 | after a bulk supersede with its history rows, replaying each claim's history still gives its current type |
| ClaimLedger.ReactivateKeepsHistory | infrastructure/db/repositories/claims.py:230-287 | the same after a bulk un-supersede with the restored types |
| ClaimLedger.RestoredAfterRetireRows | infrastructure/db/repositories/claims.py:230-287 | the type a later un-supersede restores is the one the claim had before it was superseded |
| ConflictRows.PerformKeepsRow | infrastructure/db/repositories/conflicts.py:217-234 | every one of the eight updates keeps a row's log contiguous and matching its version and status, its winner among its links, and its links on its field |
| Interleaving.VersionFencesStatus | infrastructure/db/repositories/conflicts.py:217-234 | a version that is still current proves that the status and log read are still current |
| Interleaving.EveryStateIsSafe | application/ingestion/_conflict_reconciler.py:192-238 | in every state of every interleaving: history replays, at most one open row per event and field, every row in order; and links and logs only grow; and the merge pointers stay a forest |
| Interleaving.WrittenRowKeepsTable | alembic/versions/008_outbox_retry_and_open_conflict_index.py:26-37 | a permitted update never makes a second open row for a field |
| Interleaving.LogRecordsEveryStatusShown | alembic/versions/001_initial_schema.py:205-222 | whatever status a conflict ever showed, the log of any later moment holds it at exactly that version and sequence number |
| Interleaving.EveryStepIsFenced | application/ingestion/_conflict_reconciler.py:196-232 | links and log change only with one version bump of one row or one insert, by exactly the step's links and one entry |
| Interleaving.FailedAttemptChangesNothing | infrastructure/db/repositories/conflicts.py:217-234 | an attempt leaves all tables unchanged if and only if its version or uniqueness check fails |
| EvidenceStore.Store.UpdateWithVersionCheck | infrastructure/db/repositories/conflicts.py:217-234 | the verdict and the table after one version-checked update, and that a stale verdict means a later version |
| EvidenceStore.Store.TryOrReload | application/ingestion/_conflict_reconciler.py:192-238 | one pass of a retry loop among interfering writers: its own step if it wrote, a strictly newer row if it did not |
| Reconciler.FindOpen | infrastructure/db/repositories/conflicts.py:187-202 | finds an open row exactly when there is one |
| Reconciler.LatestResolved | domain/services/conflict_utils.py:9-29 | the resolved row of the field with the highest version, the newest of them |
| Reconciler.DetectionIsDispute | domain/services/conflict_detector.py:90-121 | a field is detected exactly when two active claims differ and two sources have active claims |
| Reconciler.DetectFieldsFrame | application/ingestion/_conflict_reconciler.py:91-147 | detection touches only rows of the detected fields of its event |
| Reconciler.FixedWinnerMeans | application/ingestion/_conflict_reconciler.py:168-238 | what becomes of a row that lost its winner, column by column: unchanged without active claims, open over all of them when they differ, won by the replacement when they agree and it is among them |
| Reconciler.ClosedIfAgreedMeans | application/ingestion/_conflict_reconciler.py:240-313 | what becomes of an open row, column by column: closed by the system for an active claim when the evidence agrees, unchanged otherwise |
| Reconciler.DetectFieldMeans | application/ingestion/_conflict_reconciler.py:62-166 | what becomes of a detected field, column by column: its open row takes the evidence, or the latest contradicted decision is reopened, or a new open row is added, and no other row changes |
| Reconciler.ConflictReconciler.MergeEvidenceIntoOpen | application/ingestion/_conflict_reconciler.py:315-372 | applies its one step, defers only to a row resolved meanwhile, or raises only after five version bumps by others |
| Reconciler.ConflictReconciler.ReopenResolvedForEvidence | application/ingestion/_conflict_reconciler.py:374-440 | reopens, or merges into a row reopened meanwhile; defers only to a row that was open since and is resolved again; raises only on exhaustion or when a second open row exists |
| Reconciler.ConflictReconciler.AutoResolveStaleOpenConflict | application/ingestion/_conflict_reconciler.py:240-313 | if it closes a row, the field's active claims agreed at a moment since it began, the winner among them; however it ends short of raising, at some moment since it began the field had no open row, no active claim or a disagreement; defers only to a resolved row, raises only after five version bumps; without interference it closes exactly when they agree |
| Reconciler.ConflictReconciler.ReconcileResolvedWinner | application/ingestion/_conflict_reconciler.py:168-238 | if it moves the winner, the field's evidence agreed on it at a moment since it began; if it reopens, the linked claims were the field's and disagreed; unless it gives up or raises, at some moment since it began the row was open, or had a winner the evidence agreed on, or the field had no active claim; gives up only after five version bumps by others |
| Reconciler.ConflictReconciler.ReconcileSupersededWinners | application/ingestion/_conflict_reconciler.py:41-50 | every pending row was put right at some moment since, or others bumped its version five times; raises only after five bumps of one row or on a second open row; without interference, exactly the pending rows are fixed, each as specified, and nothing raises |
| Reconciler.ConflictReconciler.AutoResolveStaleOpenConflicts | application/ingestion/_conflict_reconciler.py:52-60 | every affected field was, at some moment since, without an open row, without active claims or in disagreement; raises only after five bumps of one row; without interference, exactly the agreed open rows of the affected fields are closed, in whatever order the fields come |
| Reconciler.ConflictReconciler.DetectAndApplyNewConflicts | application/ingestion/_conflict_reconciler.py:62-166 | for every field detected in the claims read at some moment since it began, from then on an open row linked all the detected claims, or the field's row was resolved by another writer; raises only after five bumps of one row or on a second open row; without interference, the table of the detection function |
| Reconciler.ConflictReconciler.OpenNewConflict | application/ingestion/_conflict_reconciler.py:120-166 | inserts when no open row exists, else merges into the row of the faster writer; an open row linked all the claims or the faster writer's row was resolved meanwhile; raises only after five bumps |
| Moments.ClosingMoment | application/ingestion/_conflict_reconciler.py:240-313 | between a moment when a conflict was open and one when it was resolved, there was a moment when its field had no open row |
| ClaimWriting.WriteItemsClaimByClaim | application/ingestion/_claim_writer.py:161-250 | the table after a write, claim by claim: new claims at the end, each earlier one untouched or superseded by the one new claim of its field |
| ClaimWriting.WriteMeans | application/ingestion/_claim_writer.py:144-250 | the table after a write, column by column: one raw claim per item with its event, source, record, field and value, and every active claim that an item corrects superseded by that item's claim |
| ClaimWriting.WriteRunLineage | application/ingestion/_claim_writer.py:156-250 | over any run of writes, supersession points to a strictly later claim of the same source and field, and at most one claim is active per source, record and field |
| ClaimWriting.ChainEndsActive | application/ingestion/_claim_writer.py:215-250 | every supersession chain ends in an active claim of the same source and field |
| ClaimWriting.UnrecordedWriteLeavesOneActive | application/ingestion/_claim_writer.py:167-178 | a write without a record id leaves exactly its own claim active for each field it carried |
| ClaimWriting.WriteRunHistory | application/ingestion/_claim_writer.py:180-250 | over any run of writes, one created row per claim, at most one superseded row, and active iff the last row does not say superseded |
| ClaimWriter.DuplicateFields | application/ingestion/_claim_writer.py:18-38 | reports exactly the fields that occur more than once |
| ClaimWriter.ResolvedWonBy | infrastructure/db/repositories/conflicts.py:251-276 | finds a resolved conflict the claim won exactly when there is one |
| ClaimWriter.Writer.WriteNormalised | application/ingestion/_claim_writer.py:144-269 | which fields are repeated, or which is the first without a value; the tables after the write, the ids superseded, the fields affected, and a complete list of conflicts that lost their winner, each with its replacement |
| Curation.ResolveDecides | application/use_cases/resolve_conflict.py:36-253 | a committed resolve found the conflict open at the expected version and left the winner active, every other linked active claim superseded by it, and one history row for each |
| Curation.ResolveCommitsIff | application/use_cases/resolve_conflict.py:62-165 | a resolve commits if and only if the conflict is there, open, at the expected version, and links the winner, which is active |
| Curation.OverrideCommitsIff | application/use_cases/resolve_conflict.py:62-70 | an override commits if and only if the conflict is there, open and at the expected version |
| Curation.ReopenCommitsIff | application/use_cases/reopen_conflict.py:49-120 | a reopen commits if and only if the conflict is there, resolved, at the expected version, and no other is open on its field |
| Curation.FailuresInOrder | application/use_cases/resolve_conflict.py:62-165 | which failure a curator is shown, and that it does not depend on what is checked later |
| Curation.ResolveMeans | application/use_cases/resolve_conflict.py:156-253 | the tables after a resolve, column by column: one row decided for the winner, its other active linked claims superseded by it, nothing else changed |
| Curation.OverrideMeans | application/use_cases/resolve_conflict.py:74-253 | the tables after an override, column by column: one claim with the source and value given, on the conflict's event and field, and the conflict decided for it over every active linked claim |
| Curation.ReopenMeans | application/use_cases/reopen_conflict.py:49-173 | the tables after a reopen, column by column: the row open without a winner, the claims that had lost to that winner active again with the type they held, nothing else changed |
| Curation.AliveAfterReopen | application/use_cases/reopen_conflict.py:49-173 | claim by claim who is active after a reopen: who was before, and the linked claims that had lost to the winner |
| SerialRuns.ResolvedIsContradicted | application/ingestion/_conflict_reconciler.py:104-118 | a disputed field with a resolved row always takes the reopen case |
| SerialRuns.BrandNewMeansNoRow | application/ingestion/_conflict_reconciler.py:120-147 | the brand-new case is reached if and only if the field has no conflict row at all |
| SerialRuns.FixLostRowIsSerial | application/ingestion/_conflict_reconciler.py:168-238 | after the first stage a row that lost its winner has an active one again, or is open over a real disagreement |
| SerialRuns.IngestSettles | application/use_cases/ingest_source_data.py:409-417 | one ingestion keeps all invariants and leaves every detected field of its event with an open row linking all its active claims |
| SerialRuns.StaleRowsAreClosed | application/ingestion/_conflict_reconciler.py:240-313 | no row stays open over evidence that has come to agree |
| SerialRuns.OpenFieldsAreDisputedFields | application/ingestion/_conflict_reconciler.py:62-166 | with one active claim per source and field, the open fields are exactly the disputed ones |
| EvidenceRuns.ContinuityScopesTheWrite | application/ingestion/_continuity.py:49-76 | continuity keeps a record together, so a write goes to an unmerged event and supersedes only claims there and on events absorbed into it |
| EvidenceRuns.RoutedIff | application/ingestion/_continuity.py:49-92 | where an ingestion is written, by reachability: the event named or chosen, unless the record's latest claim leads elsewhere |
| EvidenceRuns.NamedEventIsKept | application/ingestion/_continuity.py:65-70 | a submission that names an event is written to no other, and is accepted if and only if that event is unmerged and the record is new or its latest claim leads there |
| EvidenceRuns.IngestionWrites | application/use_cases/ingest_source_data.py:349-417 | after a committed ingestion every new claim carries the submission's source, record, field and value on the event it was routed to, the named one if one was named |
| EvidenceRuns.EveryRunIsSerial | application/ingestion/_conflict_reconciler.py:41-166 | every run, merges included, keeps at most one conflict row per event and field, all claims of a record on events that lead to one event, and every resolved conflict's winner linked, and active unless its event was absorbed |
| EvidenceRuns.EveryDetectionSettles | application/ingestion/_conflict_reconciler.py:62-166 | after any run ending in an ingestion or a merge, each detected field of the event it ended on has exactly one row, open, linking all its active claims |
| EvidenceRuns.OpenConflictsAreGenuine | application/ingestion/_conflict_reconciler.py:240-313 | in any run whose manual reopens revive a disagreement, every open conflict of an event not absorbed has two active claims that differ |
| EvidenceRuns.OpenFieldsAfterDetection | application/ingestion/_conflict_reconciler.py:41-166 | after any such run ending in an ingestion or a merge, open fields and disputed fields of the event coincide |
| EvidenceRuns.GenuineThroughoutIff | application/use_cases/reopen_conflict.py:49-173 | every open conflict of an event not absorbed is genuine at every moment of a run if and only if each manual reopen revives a disagreement or is on an absorbed event |
| EvidenceRuns.ReopenKeepsGenuineIff | application/use_cases/reopen_conflict.py:49-173 | a reopen keeps all open conflicts genuine if and only if its event is absorbed or the claims that are active or about to be revived disagree |
| EvidenceRuns.ReopenKeepsOneActiveIff | application/use_cases/reopen_conflict.py:49-173 | a reopen keeps at most one active claim per source record and field if and only if no two claims that are active or about to be revived share them |
| EvidenceRuns.OneActiveThroughoutIff | application/use_cases/reopen_conflict.py:49-173 | one active claim per source record and field at every moment of a run if and only if no manual reopen revives a twin |
| FieldHistory.IngestMovesRow | application/ingestion/_conflict_reconciler.py:315-372 | no ingestion drops an evidence link, the links it adds are to active claims, and a changed row has a higher version |
| FieldHistory.SkippingLeavesRow | application/use_cases/ingest_source_data.py:349-417 | an ingestion without a claim for the field of a resolved conflict leaves its row alone or opens it over a real disagreement |
| LaterReopens.ReopenCommitsIff | application/use_cases/reopen_conflict.py:49-173 | after any ingestions, merges and decisions on other conflicts, a reopen with the version the decision left commits if and only if its row is unchanged |
| LaterReopens.LoserComesBackIff | application/use_cases/reopen_conflict.py:49-173 | a claim the decision superseded comes back exactly as it was if and only if the conflict still has that winner, and stays superseded otherwise |
| LaterReopens.DisputeComesBackIff | application/use_cases/reopen_conflict.py:49-173 | for every decision and every such run: while the winner is unchanged, the field is restored exactly if and only if no linked claim had lost to it before, no claim written since is active and none left active has been superseded since; once it was moved, if and only if the event has been absorbed, the decision beat nobody, and the claims active or lost to the new winner are those active before |
| LaterReopens.LiveDisputeComesBackIff | application/use_cases/reopen_conflict.py:49-173 | for a decision on an unmerged event that superseded a claim, or while the event stays unmerged: the dispute is restored exactly if and only if the event has not been merged since, no linked claim had lost to the winner before, and no claim written since is active |
| LaterReopens.RunKeepsHomes | infrastructure/db/repositories/claims.py:230-287 | over any run, the type a claim has, or would be restored to, never changes |
| LaterReopens.ResolvedDisputeComesBackIff | application/use_cases/resolve_conflict.py:36-253 | the same for a committed resolve, any run after it and any committed reopen |
| LaterReopens.OverriddenDisputeComesBackIff | application/use_cases/resolve_conflict.py:36-253 | the same for a manual override, which stays beside the restored claims |
| RunWitnesses.CorrectedBefore | application/use_cases/reopen_conflict.py:49-173 | a run in which a record corrected before the decision has two active claims after the reopen |
| RunWitnesses.CorrectedMeanwhile | application/use_cases/reopen_conflict.py:49-173 | the same for a record corrected between decision and reopen, though no linked claim had lost to the winner before |
| RunWitnesses.WinnerCorrectedMeanwhile | application/use_cases/reopen_conflict.py:49-173 | a run in which the winner is corrected in between: it comes back beside its correction and the loser does not |
| RunWitnesses.ReopenedWithoutDispute | application/use_cases/reopen_conflict.py:49-173 | a run that reopens an auto-closed conflict and leaves it open over agreeing claims |
| RunWitnesses.MergedMeanwhile | application/use_cases/merge_duplicate_events.py:122-186 | a run that merges the event between decision and reopen: no linked claim had lost before, none written since is active, the reopen commits, and the field is not as it was |
| RunWitnesses.DisputedEventCannotMerge | application/use_cases/merge_duplicate_events.py:190-221 | a run after which two unmerged different events cannot be merged, because the first has an open conflict |
| EventMerges.MergeCommitsIff | application/use_cases/merge_duplicate_events.py:56-256 | a merge commits if and only if both events exist, differ and are unmerged, and the source event has no open conflict |
| EventMerges.TransferClaimByClaim | application/use_cases/merge_duplicate_events.py:122-186 | the claims after a merge, claim by claim: a copy of each active claim of the source event at the end, each original superseded by its copy, nothing else touched |
| EventMerges.MergeCarriesClaims | application/use_cases/merge_duplicate_events.py:122-186 | after a committed merge each active claim of the source event is carried to the target with its source, record, field, value and type, and superseded by that claim; no other claim changes |
| EventMerges.MergeJoinsEvidence | application/use_cases/merge_duplicate_events.py:122-186 | what the surviving event reports, source by source and field by field, is what the two events reported before; the absorbed event reports nothing |
| EventMerges.MergeSettles | application/use_cases/merge_duplicate_events.py:223-230 | a merge keeps every invariant, settles the detected fields of the surviving event, touches only their rows, and leaves no conflict open over agreeing evidence |
| EventMerges.TransferKeepsOneActive | application/use_cases/merge_duplicate_events.py:122-186 | a merge keeps at most one active claim per source record and field |
| MergePipeline.MergeDuplicateEvents.Execute | application/use_cases/merge_duplicate_events.py:56-256 | the imperative merge leaves exactly the tables of the merge step, and nothing when it fails |
| SupersessionChains.EveryRunIsChained | infrastructure/db/repositories/claims.py:179-287 | over any run of ingestions, decisions, reopens and merges, superseding claims never form a loop and keep the field |
| SupersessionChains.EveryChainEnds | infrastructure/db/repositories/claims.py:179-287 | after any such run, following the superseding claims from any claim ends in exactly one claim, active and of the same field |
| SafeRuns.EveryRunIsSafe | infrastructure/db/repositories/conflicts.py:217-234 | every run of ingestions, decisions, reopens and merges ends in a state with all the invariants of the interleaving model: histories replay, logs are faithful, one open row per field, no dangling merge pointer |
| IngestPipeline.FixWinnersIsFixLost | application/ingestion/_claim_writer.py:254-267 | the list collected by the claim writer names exactly the rows that lost their winner |
| IngestPipeline.IngestSourceData.Execute | application/use_cases/ingest_source_data.py:349-417 | the imperative pipeline leaves exactly the tables of the serial step, its new claims on the event named if one was named, and nothing when it rejects |
| ConflictEntity.ClaimConflict.Resolve | domain/entities.py:250-267 | the errors, the columns left, and that no assignment on the way trips a validator |
| ConflictEntity.ClaimConflict.ReopenByUser | domain/entities.py:279-294 | reopens exactly resolved conflicts and leaves the others unchanged |
| ConflictEntity.ClaimConflict.ReopenForNewEvidence | domain/entities.py:269-277 | never raises, whatever the conflict's state |
| ConflictEntity.ClaimConflict.AddEvidence | domain/entities.py:301-306 | raises exactly on a winnerless resolved conflict |
| ConflictEntity.ClaimConflict.AddClaimId | domain/entities.py:296-299 | appends the claim id unless it is there, and keeps the entity valid |
| ConflictEntity.EntityAndRowAgree | domain/entities.py:250-306 | entity methods and repository updates leave the same columns, and an update without an entity method closes a row as the system's doing or moves its winner alone |
| ConflictEntity.OnlyTombstonesDoNotLoad | domain/entities.py:229-248 | of all updates exactly the merge tombstone leaves a row that cannot be loaded |
| AuditChain.ChainHashIsInjective | alembic/versions/053_audit_chain.py:257-261 | equal last hashes mean equal payload sequences, length included |
| AuditChain.OrderSorts | alembic/versions/053_audit_chain.py:310-313 | the verification order is the same rows in ascending key order |
| AuditChain.OrderedByTimeThenId | alembic/versions/053_audit_chain.py:310-313 | the verification order in columns: by ascending time and, at one time, by ascending id |
| AuditChain.OrderIsUnique | alembic/versions/053_audit_chain.py:310-313 | any sequence of the same rows so ordered is the verification order |
| AuditChain.RestampKeepsOrder | alembic/versions/053_audit_chain.py:373-376 | rewriting hash columns moves no row |
| AuditChain.BackfillLinks | alembic/versions/053_audit_chain.py:336-392 | whatever the hash columns held, a backfilled table is one linked chain with every payload kept |
| AuditChain.AuditedTable.Append | alembic/versions/053_audit_chain.py:226-275 | the error cases, and the row and anchor after an append |
| AuditChain.AuditedTable.Verify | alembic/versions/053_audit_chain.py:278-333 | each verdict is ok exactly when the row's two hashes are those of the rows up to it, and unknown exactly when it has no hash |
| AuditChain.AuditedTable.Backfill | alembic/versions/053_audit_chain.py:336-392 | the loop leaves the backfilled table and an anchor that agrees with it |
| AuditIntegrity.GenuineRowVerifiesIff | alembic/versions/053_audit_chain.py:314-330 | a row with genuine hash columns verifies if and only if the payloads up to it are exactly the genuine ones |
| AuditIntegrity.VerifiedTableIsTheGenuineOne | alembic/versions/053_audit_chain.py:265-330 | if the last row verifies and its hash is a genuine anchor's, the stored payloads are exactly those appended, and as many |
| AuditIntegrity.EditFailsFromThere | alembic/versions/053_audit_chain.py:310-330 | a changed payload leaves every earlier row ok and fails its row and every later one |
| AuditIntegrity.HashEditFailsOnlyThere | alembic/versions/053_audit_chain.py:325-327 | an overwritten hash fails its own row alone, as unknown when it was erased |
| AuditIntegrity.RemovalFailsFromThere | alembic/versions/053_audit_chain.py:310-330 | a removed row fails every later row |
| AuditIntegrity.UntouchedChainVerifiesIff | alembic/versions/053_audit_chain.py:310-313 | an untouched chain verifies if and only if its keys ascend in append order |
| AuditIntegrity.AppendsKeepTheChain | alembic/versions/053_audit_chain.py:226-275 | appends with increasing keys keep a table sound, anchor included |
| AuditIntegrity.BackfillThenAppendVerifies | alembic/versions/053_audit_chain.py:336-392 | backfilling any table and appending rows with increasing keys makes every row verify, with the anchor on the last row and counting all |
| AuditIntegrity.AppendedInOrderVerifies | alembic/versions/053_audit_chain.py:278-333 | rows appended by ascending time and, at one time, by ascending id all verify |
| AuditIntegrity.TiedRowsVerify | alembic/versions/053_audit_chain.py:278-333 | two rows of one timestamp appended in the order of their ids verify |
| AuditTransactions.EveryScheduleKeepsChain | alembic/versions/053_audit_chain.py:242-270 | in every interleaving of locks, inserts, commits and aborts, committed and pending rows are one chain with their anchors |
| AuditTransactions.CommittedRowsAreOneChain | alembic/versions/053_audit_chain.py:242-270 | no two committed rows share a previous hash, and the anchor is their count and last hash |
| AuditTransactions.EveryScheduleHolds | alembic/versions/053_audit_chain.py:242-272 | in every interleaving the table holds all that each committed transaction inserted since it took the lock, in order, and nothing of any other |
| AuditTransactions.BothRowsAreCommitted | alembic/versions/053_audit_chain.py:242-272 | a transaction of two inserts appends both rows |
| AuditTransactions.ScheduleVerifiesIff | alembic/versions/053_audit_chain.py:278-333 | the verifier passes all committed rows of a schedule if and only if they were appended in ascending (time, id) order |
| AuditTransactions.OvertakenScheduleFails | alembic/versions/053_audit_chain.py:310-313 | an honest two-transaction schedule whose rows do not all verify |
| MergeGraph.WalkIsReachability | application/ingestion/_event_resolution.py:228-242 | the walk ends at an unmerged event iff one is reachable, which is then unique; at a missing one iff a pointer dangles; in a cycle iff the pointers never end |
| MergeGraph.LinkRedirects | infrastructure/db/repositories/events.py:106-126 | after linking one root under another, every walk ends where it did, or at the second root where it ended at the first |
| MergeGraph.LinkKeepsForestIff | infrastructure/db/repositories/events.py:106-126 | the conditional update alone keeps the graph acyclic if and only if the target does not already lead to the source |
| MergeGraph.Events.ContinuityEventFor | application/ingestion/_continuity.py:78-92 | the loop ends and reports the walk, with its two errors |
| MergeGraph.Events.ResolutionEventFor | application/ingestion/_event_resolution.py:228-242 | the loop ends and reports the walk, a missing event as no event |
| MergeGraph.Events.ReplayEventId | application/ingestion/_idempotency.py:243-270 | the loop ends and reports the walk, a cycle by the event it began with |
| MergeGraph.Events.ContinuityResolve | application/ingestion/_continuity.py:49-76 | no prior event, the prior event's canonical one, or a mismatch with an explicit other one |
| MergeGraph.ContinuityIsReachability | application/ingestion/_continuity.py:49-92 | continues with the unmerged event the prior one leads to unless another was named; each error exactly when a pointer dangles, the pointers never end, or the named event differs |
| MergeGraph.ContinuityAfterRuns | application/ingestion/_continuity.py:49-92 | after any run of creations and merges, a record with a prior event stays with one unmerged event, and only a mismatch can fail |
| MergeGraph.ResolutionIsReachability | application/ingestion/_event_resolution.py:228-242 | event resolution finds the unmerged event a candidate leads to, none at a dangling pointer, and fails exactly when the pointers never end |
| MergeGraph.StartErrorIff | application/use_cases/merge_duplicate_events.py:64-111 | which failure a merge begins with, for which of the two events |
| MergeGraph.Events.StartMerge | application/use_cases/merge_duplicate_events.py:64-111 | the order of the errors, and the pointer set exactly when both events are unmerged and differ; whether the merge then commits is EventMerges.MergeCommitsIff |
| MergeGraph.ReplayTracksMerges | application/ingestion/_idempotency.py:243-270 | through any number of later creations and merges, the walk from a stored id ends where its old canonical event has been merged to |
| MergeGraph.EveryRunIsForest | application/use_cases/merge_duplicate_events.py:78-111 | no run of creations and merges makes a cycle or a dangling pointer |
| AliasCap.CapRegistrationNorms | domain/entities.py:423-442 | the validator's loop, run from the right with its early exit, equals the cap function |
| AliasCap.AggregationIsCap | infrastructure/db/repositories/_helpers.py:88-104 | the SQL aggregation (group, greatest last position, limit, order) has exactly one answer, the validator's |
| AliasCap.MigrationCapsIff | alembic/versions/020_cap_registration_aliases.py:23-44 | the migration leaves the capped list if and only if the list was over the limit or free of repeats |
| AliasCap.CapSize | domain/entities.py:423-442 | the capped list holds five distinct registrations, or all of them when there are fewer |
| AliasCap.CapLeft | domain/entities.py:423-442 | capping a list before appending to it changes nothing |
| AliasCap.CapRight | infrastructure/db/repositories/identity.py:102-106 | capping the appended list first changes nothing |
| IdentityIndex.IncrementalIsBatch | infrastructure/db/repositories/identity.py:50-292 | after any run of upserts, alias enrichments and merges, a row's aliases are the cap of everything ever asserted |
| IdentityIndex.RecordsAreKept | infrastructure/db/repositories/identity.py:90-98 | no source record id is ever dropped from a row |
| IdentityIndex.PrimaryRegistration | infrastructure/db/repositories/identity.py:112-172 | the primary registration is the last one an own ingestion gave, else the first that came by a merged event |
| IdentityIndex.ScalarOfRow | infrastructure/db/repositories/identity.py:50-292 | the same for date, operator, location and aircraft: the last value the event's own ingestions gave, else the first a merged event brought |
| FirstOccurrences.DistinctByFirstPosition | application/ingestion/_idempotency.py:228 | the deduplicated list holds each value once, by first occurrence |
| EventMatching.BestMatch | domain/services/event_matching.py:261-302 | the loop finds the top score, its first candidate and, when tied, every tied candidate once |
| EventMatching.Decide | domain/services/event_matching.py:304-331 | the loop's decision is the one read off the top scorers |
| EventMatching.DecisionIsByTopScore | domain/services/event_matching.py:304-331 | attach iff one candidate alone is top and confident; review iff the top is uncertain or tied, over every top scorer in order |
| EventMatching.TopPositions | domain/services/event_matching.py:261-302 | the top scorers are exactly the candidates no other outscores, in candidate order, when any scored above zero |
| EventResolution.EventResolutionService.Candidates | application/ingestion/_event_resolution.py:96-111 | the two queries' hits, each once, date hits first |
| EventResolution.EventResolutionService.CanonicalCandidates | application/ingestion/_event_resolution.py:154-169 | fails iff some candidate is on a cycle, else the first `limit` distinct canonical candidates in order, the new event excluded |
| EventResolution.ReviewedMeans | application/ingestion/_event_resolution.py:154-169 | the events reviewed are ones the candidates lead to, not the new event, each once, no more than the limit, and fewer only if there are no more |
| EventResolution.EventResolutionService.QueueReviews | application/ingestion/_event_resolution.py:171-192 | one review per candidate against the new event, the existing one where there is one, nothing else written |
| EventResolution.EventResolutionService.AddReview | infrastructure/db/repositories/reviews.py:46-63 | inserts unless the unordered pair is already pending |
| EventResolution.EventResolutionService.ResolveWithReviews | application/ingestion/_event_resolution.py:63-226 | the resolved event is unmerged and indexed; when it is new, when it is attached and to what, which reviews are queued; and no failure on an acyclic graph |
| EventResolution.AttachedRowMeans | application/ingestion/_event_resolution.py:115-143 | a submission matched to the event itself displaces stored scalars, one matched through a merged event only fills gaps, and its registration joins the aliases |
| EventResolution.TiedAliasesAreReviewed | application/ingestion/_event_resolution.py:145-192 | confident hits tied for the top that all stand for one event lead to a review of that event alone |
| EventResolution.SubmitBesideAlias | application/ingestion/_event_resolution.py:63-226 | a submission matching an event and its merged alias equally gets a new event with one review against that event |
| EventResolution.Existing | infrastructure/db/repositories/reviews.py:132-147 | finds a review of the unordered pair exactly when there is one |
| EventResolution.ExistingIsPendingThenNewest | infrastructure/db/repositories/reviews.py:132-147 | the review found is a pending one if the pair has any, and of those, or of the closed ones, the newest |
| Replay.InjectiveHashExists | application/use_cases/ingest_source_data.py:165-196 | the assumption that different canonical texts have different hashes can be met |
| Replay.AcceptsIff | application/ingestion/_idempotency.py:115-160 | a row with a fingerprint accepts exactly the submissions equal to Python to what the column kept of the stored one, and, if its hash is of the content, the same content |
| Replay.AcceptsWhatPythonEquatesIff | application/ingestion/_idempotency.py:138-160 | a row accepts exactly the submissions that are the same to Python, whatever the import time, if and only if the column rounded no float of its claims |
| Replay.AcceptsItsOwnContentIff | application/ingestion/_idempotency.py:129-160 | a row accepts the content it was written for if and only if its hash is of the content or the column rounded no float |
| Replay.DecidesByContentIff | application/use_cases/ingest_source_data.py:175-196 | the guard tells a submission from the stored one by content if and only if it is not one that respells a number the column kept |
| Replay.AcceptsOnlyItsContentIff | application/use_cases/ingest_source_data.py:175-196 | a row accepts nothing but its own content if and only if no claim of it holds a bool, an integral float, or an integer that is a double |
| Replay.OneAsTrueIsAccepted | application/ingestion/_idempotency.py:146-153 | a run stored with 1 accepts true and 1.0 in its place, though the submission hashes differ |
| Replay.NoFloatIsAcceptedFor | application/ingestion/_idempotency.py:146-153 | a run stored with 2^53 + 1 accepts nothing but its own content |
| Replay.FloatIsRounded | application/ingestion/_idempotency.py:146-153 | a run stored with the double nearest to 10^24 accepts the integer 10^24, and a row that hashed the import time refuses that same double |
| JsonValues.KeptAtTheExponent | infrastructure/db/_orm_core.py:74 | the last double before 10^16 comes back as it is, 10^16 as an integer |
| JsonValues.KeptIsEqualIff | infrastructure/db/_orm_core.py:74 | what the JSONB column hands back is equal to Python to what was stored if and only if no float in it was rounded |
| JsonValues.SameTextIff | application/ingestion/_idempotency.py:152 | a value equal to what the column kept has the stored value's canonical text if and only if no place in it holds a number respelled |
| JsonValues.RespellIsKept | application/ingestion/_idempotency.py:152 | every value has a respelling equal to what the column kept of it, whose text differs exactly when it holds a number with another spelling |
| JsonValues.OddIsDoubleIff | application/ingestion/_idempotency.py:152 | an odd integer equals some float if and only if it has at most 53 binary digits |
| JsonValues.PyEqualTrans | application/ingestion/_idempotency.py:152 | Python's equality of JSON values is transitive through lists, objects and numbers of different types |
| Replay.LegacyAcceptsIff | application/ingestion/_idempotency.py:162-178 | a row from before fingerprints accepts exactly the submissions with its raw payload and those whose whole hash material is that payload |
| Replay.NormalisedReviews | application/dto.py:72-81 | a result lists its primary and its other reviews once each, in order, with the primary first |
| Replay.NormalisedTwice | application/dto.py:72-81 | normalising is idempotent |
| Replay.ReplayReviews | application/ingestion/_idempotency.py:228-241 | whatever JSON was stored, the replayed reviews are the primary and then the stored ids, each once |
| Replay.StoreThenReplay | application/use_cases/ingest_source_data.py:204-222 | storing a result and reading it for a replay, after any changes to the merge graph, gives it back with its event's current canonical id |
| Replay.StoredLosesNothing | application/use_cases/ingest_source_data.py:204-222 | the stored record is readable, names the event at completion, and determines the result it was made from |
| Replay.LegacyThenReplay | application/ingestion/_idempotency.py:187-201 | a row without a stored result replays with the event its claims are on, or the one that has since been merged into |
| Replay.ReplayedEventIff | application/ingestion/_idempotency.py:243-270 | a replay names the unmerged event the stored one leads to, and fails exactly when a pointer dangles or the pointers never end, naming which event |
| Replay.UnreadableIff | application/ingestion/_idempotency.py:184-226 | exactly which rows have no result and which hold one that cannot be read |
| Replay.IngestionIdempotencyService.ResultFromSnapshot | application/ingestion/_idempotency.py:184-241 | the replayed result, or which failure, for every stored row |
| Replay.IngestionIdempotencyService.Check | application/ingestion/_idempotency.py:72-113 | a new run goes on; the answer to a known one is that of StoreThenCheck and RunningThenCheck |
| Replay.StoreThenCheck | application/ingestion/_idempotency.py:72-113 | a completed run resubmitted after any changes to the merge graph is answered with its result if the submission repeats the stored one, in the sense of AcceptsIff, and is a mismatch otherwise |
| Replay.RunningThenCheck | application/ingestion/_idempotency.py:72-113 | a stored run is reported in progress exactly when its submission is repeated, in the sense of AcceptsIff, and it has neither result nor claims |
| KeyCase.SnakeRoundTripIff | lib/api.ts:46-67 | a key survives camelCase and back exactly when it has no uppercase letter and no underscore before a digit |
| KeyCase.CamelRoundTripIff | lib/api.ts:46-67 | a key survives snake_case and back exactly when no underscore precedes a lowercase letter or digit |
| KeyCase.CamelTwiceIff | src/atlasClient.ts:27-29 | camelizing a key twice equals once exactly when no digit follows two underscores |
| JsonKeys.FromEntriesIsObject | lib/api.ts:53-58 | the object built has each key once, and is the entry list itself exactly when no renamed keys clash |
| JsonKeys.FromEntriesKeepsPlace | lib/api.ts:53-58 | when renamed keys clash, a key keeps the place of its first assignment and the value of its last |
| JsonKeys.RoundTripIff | lib/api.ts:50-80 | over every tree, renaming by one transformer and then another gives the tree back if and only if every key comes back |
| JsonKeys.SnakeOfCamelIff | lib/api.ts:50-80 | a whole response survives camelizing and snakeizing exactly under the key condition |
| JsonKeys.CamelOfSnakeIff | lib/api.ts:50-80 | a whole request body survives snakeizing and camelizing exactly under the key condition |
| JsonKeys.CamelizeTwiceIff | src/atlasClient.ts:31-42 | a response camelized on the server and in the browser equals one camelized once exactly when no key of the first result changes again |
| JsonKeys.CamelizeTwiceByKeys | src/atlasClient.ts:31-42 | the same in terms of the response's own keys, exact when no two keys of an object clash |

## Left out

- Field values are their normalised comparison keys; numeric coercion, hashing of nested values and the normalisers are not modelled.
- Row timestamps (but for the audit sort key), UUID generation, notes, log text and modifier identities; ids are positions, and "newest" is the order of insertion, so the `updated_at` tie-break between resolved rows of equal version is insertion order.
- The claim writer runs under the event row lock and the source-record lock; the lock calls themselves are not steps of the model.
- In the concurrent model a writer's steps are visible at once; uncommitted reads, and the rollback of a unit of work that others have seen, are not modelled. Rollback is modelled for an exclusive unit of work.
- Curator steps in the concurrent model are the row update and the claim changes as separate steps; the serial model runs them as one transaction.
- Evidence.ActiveIds: lists a field's active claims by id; `find_active_by_event_field` has no ORDER BY, so which of several agreeing claims becomes the winner of an auto-closed conflict is not fixed by the code.
- Reconciler.LatestResolved: does not state the `updated_at` tie-break between resolved rows of equal version, because rows have no timestamps here.
- IngestPipeline.IngestSourceData.Execute: takes the resolved event as input and stops before the snapshot is stored; EventResolution and Replay model those phases on tables of their own.
- EvidenceRuns.PriorEvent: takes the record's last claim; a claim and its copies on other events can tie in the query's order, and all of them lead to the same event.
- MergePipeline.MergeDuplicateEvents.Execute: leaves out the identity rows, the projection delete and the closing of the review that a merge also does; IdentityIndex has the identity rows.
- The one-off command at presentation/cli/ntsb.py:262, which supersedes claims of one field by claims of another and writes no history row: it is the one writer of claims that is no step of a run here, and it breaks the history law and the chains.
- EventResolution.EventResolutionService.ResolveWithReviews: leaves the state after a failure open, because the caller's transaction is rolled back.
- Scoring of one candidate, the date window and the row limit of the index queries; the model takes their hits and scores as given.
- AuditChain.ChainHashIsInjective: assumes an injective HMAC of the previous digest and the payload, so it does not cover hash collisions or the byte concatenation of the two; the payload is taken not to depend on the session, while `to_jsonb` of a timestamptz prints the session's time zone.
- Replay.AcceptsIff: assumes SHA-256 to be injective on canonical texts, so hash collisions are not covered; the shortest decimal texts that Python writes for doubles are a parameter of the statements, and JSON numbers a JSONB column cannot hold are left out.
- A table without a registered anchor row, and the choice of its order column.
- Construction of the registration aliases from raw fields, and the `fields` view of an index row.
- Malformed stored result JSON, which the types here exclude, and the request size limits that precede the replay guard.
- JavaScript's ordering of integer-like property names, and `Date` values.
- The outbox, projections, sessions, security, tenancy, editorial workflow and the user interface.
- Nothing here was executed; the statements are about the model.
