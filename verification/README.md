# Verification of the worker's durable state

This project models, in Dafny, what the concurrent jobs of the ML worker do to
the rows they share, and proves what every step and every whole run keeps. Model
answers, clocks, fresh identifiers and handler outcomes are arbitrary inputs,
restricted only by the validators the worker applies to them.
`dafny verify dfyconfig.toml` checks everything.

## Parts

**Case evidence** (`Evidence`, `Transactions`, `CommittedRows`, `CaseProtocol`,
`CaseRuns`, `CaseStore`, `CaseRefinement`). The shared rows are one value, a
`Graph`: Cases, Article links, and for Entities and Events the mentions, the
Case scopes and the published rows. `Transactions` says what each committed
transaction does, and `CommittedRows` what the tables hold after it.
`CaseProtocol` is a state machine over every interleaving: three advisory locks,
transactions that hold one across a slow model call, and audits that read
without locks, in separate statements, and publish later behind a revision
guard. `CaseRuns` holds the theorems about all runs. `CaseStore` runs the same
transactions as the worker does, row by row on mutable tables, and proves that
each commits exactly what `Transactions` says. `CaseRefinement` joins the two:
each of these calls on the tables is a step of the state machine, so that its
invariants hold of the tables.

**Coherence audits in batches** (`AuditOutput`, `CoherenceBatches`,
`ReconciledAudits`). Cards are split into batches, batch stories become groups
with textual references, the groups are reconciled, and references are expanded
back to Articles.

**Jobs** (`JobRows`, `JobRuns`, `JobStore`, `Schedule`, `Executor`). One row and
what each statement of the job store does to it; runs in which several workers
hold the same job after a lease expired; the store's table, claim order and
drain test; the round-robin scan, within a cycle and across cycles; and every
interleaving of the workers of one cycle. `JobTypes` lists the kinds of jobs.

**Event anchors** (`EventDates`, `EventAnchors`, `EventWrites`, `EventContents`,
`EventSafety`). Partial dates are ordered by how much they say, and enriching an
Event computes a join. The pass that normalises the links of one answer must leave nothing for the
pass that writes them to refuse, except dates that the database refuses when the
session flushes; when it flushes is left open.

**Small cores**: the JSON repair (`JsonEscape`, against section 7 of RFC 8259),
the lifecycle sample (`Sampling`) and the refresh rule (`RefreshRule`).
`Wrappers` and `Collections` are shared helpers.

## Assumptions

- A database transaction is atomic, and an advisory lock is held until commit.
- The publication and creation dates of an Article never change, and a linked
  Article keeps its Article Card.
- `max_attempts` is at least 1.
- Fresh UUIDs are parameters, required to be unused. Identifiers are abstract;
  where their order matters (claiming, merging) they carry a number.
- Reading a set of rows for which the source gives no order, and picking among
  rows that tie in an order, may yield any of them.
- Square roots and divisions are exact, and `round` on an exact half goes to the
  even neighbour.
- Loading a candidate Event again flushes the changes before it if the session no
  longer holds the Event; which decisions that happens for is arbitrary.
- `casefold` is a parameter of the Event modules; only `fold("") == ""` and
  `fold("x") == "x"` are ever used, and only for the two counterexamples.
- Characters are Unicode scalar values; the two code units of a surrogate pair
  are two symbols for the decoder.

## Results that qualify an expectation

- Linking Events never raises a conflict in the second pass *when* no known date
  part is zero and no known location is empty, because anchors are merged with
  `or`; and the contracts accept dates such as 2024-13, which the CHECK constraints
  refuse when they are flushed. Under the first condition an answer is written if
  and only if each date it writes exists (`EventWrites.NormalizedLinksNeverConflict`).
  `EventSafety.SafeRowsAreTruthy` and `EventSafety.SafeItemsAreTruthy` show that the
  conditions are exact, on the stored Events and on the items. A zero month can even
  slip through: whether it is refused depends on when the session flushes
  (`EventSafety.ZeroMonthMaySlipThrough`).
- A job that is ensured again, rather than asked for at a new revision, may be closed
  by a worker that claimed it before (`JobRuns.EnsuredWorkMayBeClosedByAnOldClaim`);
  `JobRuns.ClosesAfreshIffNoCurrentHolder` says exactly when it cannot be.
- The round-robin scan starts again in every cycle. A type that always has a job is
  served in each cycle only if the batch is larger than its position in the schedule
  (`Schedule.ServedIffBatchExceedsPosition`).
- The refresh handler does not read the refresh rule again, so a job re-executed, or
  ensured on a stale reading, runs once more: `RefreshRule.ThresholdRunsAreBounded`
  counts these runs, and `RefreshRule.BoundIsMet` shows that every count occurs.
- A batched audit can be refused after a reconciliation that covers every group:
  `CoherenceBatches.BatchedAuditCoversCards` gives the exact condition (a
  detached group shares an Article with another group),
  `CoherenceBatches.RefusableIffStoriesShare` the one that is known before the
  reconciliation is asked (a batch put an Article into two stories), and
  `CoherenceBatches.RefusalIsReachable` answers that meet both.
- The JSON repair keeps every text that a lenient decoder can read. A control
  character right after a backslash is outside of that: a text that needs the
  repair for another control character is then read as something the
  original did not say (`JsonEscape.ParsingIsLenient` says exactly when, and
  `JsonEscape.EscapedLineFeedIsMisread` is such a text).
- A sample of more cards than its limit has exactly `limit` cards if and only if
  the limit is at least 2; a limit of 1 gives the first and the latest card.

## Model

| member | source | states |
|---|---|---|
| `CaseRuns.PublicStateIsExact` | apps/worker-ml/src/worker_ml/cases/publication.py:59-173 | In every state of every interleaved run, a CaseEntity or CaseEvent row exists exactly when some Article linked to the Case mentions the item and is scoped to the Case; its count is the number of those Articles and its first Article the earliest published, unpublished ones last |
| `CaseRuns.CaseCountsAreExact` | apps/worker-ml/src/worker_ml/cases/publication.py:167-198 | In every reachable state article_count and event_count equal the numbers of links and of CaseEvent rows |
| `CaseRuns.EqualRevisionsMeanEqualEvidence` | apps/worker-ml/src/worker_ml/cases/audits.py:78-85 | evidence_revision never decreases, and equal revisions at two moments mean the same linked Articles |
| `CaseRuns.PublishedAuditsSawCurrentEvidence` | apps/worker-ml/src/worker_ml/cases/audits.py:99-131 | A split, hide or merge is applied only to the Articles its audit read, although revision and cards are read in separate statements without locks |
| `CaseRuns.NoStoryArticleDisappears` | apps/worker-ml/src/worker_ml/cases/audits.py:415-416 | The "article disappeared" error cannot be raised in any run |
| `CaseRuns.CandidatesStayActive` | apps/worker-ml/src/worker_ml/cases/resolution.py:232-246 | A candidate Case that was active when case resolution took its lock is still active when its links are committed |
| `CaseRuns.OnlyDetachingUnlinks` | apps/worker-ml/src/worker_ml/cases/audits.py:396-429 | The only step that leaves an Article without a Case is a decisive audit that detaches it from its last one |
| `CaseRuns.InactiveCasesAreFrozen` | apps/worker-ml/src/worker_ml/cases/reviews.py:107-116 | A hidden or merged Case keeps status, merge target, revision and Articles for ever |
| `CaseRuns.HidingIsForEver` | apps/worker-ml/src/worker_ml/cases/reviews.py:105-128 | A Case that an audit hides is hidden in every later state, with the revision and the Articles that the audit saw |
| `CaseRuns.MergingIsForEver` | apps/worker-ml/src/worker_ml/cases/reviews.py:409-411 | A Case that an audit merges away points to its survivor in every later state, and keeps the Articles that the audit saw |
| `CaseRuns.MergeChainsEnd` | apps/worker-ml/src/worker_ml/cases/reviews.py:409-411 | In every reachable state, following merged_into_case_id from any Case reaches a Case that is not merged |
| `CaseProtocol.StepKeepsInv` | apps/worker-ml/src/worker_ml/cases/audits.py:99-131 | Every step of every job keeps provenance, exact views, exact counts, acyclic merges, the open snapshots and what audits have read |
| `CaseProtocol.GuardMeansCurrent` | apps/worker-ml/src/worker_ml/cases/audits.py:106-120 | When the publishing guard passes, the cards that the audit read are the linked Articles of that moment |
| `CaseProtocol.SnapshotGroundsDecisions` | apps/worker-ml/src/worker_ml/identities/decisions.py:23-37 | Assignments checked against the Cases read under the identity lock are still within the linked Cases at commit |
| `Evidence.PartialRebuildIsExact` | apps/worker-ml/src/worker_ml/cases/publication.py:59-105 | Rebuilding only the keys whose support changed leaves the whole view equal to a full recomputation |
| `Transactions.SplitConservesEvidence` | apps/worker-ml/src/worker_ml/cases/audits.py:396-435 | After a decisive audit each story's Case holds exactly its story's Articles, together they hold the old Articles minus the detached ones, and no other Case's links move |
| `Transactions.SplitKeepsInv` | apps/worker-ml/src/worker_ml/cases/audits.py:365-454 | A split keeps every row invariant, raises the revision when the Articles of the Case change, and freezes inactive Cases |
| `Transactions.MergeUnitesArticles` | apps/worker-ml/src/worker_ml/cases/reviews.py:345-365 | The survivor ends with exactly the union of both Article sets; no other Case's links move |
| `Transactions.MergeKeepsInv` | apps/worker-ml/src/worker_ml/cases/reviews.py:342-411 | A merge keeps every row invariant, removes no link, and keeps the merge graph acyclic |
| `Transactions.ResolvedKeepsInv` | apps/worker-ml/src/worker_ml/cases/resolution.py:391-460 | Linking an Article and creating Cases keeps every row invariant, raises the revision of every Case that gains a link, and removes no link |
| `Transactions.EntitiesResolvedKeepsInv` | apps/worker-ml/src/worker_ml/identities/resolution.py:292-347 | Replacing an Article's Entity links keeps provenance and leaves the whole CaseEntity table exact although only old and new pairs are rebuilt |
| `Transactions.EventsResolvedKeepsInv` | apps/worker-ml/src/worker_ml/identities/resolution.py:383-429 | The same for Events, with the Event counts of every Case |
| `Transactions.HiddenCaseKeepsInv` | apps/worker-ml/src/worker_ml/cases/reviews.py:114-116 | Hiding a Case keeps every row invariant |
| `CommittedRows.ResolutionLinks` | apps/worker-ml/src/worker_ml/cases/resolution.py:391-460 | Case resolution links the Article to exactly the kept and the new Cases on top of its old ones, and links and scopes nothing else |
| `CommittedRows.ResolutionRows` | apps/worker-ml/src/worker_ml/cases/resolution.py:415-459 | Every new id is an active Case of revision 1 that holds the one Article; a kept Case counts the Article and takes one revision if it lacked it; no other row moves |
| `CommittedRows.ResolutionScopes` | apps/worker-ml/src/worker_ml/identities/resolution.py:292-347 | An Article mentions exactly the accepted items and is scoped exactly as accepted decisions assign it; the rows of other Articles stay |
| `CommittedRows.ResolutionPublishes` | apps/worker-ml/src/worker_ml/identities/resolution.py:335-347 | A pair is public afterwards if and only if an accepted decision assigns it or another Article is scoped to it |
| `CommittedRows.ResolutionKeepsRest` | apps/worker-ml/src/worker_ml/identities/resolution.py:383-429 | Resolving Entities moves no other table, and resolving Events besides only the Event counts of Cases |
| `CommittedRows.MergeLinked` | apps/worker-ml/src/worker_ml/cases/reviews.py:345-365 | The survivor gains exactly the links of the absorbed Case |
| `CommittedRows.MergeScopes` | apps/worker-ml/src/worker_ml/cases/reviews.py:366-403 | The survivor gains exactly one scope for every mention of an Article of the absorbed Case, for Entities and Events alike |
| `CommittedRows.MergePublishes` | apps/worker-ml/src/worker_ml/cases/reviews.py:404-405 | The survivor shows what it showed and what Articles of the absorbed Case mention; every other Case shows what it showed |
| `CommittedRows.MergeRows` | apps/worker-ml/src/worker_ml/cases/reviews.py:406-411 | The survivor takes the next revision and its counts, the absorbed Case is merged into it, and no other row moves |
| `CommittedRows.SplitLinked` | apps/worker-ml/src/worker_ml/cases/audits.py:389-419 | The original Case, and a new Case for each other story, is linked to exactly its story's Articles; no other link moves |
| `CommittedRows.SplitScopes` | apps/worker-ml/src/worker_ml/cases/audits.py:397-425 | The Case of a story is scoped for exactly what its Articles mention; no other Case gains or loses a scope |
| `CommittedRows.SplitPublishes` | apps/worker-ml/src/worker_ml/cases/audits.py:399-427 | The Case of a story shows exactly what its Articles mention |
| `CommittedRows.SplitRows` | apps/worker-ml/src/worker_ml/cases/audits.py:375-432 | The audited Case takes the next revision if and only if there is a second story or a detached Article; every other story has a new active Case of revision 1; counts are those of the rows; no other row moves |
| `CaseStore.IdentityTables.Rebuild` | apps/worker-ml/src/worker_ml/cases/publication.py:59-105 | The row loop leaves every named row as a recomputation gives it, and every other row as it was |
| `CaseStore.IdentityTables.Persist` | apps/worker-ml/src/worker_ml/identities/resolution.py:292-347 | Deleting, grouping and inserting replaces exactly the Article's mentions and scopes, and returns old and new pairs |
| `CaseStore.MergedAssignments` | apps/worker-ml/src/worker_ml/identities/decisions.py:196-205 | The merged assignments are the Cases that some decision of the group names |
| `CaseStore.CaseTables.RebuildEvents` | apps/worker-ml/src/worker_ml/cases/publication.py:108-173 | The rows are rebuilt and the Event count of every Case named by a key is the number of its rows |
| `CaseStore.CaseTables.PersistResolution` | apps/worker-ml/src/worker_ml/cases/resolution.py:391-460 | Commits exactly the resolution, counting and bumping a Case once however often it is named, or raises on a non-candidate and changes nothing |
| `CaseStore.CaseTables.ApplyDecisiveAudit` | apps/worker-ml/src/worker_ml/cases/audits.py:365-454 | Commits exactly the split of `Transactions`, or raises and rolls back precisely when a story names an Article outside the old set |
| `CaseStore.StoriesCountAsAudited` | apps/worker-ml/src/worker_ml/cases/audits.py:375-434 | After a split every story's Case counts as audited at the revision its row has, and other Cases as before |
| `CaseStore.CaseTables.MergeCases` | apps/worker-ml/src/worker_ml/cases/reviews.py:342-411 | Commits exactly the merge of `Transactions` |
| `CaseStore.CaseTables.PublishCoherence` | apps/worker-ml/src/worker_ml/cases/audits.py:99-137 | Publishes if and only if all three locks are free, the Case is active at the read revision, and the answer is decisive and its stories name only linked Articles (detached ids are not looked at); every other outcome changes no evidence. Says what each outcome records, also as superseded, and which revisions count as audited |
| `CaseStore.CaseTables.PublishInterest` | apps/worker-ml/src/worker_ml/cases/reviews.py:105-128 | Hides if and only if the lock is free and the Case is active, unchanged, and judged unfit; records the outcome and the audited revision, also when superseded |
| `CaseStore.CaseTables.PublishPair` | apps/worker-ml/src/worker_ml/cases/reviews.py:229-277 | Merges if and only if all three locks are free, both Cases are active at both read revisions, and the answer says so; records the outcome, also when superseded |
| `CaseStore.PairRecord` | apps/worker-ml/src/worker_ml/cases/reviews.py:264-276 | The record names the smaller id first and holds both ids, each with its own revision |
| `CaseStore.PairRecordIsSymmetric` | apps/worker-ml/src/worker_ml/cases/reviews.py:264-276 | Both orders of a pair leave the same record |
| `CaseStore.Survivor` | apps/worker-ml/src/worker_ml/cases/reviews.py:335-339 | The survivor has no fewer Articles than the absorbed Case, and of two equally large Cases the older one survives |
| `CaseStore.MergeOrderIsSymmetric` | apps/worker-ml/src/worker_ml/cases/reviews.py:335-339 | Audits of one pair in either order agree on the survivor |
| `CaseRefinement.PublishCoherence` | apps/worker-ml/src/worker_ml/cases/audits.py:99-137 | From tables that hold a protocol state, publishing an answer that passed the coverage test is the protocol's split exactly when its guard holds and the answer is decisive, and otherwise only ends the audit; it never raises for a missing Article, and the tables hold the next state and its invariant |
| `CaseRefinement.PublishInterest` | apps/worker-ml/src/worker_ml/cases/reviews.py:105-128 | The same for hiding a Case |
| `CaseRefinement.PublishPair` | apps/worker-ml/src/worker_ml/cases/reviews.py:229-277 | The same for merging a pair in the order of its sort key |
| `CaseRefinement.CommitResolution` | apps/worker-ml/src/worker_ml/cases/resolution.py:391-460 | Case resolution on the tables is the protocol's commit, or releases the lock if it names a Case that is no candidate |
| `CaseRefinement.CommitEntityLinks` | apps/worker-ml/src/worker_ml/identities/resolution.py:292-347 | Entity resolution on the tables is the protocol's commit, on the Cases it read when it took its lock |
| `CaseRefinement.CommitEventLinks` | apps/worker-ml/src/worker_ml/identities/resolution.py:383-429 | The same for Events |
| `AuditOutput.ValidateCoverage` | apps/worker-ml/src/worker_ml/cases/audits.py:304-317 | Accepts an answer if and only if it is inconclusive or accounts for each Article exactly once as assigned or detached |
| `AuditOutput.CoveringAccountsForEach` | apps/worker-ml/src/worker_ml/cases/audits.py:304-317 | The set test says of each single Article that it is claimed by a story or detached, never both, and nothing else is |
| `AuditOutput.CoverageErrorsTell` | apps/worker-ml/src/worker_ml/cases/audits.py:304-317 | The error says which of the three things is wrong, in the order of the tests |
| `CoherenceBatches.Settled` | apps/worker-ml/src/worker_ml/cases/audits.py:222-249 | After the coverage retry an answer is valid, and covers its cards or is inconclusive |
| `CoherenceBatches.BestAnswerWins` | apps/worker-ml/src/worker_ml/cases/audits.py:222-249 | A first answer that accounts for each card is kept, else a retry that does is used, else the answer is inconclusive |
| `ReconciledAudits.BatchesCutInOrder` | apps/worker-ml/src/worker_ml/cases/audits.py:160-163 | The batches joined are the cards in order; all but the last are full and none is empty |
| `ReconciledAudits.RefsAreNumbered` | apps/worker-ml/src/worker_ml/cases/audits.py:185-201 | References read as group_1_2 and group_2_detached_11 |
| `CoherenceBatches.RefsInjective` | apps/worker-ml/src/worker_ml/cases/audits.py:185-201 | The group references, as text, never collide |
| `CoherenceBatches.GroupBatches` | apps/worker-ml/src/worker_ml/cases/audits.py:175-209 | The loops fill the group table with exactly the stories and detached Articles of the batches |
| `CoherenceBatches.ExpandKeepsCoverage` | apps/worker-ml/src/worker_ml/cases/audits.py:340-362 | A reconciliation that covers the groups expands to an answer that mentions every grouped Article and no other |
| `CoherenceBatches.ExpandValidIff` | apps/worker-ml/src/worker_ml/llm/contracts/cases.py:415-451 | The expanded answer passes the shape contract if and only if no detached group overlaps another group |
| `ReconciledAudits.ExpandKeepsStories` | apps/worker-ml/src/worker_ml/cases/audits.py:340-362 | Each expanded story keeps its reference and claims an Article if and only if a group that it named holds it; likewise for detached ones |
| `CoherenceBatches.BatchedAuditCoversCards` | apps/worker-ml/src/worker_ml/cases/audits.py:153-220 | Whatever is answered, the batched audit is inconclusive, or covers exactly the cards, or is refused; and it is refused if and only if a detached group shares an Article with another |
| `CoherenceBatches.DisjointStoriesAreNeverRefused` | apps/worker-ml/src/worker_ml/cases/audits.py:153-220 | If no batch puts an Article into two stories, the audit is never refused |
| `CoherenceBatches.RefusableIffStoriesShare` | apps/worker-ml/src/worker_ml/cases/audits.py:172-220 | Of the batch answers alone: some valid reconciliation is refused if and only if there were several, all decisive, and one put an Article into two stories |
| `CoherenceBatches.RefusalIsReachable` | apps/worker-ml/src/worker_ml/cases/audits.py:340-362 | Any three cards in batches of two, with answers that meet the answer contract, story references included, for which the covered reconciliation is refused |
| `CoherenceBatches.SettleBatches` | apps/worker-ml/src/worker_ml/cases/audits.py:172-184 | Batches are asked in order until one is inconclusive; answers are needed for those only |
| `CoherenceBatches.RunAudit` | apps/worker-ml/src/worker_ml/cases/audits.py:153-220 | The batching, asking, grouping and expanding loops compute the audit the theorems are about, for any list of cards |
| `ReconciledAudits.AuditFollowsReconciliation` | apps/worker-ml/src/worker_ml/cases/audits.py:153-220 | In a decisive audit of several batches an Article is in a story if and only if the same story of the reconciliation names a batch story, or a detached Article, that holds it |
| `ReconciledAudits.InconclusiveOnlyIfAnsweredSo` | apps/worker-ml/src/worker_ml/cases/audits.py:153-220 | A single batch is answered as it settled; several are inconclusive if and only if a batch or the reconciliation settled so |
| `ReconciledAudits.EmptyAuditIsInconclusive` | apps/worker-ml/src/worker_ml/cases/audits.py:153-220 | Without any card the reconciliation can only be inconclusive |
| `JobRuns.RowsStaySound` | packages/database/src/shkandal_database/jobs.py:403-563 | In every run 0 <= attempt_count <= max_attempts, a running job has an attempt to give back, and a succeeded job has completed what was requested |
| `JobRuns.ClosingFollowsLatestRequest` | packages/database/src/shkandal_database/jobs.py:449-537 | When finishing closes a Case job, as succeeded or as failed, the finishing worker claimed it after every revision request so far, even if leases expired |
| `JobRuns.FailedOnlyAtTheLimit` | packages/database/src/shkandal_database/jobs.py:498-537 | A job is closed as failed only by a worker whose claim used the last attempt there was then, and with no newer revision asked for |
| `JobRuns.FailureReopensOrCloses` | packages/database/src/shkandal_database/jobs.py:498-537 | Unless a newer revision is found, a failure closes the job if and only if the holder had its last attempt, and otherwise leaves it claimable exactly from the retry time on while attempts remain |
| `JobRuns.ClosesAfreshIffNoCurrentHolder` | packages/database/src/shkandal_database/jobs.py:312-355 | At any moment, and so right after a job was ensured again: whoever closes it from then on will have claimed it afresh, if and only if no claim of the current revision is still in some worker's hands |
| `JobRuns.EnsuredWorkMayBeClosedByAnOldClaim` | packages/database/src/shkandal_database/jobs.py:312-331 | A run in which a job ensured again is closed as succeeded by a worker that claimed it before |
| `JobRuns.RevisionRequestsNeedAFreshClaim` | packages/database/src/shkandal_database/jobs.py:288-311 | After a request for a revision only a fresh claim can close the job |
| `JobRuns.ResetsReopen` | packages/database/src/shkandal_database/jobs.py:288-352 | A request, a revival, or a newer revision found at the end leaves the job claimable again with all its attempts |
| `JobRuns.RequestsRaiseRevision` | packages/database/src/shkandal_database/jobs.py:288-311 | requested_revision never decreases, and stays the same only if nobody asked for a revision |
| `JobRuns.ClaimsAreBounded` | packages/database/src/shkandal_database/jobs.py:394-447 | With fixed max_attempts a job is claimed at most max_attempts * (1 + resets) + effective defers times |
| `JobRows.CompletedKeepsRow` | packages/database/src/shkandal_database/jobs.py:449-496 | Completing keeps the row invariant for any holder whose revision was once requested |
| `JobRows.FailedKeepsRow` | packages/database/src/shkandal_database/jobs.py:498-537 | Failing keeps the row invariant for any holder, however stale its counts |
| `JobRows.EnqueuedKeepsRow` | packages/database/src/shkandal_database/jobs.py:242-355 | Enqueueing keeps the row invariant, through each of the three entry points |
| `JobRows.EnqueuedReopens` | packages/database/src/shkandal_database/jobs.py:242-355 | Which request reopens which row; a reopened job has all its attempts and is claimable exactly from the time asked for; any other request changes nothing but a revision asked for of a running job |
| `JobRows.ClaimedIsLeased` | packages/database/src/shkandal_database/jobs.py:394-447 | A claim uses one attempt and leases the job: it is claimable again exactly when the lease is older than the limit and attempts remain |
| `JobRows.CompletedReopensForNewer` | packages/database/src/shkandal_database/jobs.py:449-496 | Completion closes the job for good, or, if a newer revision was asked for, leaves it claimable from now on with all its attempts |
| `JobRows.FailureClosesOnlyAtTheLimit` | packages/database/src/shkandal_database/jobs.py:498-537 | Failure closes the job if and only if the attempt is the last and no newer revision was asked for; what it leaves of attempts and time in each case |
| `JobStore.DrainTestIsQuiescence` | apps/worker-ml/src/worker_ml/runtime/execution.py:67-77 | The drain test holds if and only if no job of these types is claimable at any time and every lease has expired |
| `JobStore.DrainedStaysDrained` | apps/worker-ml/src/worker_ml/runtime/execution.py:67-77 | After a drain nothing of these types is claimed, whatever the clock says, until one is enqueued or finished by a holder |
| `JobStore.OpenJobsAreCounted` | packages/database/src/shkandal_database/jobs.py:356-393 | The summary counts every open job of its types once, save blocked running jobs, which it counts twice |
| `JobStore.ArticleJobStore.Enqueue` | packages/database/src/shkandal_database/jobs.py:242-355 | The branches on the existing row do what the row function says, and report existing if and only if nothing changed |
| `JobStore.ArticleJobStore.EnqueueArticles` | packages/database/src/shkandal_database/jobs.py:116-188 | The bulk insert and the bulk revival treat every Article as a single enqueue would, with the counts they report |
| `JobStore.ArticleJobStore.ClaimNext` | packages/database/src/shkandal_database/jobs.py:394-447 | Claims an eligible job that no other transaction holds, the first of them in the claim order, or reports that there is none |
| `JobStore.FirstInOrder` | packages/database/src/shkandal_database/jobs.py:604-619 | The chosen job comes first in the six-part order, with the nulls where the query puts them |
| `JobStore.ClaimedFirstMeans` | packages/database/src/shkandal_database/jobs.py:604-619 | A claimed job has the highest priority, then no or the earliest time to wait for, then the Article published first with unpublished ones last, then the one stored first, then the oldest row |
| `JobStore.ArticleJobStore.CompleteJob` | packages/database/src/shkandal_database/jobs.py:449-496 | Both statements do to the row what the row function says |
| `JobStore.ArticleJobStore.FailJob` | packages/database/src/shkandal_database/jobs.py:498-537 | The assembled update closes the row at the last attempt handed out and at no other, keeps its attempts, and makes any other failure claimable exactly from the retry time on; no other row moves |
| `JobRows.DeferUndoesClaim` | packages/database/src/shkandal_database/jobs.py:539-563 | Claiming a queued job and deferring it leaves it as it was but for the time from which it is claimable, and it is claimable from then on |
| `JobRows.DeferredKeepsRow` | packages/database/src/shkandal_database/jobs.py:539-563 | A deferral gives back exactly one attempt of a running row, never below zero; to a holder that is too late it is nothing; a sound row stays sound |
| `JobStore.ArticleJobStore.DeferJob` | packages/database/src/shkandal_database/jobs.py:539-563 | A running job gets one attempt more and is claimable from the given time on and not before; a late call changes nothing; no other job is touched; a sound row stays sound |
| `Schedule.ServedScheduleIsDistinct` | apps/worker-ml/src/worker_ml/runtime/planning.py:45-56 | The schedule of a cycle names each type it serves once, in the order of the whole schedule, and no other |
| `Schedule.CycleExecutor.ClaimNext` | apps/worker-ml/src/worker_ml/runtime/execution.py:246-265 | A scan claims the first type in round-robin order that has a job and leaves the index behind it; an exhausted scan found no job of any type |
| `Schedule.CycleExecutor.Probe` | apps/worker-ml/src/worker_ml/runtime/execution.py:251-265 | The scan's loop probes each type once, so that a type it has attempted never comes up again |
| `Schedule.CycleExecutor.ServeCycle` | apps/worker-ml/src/worker_ml/runtime/execution.py:234-265 | The claims of one cycle are consecutive scans of one round, and serve every type within the batch's reach that has a job at each scan |
| `Schedule.ClaimExtendsCycle` | apps/worker-ml/src/worker_ml/runtime/execution.py:246-265 | What one scan guarantees is what continues the sequence of claims that the bounds are about |
| `Schedule.WaitIsBounded` | apps/worker-ml/src/worker_ml/runtime/execution.py:246-265 | Within one cycle: while a type has an eligible job at each scan, fewer jobs of other types than the schedule has types are claimed before one of it |
| `Schedule.WaitCanBeFull` | apps/worker-ml/src/worker_ml/runtime/execution.py:246-265 | That bound is met |
| `Schedule.ServedIffBatchExceedsPosition` | apps/worker-ml/src/worker_ml/runtime/execution.py:207-214 | A type with a job at each scan is certain to be served in every cycle that is not stopped if and only if the batch is larger than its position |
| `Executor.ClaimsNeverExceedTheBatch` | apps/worker-ml/src/worker_ml/runtime/execution.py:246-265 | In every interleaving at most claim_batch_size jobs are claimed |
| `Executor.NamespacesAreExclusive` | apps/worker-ml/src/worker_ml/runtime/execution.py:217-244 | Of case resolution, refresh and coherence audit only one job runs at once, and so for Entity and for Event resolution |
| `Executor.EveryClaimEnds` | apps/worker-ml/src/worker_ml/runtime/execution.py:267-348 | When a cycle is over every claimed job was completed, failed or deferred, and the two counters say how many were completed and failed |
| `Executor.OutcomesAreFinal` | apps/worker-ml/src/worker_ml/runtime/execution.py:267-348 | No claimed job gets a second outcome, and none with an outcome is still in a worker's hands |
| `Executor.OneCooldownIsShared` | apps/worker-ml/src/worker_ml/runtime/execution.py:350-370 | One cooldown is recorded and all rate-limited jobs wait for the same moment |
| `Executor.StoppingAdmitsOneClaim` | apps/worker-ml/src/worker_ml/runtime/execution.py:234-265 | After the stop flag is set at most one more job is claimed |
| `Executor.RateLimitsStopClaiming` | apps/worker-ml/src/worker_ml/runtime/execution.py:267-370 | A rate limit, or a deferral for an unavailable dependency, leaves at most the claim of a scan under way |
| `Executor.SomeWorkerCanMove` | apps/worker-ml/src/worker_ml/runtime/execution.py:234-265 | The three kinds of locks never leave all unfinished workers waiting |
| `Executor.CyclesEnd` | apps/worker-ml/src/worker_ml/runtime/execution.py:227-265 | Every run of a cycle is finite, with an explicit bound on its steps |
| `EventDates.Event.EnrichDate` | apps/worker-ml/src/worker_ml/identities/decisions.py:226-247 | The in-place update raises, or leaves the enriched row |
| `EventDates.EnrichedIsJoin` | packages/database/src/shkandal_database/models.py:620-635 | Enrichment keeps both CHECK constraints and yields the least date that says what both say, or raises because no date does |
| `EventDates.EnrichedByAllIsJoin` | apps/worker-ml/src/worker_ml/identities/decisions.py:226-247 | Any sequence of enrichments yields the join of all the dates, or raises exactly when they have no common upper bound |
| `EventDates.EnrichmentOrderDoesNotMatter` | apps/worker-ml/src/worker_ml/identities/decisions.py:226-247 | The order and repetition of enrichments change neither the Event nor whether a call raises |
| `EventAnchors.NormalizeInvalidEventLinks` | apps/worker-ml/src/worker_ml/identities/decisions.py:73-103 | Exactly the links outside the retrieved candidates become rejections; every other decision is untouched, so that all links left are to candidates |
| `EventAnchors.NormalizeEventLinkAnchors` | apps/worker-ml/src/worker_ml/identities/decisions.py:106-152 | The loop computes the normalised answer the theorems are about |
| `EventWrites.NormalizedShape` | apps/worker-ml/src/worker_ml/identities/decisions.py:155-193 | The pass keeps references and order, touches links only, and keeps a date if and only if it is the item's own, repeated with evidence |
| `EventWrites.NormalizedLinksNeverConflict` | apps/worker-ml/src/worker_ml/identities/resolution.py:402-464 | After the pass no date or location conflicts, with any number of links to one Event and whenever the session flushes: the answer is written, changing no known anchor, if and only if each date it writes exists |
| `EventWrites.RefusedOnlyForAContradiction` | apps/worker-ml/src/worker_ml/identities/decisions.py:133-139 | A link becomes a creation if and only if its item contradicts the stored Event or an earlier link to it that was kept |
| `EventWrites.WrittenRowsPassChecks` | packages/database/src/shkandal_database/models.py:620-635 | Over any answer whose linked dates have no zero part: one that is written writes existing dates only and passes the CHECK constraints, and one whose dates exist is never refused for them |
| `EventWrites.StagedChecks` | packages/database/src/shkandal_database/models.py:631-635 | One decision leaves rows that pass if and only if they passed before and its date exists |
| `EventContents.WrittenRowsSayAll` | apps/worker-ml/src/worker_ml/identities/resolution.py:402-464 | A written answer whose links have no zero part leaves in each Event the join of its date with the dates of the links to it, and its own location or the first given; and one Event for each creation, in order, as it says |
| `EventContents.NormalizedAnswersAreWritten` | apps/worker-ml/src/worker_ml/identities/resolution.py:402-464 | What the normalising pass leaves is written so, if its dates exist |
| `EventContents.DatePartsAreTheNumbers` | apps/worker-ml/src/worker_ml/identities/decisions.py:217-223 | Year, month and day are the numbers of the text, in this order |
| `EventSafety.ZeroMonthMaySlipThrough` | apps/worker-ml/src/worker_ml/identities/decisions.py:240-247 | Links dated 2024-00, 2024 and 2024-05, all left as they are by the normalising pass, are written if an Event is created after them, and refused if it is created between the first two |
| `EventSafety.SafeRowsAreTruthy` | apps/worker-ml/src/worker_ml/identities/decisions.py:250-262 | Stored Events are safe for every answer over truthy items that writes existing dates, if and only if none has the year zero or an empty location |
| `EventSafety.SafeItemsAreTruthy` | apps/worker-ml/src/worker_ml/identities/decisions.py:250-262 | An item is safe in the company of truthy anchors and existing dates if and only if its own month and day exist, its year is not zero and its location is not empty |
| `EventSafety.MonthThirteenIsRefused` | apps/worker-ml/src/worker_ml/llm/contracts/identities.py:349-364 | An item dated 2024-13 is not safe to link, and creating an Event so dated is always refused by the database |
| `EventAnchors.EventTable.ResolveEvent` | apps/worker-ml/src/worker_ml/identities/resolution.py:432-464 | One decision changes the table as specified, or reports the source's error; creating an Event flushes it, and loading a candidate again flushes what came before |
| `EventAnchors.LinkErrors` | apps/worker-ml/src/worker_ml/identities/resolution.py:449-464 | Which error a link raises: for the candidate, for the missing Event, for the date, for the location, in this order |
| `EventAnchors.FlushesRefuse` | apps/worker-ml/src/worker_ml/identities/resolution.py:432-448 | A reload refuses what was changed before it, and a creation refuses that and its own row, if and only if a CHECK constraint fails |
| `EventAnchors.EventTable.PersistEvents` | apps/worker-ml/src/worker_ml/identities/resolution.py:402-416 | All decisions are written in order and flushed, or the first error, or a row that fails the CHECK constraints, rolls everything back |
| `JsonEscape.EscapeControlCharactersInsideJsonStrings` | apps/worker-ml/src/worker_ml/llm/runner.py:599-619 | The flag loop computes the escaped text the theorems are about |
| `JsonEscape.OutputScansLikeInput` | apps/worker-ml/src/worker_ml/llm/runner.py:599-619 | At every prefix the output leaves a string scanner in the state the input does |
| `JsonEscape.EscapeIsIdempotent` | apps/worker-ml/src/worker_ml/llm/runner.py:599-619 | No raw control character remains inside a string, a text is unchanged if and only if it had none, and repairing twice is repairing once |
| `JsonEscape.EscapeDecodes` | apps/worker-ml/src/worker_ml/llm/runner.py:622-629 | Each escape decodes to its character |
| `JsonEscape.RepairKeepsReadableText` | apps/worker-ml/src/worker_ml/llm/runner.py:599-619 | Whatever a lenient decoder reads, a strict decoder reads alike after the repair |
| `JsonEscape.RepairIsExactWithoutEscapedControls` | apps/worker-ml/src/worker_ml/llm/runner.py:610-618 | A repaired text that can be read says what the original says if and only if no backslash escapes a control character |
| `JsonEscape.EscapedLineFeedIsMisread` | apps/worker-ml/src/worker_ml/llm/runner.py:528-543 | A concrete string that parsing repairs and then reads, although a lenient decoder refuses it |
| `JsonEscape.ParsingIsLenient` | apps/worker-ml/src/worker_ml/llm/runner.py:528-543 | With the repair as fallback, every text a lenient decoder reads is parsed as it reads it, and a text that is parsed says the same to both if and only if no control character is escaped |
| `Sampling.LifecycleSample` | apps/worker-ml/src/worker_ml/llm/budgeting.py:75-85 | The set-building loop returns all cards, exactly `limit` cards at the rounded positions, two cards for a limit of 1, or the error |
| `Sampling.SampleSpansTheLifecycle` | apps/worker-ml/src/worker_ml/llm/budgeting.py:82-85 | The sample starts with the first card and ends with the latest, rises strictly, takes each card nearest to its even share, and has `limit` cards if and only if the limit is at least 2 |
| `Sampling.RoundsApart` | apps/worker-ml/src/worker_ml/llm/budgeting.py:83-84 | Half-to-even rounding never makes positions more than one apart collide |
| `Sampling.HalvesRoundToEven` | apps/worker-ml/src/worker_ml/llm/budgeting.py:83-84 | An exact half goes to the even neighbour |
| `RefreshRule.DueMeansSquareBetween` | apps/worker-ml/src/worker_ml/runtime/planning.py:430-441 | The bucket rule fires if and only if a perfect square lies above the last refreshed count and not above the count; a Case is due if and only if it is active and lacks a summary or that rule fires |
| `RefreshRule.ThresholdRunsAreBounded` | apps/worker-ml/src/worker_ml/runtime/planning.py:229-262 | With the query, the enqueue, the claim and the run as separate steps, late and repeated as they may be: on a Case that only grows to n Articles the handler runs for a threshold at most isqrt(n) times plus once for each re-execution |
| `RefreshRule.StepKeepsInv` | apps/worker-ml/src/worker_ml/cases/refresh.py:53-101 | Every step keeps the account of runs, claims at work, buckets passed and re-executions |
| `RefreshRule.DeadClaimsAreNotCountedAgain` | packages/database/src/shkandal_database/jobs.py:394-447 | A claim whose worker died counts against its own threshold only: after the next refresh the first claim for the next threshold is no re-execution |
| `RefreshRule.BoundIsMet` | apps/worker-ml/src/worker_ml/cases/refresh.py:53-101 | The bound is tight: for every number of Articles above zero and every number of re-executions r some run has exactly isqrt(n) + r refreshes for a threshold, and without re-executions exactly isqrt(n) |

## Left out

- CaseStore.MergedAssignments: does not say which of several reasons is kept for a Case, because no table of the model holds reasons.
- CaseStore.CaseTables.RebuildEvents: does not set the date columns copied into CaseEvent, nor skip a missing Event row, because only affected pairs refresh the copies and the modelled jobs never delete an Event.
- JsonEscape.ParsingIsLenient: does not strip Markdown fences and does not parse the structure outside strings, which the repair leaves as it is.
- Model calls, prompts, embeddings, the vector index, HTTP and HTML handling, text search, the frontend and migrations: effects outside the shared rows.
- Titles, summaries, reasons, confidences, provenance run ids and the payloads of audit records: carried along; no modelled branch depends on them.
- The text conditions of the answer contracts (diagnosis fields, placeholder titles): only the conditions on ids, dates, locations and outcomes are modelled.
- `llm/normalization.py` and the retrieval that proposes candidates: decisions after them are arbitrary validated input.
- Entity canonical names and aliases: the Entity or Event a decision resolves to is an input of `Transactions`; what `_resolve_event` does to Event rows is modelled in `EventAnchors`.
- first_seen_at and last_updated_at: linking an Article does not maintain the first.
- The order of inserts into different tables inside one transaction: a transaction attaches a story's or an absorbed Case's Articles table by table, which no other transaction can see.
- Retry delays and jitter, worker names and payloads of jobs: `retryAt` is an arbitrary time.
- Calls of the job store and of the cooldown store that themselves fail inside the executor: they are taken to succeed.
- The order in which waiting workers get a lock: every order is a run.
- The grammar of JSON outside strings: characters there are handed on as they are.
- Cooldown storage, ingestion, coverage reports, pagination, `first_latest_sample`, and the scripts that recover failed jobs or reprocess Article Cards: single statements or folds that would add only easy members, or steps that break an assumption above.
