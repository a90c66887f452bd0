# Verification of the durability spine, the reviews pipeline and two tooling algorithms

A Dafny 4.11 model of five parts of the repository, with the properties its design relies on:

* **The jobs durability spine** (`packages/jobs`). `Spine.dfy` gives each transaction's effect on one unit, the rows of
  one (instance, stage), and `SpineEffects.dfy` what that effect is, field by field. `Stage.dfy`, `Branch.dfy`, `DeadLetter.dfy` and `Reconciler.dfy` are the helpers themselves, as
  methods on the tables of `Database.dfy`, each proved against those functions. `SpineRuns.dfy` lets any number of
  worker attempts (claimed, reading, calling, written, checking, committed), join continuations, delegated completions,
  registrations and reconciler sweeps interleave, crash and be redelivered; `SpineProofs.dfy` and `SpineJoin.dfy` prove
  what every run keeps and `SpineExamples.dfy` exhibits the runs where a guarantee stops. `SpineAlone.dfy` ties the
  methods to the runs: an undisturbed worker method leaves what the run of its steps leaves. `AttemptTokens.dfy`
  justifies splitting the write-ahead table into units. `ReconcilerProofs.dfy` and `ReconcilerPasses.dfy` prove what one
  reconciler pass, and one pass after another, does to a unit, and `ReconcilerReports.dfy` what a pass reports
  (`Folds.dfy` holds the fold over a pass's turns).
* **The outbox relay** (`Outbox.dfy`): chunked inserts, ordered claim, isolated apply, mark, park, and the drain.
* **The reviews write pipeline and its rating projection**: the calls (`Reviews.dfy`), their interleavings with relay
  passes, crashes and overlapping recomputes (`ReviewRuns.dfy`), identical submissions (`SubmitRuns.dfy`), the projection
  invariant (`Projection.dfy`), what a rating is (`Ratings.dfy`), the rebuild (`Rebuild.dfy`), and runs where a guarantee
  stops (`ReviewExamples.dfy`).
* **Keyset pagination** in general (`Keyset.dfy`), a client that follows cursors (`Paging.dfy`), and the review,
  moderation and product listings (`ReviewListings.dfy`, `ProductListings.dfy`).
* **Kahn's build order** over a dependency closure (`BuildOrder.dfy`) and the **quote- and parenthesis-aware SQL text
  helpers** (`SqlText.dfy`).

`dafny verify dfyconfig.toml` checks everything.

## What is assumed

* A transaction under an advisory lock is one step, except a completing transaction, which is two: `Check` (lock and
  status re-read) and `Commit`. The split matters because one writer takes no lock (below).
* A recompute is one statement but not one step: it reads the published reviews when it starts, and its row lands when
  it commits. Recomputes of one product may overlap and land in any order, or be lost. The rating is kept as (count,
  sum); the stored average is a function of it. An application runs on its own connection, so a relay crash loses the
  marks and not the recomputes; one whose application failed, or whose relay crashed, may still land later.
* Newly minted review tokens and outbox ids were never used before. `outbox_id` order is insertion order.
* The provider call and the callers' hooks are values: what the provider returns or how it throws, which payload a hook
  was run with, what a join continuation leaves of its unit. The clock is a parameter of every step.
* Text order is an arbitrary strict total order (the database collation). A cursor survives base64url and JSON
  unchanged, except that `toISOString` drops the microseconds.
* The reconciler's bounded pool is one arbitrary order of its units: each unit's transaction holds its instance's lock
  and touches that instance only.

## Where the code and its documents disagree

* **Completed and Failed under a terminal provider failure.** `docs/adr/ADR-0007-jobs-transport-and-durability-spine.md:29`
  and the comments in `packages/jobs/src/stage.ts` describe all writers of an instance as serialised. The terminal branch
  of `performExternalCallWithRouting` (`packages/jobs/src/internal/terminal-routing.ts:28-30`) writes its dead letter on
  the pooled connection, without the lock, and `writeDeadLetter` has no status guard
  (`packages/jobs/src/dead-letter.ts:99-104`). So a second, redelivered attempt whose provider call fails terminally takes
  a Completed stage to Failed, and the failure can commit between a completing transaction's status check and its domain
  writes. `SpineExamples` has the runs; `SpineProofs` and `SpineJoin` have the exact conditions (rows below).
* **"Never skip or repeat a row"** (`packages/reviews/src/reviews.ts:259`). Never repeat: yes, whatever is written between
  pages. Never skip: only if no page boundary falls between two rows of one millisecond that the rounded cursor cannot
  separate. A review is safe for every page size if and only if no newer review of its millisecond has a rounded cursor
  that passes it (`ReviewListings.ReviewAlwaysListedIff`). The same holds for the product list sorted by time.
* **A replayed recompute is not always safe** (`packages/reviews/src/internal/recompute-statement.ts:24-25`). The
  statement aggregates the reviews it saw when it started. If two recomputes of a product overlap, the older one can land
  last, and every event is processed while the projection is stale (`ReviewExamples.StaleRecomputeCanLandLast`). It is
  safe if no recompute of a product starts while another one is under way, and `Projection.CanBeOvertakenIff` has the
  exact condition for an older one to land over a newer one.
* **Identical submissions** (`packages/reviews/src/reviews.ts:92-200`). Two identical concurrent submissions can both be
  answered Created, with two tokens, if their author removes the review in between
  (`ReviewExamples.IdenticalSubmitsCanBothCreate`). In every run the creations for a (product, author) slot number its
  removals plus the review that is there, so exactly one is not a replay if and only if those come to one.
* **"Exactly-once" joins** (`packages/jobs/src/branch.ts:60-61`). `CompletedNow` is handed out once per list only if nothing
  is registered late. A branch added after the join closed reopens it, and it closes again
  (`SpineExamples.LateRegistrationJoinsTwice`); a branch added beside a failed one lets the join close over the failure
  (`SpineExamples.JoinCanCloseBesideAFailure`). `SpineJoin` counts the decisions of every run in which
  no branch is added beside a failed one: one for each reopening, and one more if all branches are completed. The
  condition is the exact one for a failed branch to leave no sibling open.
* **The build order's cycle error** (`tools/extract-module/src/extract.ts:140-146`) also reports two reachable packages of
  one folder name. `discoverWorkspace` keys its map by folder name, so indexes built from it never contain such a pair.

## Model

| member | source | states |
|---|---|---|
| SpineProofs.CallsNeverExceedCeiling | packages/jobs/src/stage.ts:87-113 | over any redeliveries, crashes, concurrent attempts and agings, one stage or one branch begins at most `ceiling` external calls |
| SpineProofs.CompletionsShareOneResult | packages/jobs/src/stage.ts:169-183 | any two completing transactions of one attempt token, in any run, apply the same payload |
| SpineProofs.StoredResultIsNeverRebilled | packages/jobs/src/stage.ts:307-330 | an attempt claimed once the write-ahead row exists never begins a call |
| SpineProofs.RacingCompletionsApplyOnce | packages/jobs/src/stage.ts:212-250 | if applyResult is idempotent, any number of racing completions leaves the domain state of exactly one |
| SpineProofs.RegistrationIsIdempotent | packages/jobs/src/branch.ts:40-53 | registering again keeps every existing branch as it is and adds exactly the missing keys, open and unattempted |
| SpineProofs.RegistrationKeepsTheAskedKind | packages/jobs/src/branch.ts:46-51 | a branch that is added has the kind the first entry of the list for its key asks for |
| SpineProofs.FailedExactlyWhenDeadLettered | packages/jobs/src/dead-letter.ts:75-112 | in every reachable state the stage is Failed if and only if it has a triage row, and a failed branch implies a failed stage |
| SpineProofs.FailedIsAbsorbing | packages/jobs/src/stage.ts:64-85 | once Failed, a stage is Failed after every further run |
| SpineProofs.LockMatchesAlways | packages/jobs/src/internal/advisory-lock.ts:10-17 | at most one attempt or continuation stands between its status check and its commit, and it is the lock's holder |
| SpineProofs.OnlyTerminalThrowsEnterTheWindow | packages/jobs/src/internal/terminal-routing.ts:18-33 | between a completing transaction's check and commit, the stage fails exactly when an unlocked terminal dead letter commits, and that fails exactly the open branches |
| SpineProofs.StageCommitIsLateExactlyWhenTerminalThrowIntervenes | packages/jobs/src/stage.ts:217-249 | a stage-completing transaction applies domain writes after a failure if and only if a terminal dead letter committed inside its window |
| SpineProofs.BranchCommitIsLateExactlyWhenTerminalThrowIntervenes | packages/jobs/src/branch.ts:241-272 | the same for a branch, if and only if its row was also still open at the check |
| SpineProofs.NothingIsAppliedAfterFailure | packages/jobs/src/stage.ts:217-249 | in a run without terminal provider failures nothing is ever applied after a failure |
| SpineJoin.WindowCanBeEnteredIff | packages/jobs/src/internal/terminal-routing.ts:18-33 | judged at the status check: a terminal dead letter can commit before the completing transaction does, if and only if some attempt is then calling or was claimed with no stored result |
| SpineJoin.StageCommitCanBeLateIff | packages/jobs/src/stage.ts:217-249 | so a stage-completing transaction can apply domain writes after a failure if and only if such an attempt exists at its status check |
| SpineJoin.LastBranchDecides | packages/jobs/src/branch.ts:72-102 | counting open rows gives CompletedNow exactly when the guarded flip closed the last open branch, which with no failed sibling means all are Completed |
| SpineJoin.JoinsCountReopenings | packages/jobs/src/branch.ts:72-102 | over every run that adds no branch beside a failed one, CompletedNow has been handed out exactly once per registration that reopened a completed fan-out, plus once if all branches are Completed now, and a failed branch leaves no sibling open |
| SpineJoin.CompletedNowMeansAllCompleted | packages/jobs/src/branch.ts:85-101 | in such a run a step hands out CompletedNow exactly when it completes the last branch and none has failed, although only Pending rows are counted |
| SpineJoin.FailedFanOutStaysClosedIff | packages/jobs/src/dead-letter.ts:106-112 | at every point of a run a failed branch leaves no sibling open, if and only if no registration adds a branch beside a failed one |
| SpineJoin.CanCloseBesideFailureIff | packages/jobs/src/branch.ts:85-101 | some continuation that adds no branch hands out CompletedNow beside a failed branch if and only if a branch is open beside a failed one now |
| SpineJoin.JoinIsExactlyOnce | packages/jobs/src/branch.ts:40-53 | so for one list, delivered any number of times, CompletedNow is handed out at most once, only when every branch is Completed, and exactly once if they all are |
| SpineJoin.CompletedIsLeftOnlyByTerminalThrow | packages/jobs/src/dead-letter.ts:99-112 | with no branch open, only the unguarded terminal dead letter takes a stage out of Completed |
| SpineJoin.JoinedStageStaysCompletedIff | packages/jobs/src/dead-letter.ts:99-112 | a fan-out stage completed by its join continuation alone stays Completed over every further run if and only if no terminal failure is routed |
| SpineJoin.CompletedStageCanFailIff | packages/jobs/src/internal/terminal-routing.ts:26-31 | from any reachable state, some continuation that adds no branch takes a Completed stage to Failed if and only if one of its branches is open or an attempt is calling or was claimed with no stored result |
| SpineJoin.JoinedStageCanFailIff | packages/jobs/src/dead-letter.ts:99-112 | for a fan-out stage completed by its continuation alone, if and only if such an attempt exists |
| SpineExamples.CompletedStageCanBeFailed | packages/jobs/src/internal/terminal-routing.ts:26-31 | a concrete run in which a Completed stage becomes Failed |
| SpineExamples.DomainWritesCanFollowFailure | packages/jobs/src/stage.ts:217-249 | a concrete run in which domain writes commit after the failure |
| SpineExamples.JoinedStageCanBeFailed | packages/jobs/src/internal/terminal-routing.ts:26-31 | the same for a stage completed by its join continuation |
| SpineExamples.LateRegistrationJoinsTwice | packages/jobs/src/branch.ts:40-53 | registering a second list after the join closed hands CompletedNow out twice |
| SpineExamples.JoinCanCloseBesideAFailure | packages/jobs/src/branch.ts:85-101 | a concrete run in which CompletedNow is handed out with a branch and the stage Failed |
| SpineAlone.AttemptAloneIsARun | packages/jobs/src/stage.ts:288-346 | a worker that nothing interleaves with takes exactly the steps of the runs' semantics and leaves the unit they leave, whether it claims or not |
| SpineAlone.SingleTransactionsAreRuns | packages/jobs/src/branch.ts:109-136 | alone, a reconcile transaction, a noted failure and a registration are runs of one step |
| SpineAlone.ContinuationsAreFired | packages/jobs/src/branch.ts:104-118 | a delegated completion that closes the join, and the heal of a missed one, fire one continuation |
| SpineAlone.ContinuationAloneCompletes | packages/jobs/src/stage.ts:212-250 | a fired continuation, alone, is a completeStage call: nothing once the stage failed, otherwise its domain writes and the guarded flip |
| SpineEffects.ClaimSpendsOneAttempt | packages/jobs/src/stage.ts:53-131 | each outcome of a stage or branch claim holds exactly under its condition; a claim counts one attempt of its unit and no other, opens it, restarts its clock and touches no other row; at the ceiling the triage row records the attempts, the new one included |
| SpineEffects.ReconcileActsOnOpenStaleUnits | packages/jobs/src/reconciler.ts:139-175 | each outcome of a reconcile transaction holds exactly under its condition at lock time; aging counts one attempt and restarts the clock, a dead letter records the attempts used |
| SpineEffects.CompletingTouchesOneRow | packages/jobs/src/branch.ts:72-102 | completing closes an open unit and moves its clock, spends no attempt and touches no other row; a unit that is not open is left as it is |
| SpineEffects.ClaimHoldsOffTheReconciler | packages/jobs/src/reconciler.ts:145-156 | over every continuation of a claim whose clocks do not run behind it, a reconcile up to `staleAfter` after the claim leaves the claimed stage or branch alone; undisturbed it answers reclaimed-elsewhere exactly until then |
| AttemptTokens.TokensStayApartIff | packages/jobs/src/internal/attempt-result.ts:8-13 | tokens of different units never collide exactly when no stage name reads as a branch token of another |
| AttemptTokens.ValidStagesKeepTokensApart | packages/jobs/src/branch.ts:305 | with identifier stage names they never do, whatever the branch keys contain |
| DeadLetter.WriteDeadLetter | packages/jobs/src/dead-letter.ts:75-133 | inserts the triage row unless its key exists, fails the stage without a guard and every open branch, and changes no other unit; without an instance row only the triage row is written |
| DeadLetter.DeadLetterCloses | packages/jobs/src/dead-letter.ts:75-133 | a dead letter records the attempts in a new triage row, fails the stage and its open branches at that moment, touches no counter, no kind and no closed branch, leaves nothing open, and replaying it changes no triage row and no status |
| Stage.ClaimStage | packages/jobs/src/stage.ts:53-131 | not found, replay, already failed, ceiling reached (dead-lettered) or claimed with one more attempt |
| Stage.WriteAttemptResult | packages/jobs/src/internal/attempt-result.ts:37-59 | the first row written wins and is what the writer carries forward |
| Stage.CompleteStage | packages/jobs/src/stage.ts:212-250 | a failed stage applies nothing; otherwise the hook runs once per call, an already Completed stage included, and only InProgress flips |
| Stage.RunPipelineStage | packages/jobs/src/stage.ts:288-346 | for every state of the unit, a missing one included, and every provider behaviour: outcome, whether a call was begun, whether the successor is ensured, the unit and the domain writes left |
| Branch.RegisterBranches | packages/jobs/src/branch.ts:40-53 | the insert loop leaves the registration function's rows |
| Branch.CompleteBranchLocked | packages/jobs/src/branch.ts:72-102 | the guarded flip and the join decision |
| Branch.FailBranch | packages/jobs/src/branch.ts:123-136 | spends one attempt of an open branch and moves its clock; no status, no sibling, no stage row, no result, no triage row and no other unit changes |
| Branch.ClaimBranch | packages/jobs/src/branch.ts:152-229 | a branch's claim, its ceiling closing the whole stage |
| Branch.CompleteBranchWithApply | packages/jobs/src/branch.ts:241-272 | a missing branch is reported, a failed one applies nothing; otherwise the writes and the guarded completion |
| Branch.RunPipelineBranch | packages/jobs/src/branch.ts:292-351 | for every state, a missing row included, and provider behaviour: outcome, call, join firing, unit and domain writes |
| Reconciler.ReconcileUnderLock | packages/jobs/src/reconciler.ts:139-175 | whatever moved since the scan: dead-lettered if and only if open and stale under the lock with no attempts left, aged if and only if open and stale with some left, unchanged otherwise |
| Reconciler.ReconcileStaleUnits | packages/jobs/src/reconciler.ts:124-206 | the tables and counters of handling each unit in turn, a thrown transaction or re-drive costing only its own unit |
| Reconciler.HealMissedJoins | packages/jobs/src/reconciler.ts:358-415 | fires the continuation once per unit the scan listed, counts healed and failed, and does nothing without one |
| Reconciler.ReconcilePipeline | packages/jobs/src/reconciler.ts:425-482 | the whole pass over all bindings, each scan reading what the handlers before it left |
| ReconcilerProofs.StaleUnitDrainsExactlyOnBudget | packages/jobs/src/reconciler.ts:139-175 | a unit's own reconcile transactions, each finding it stale and nothing else in between: it stays open for exactly ceiling - attempts of them and the next one dead-letters it |
| ReconcilerProofs.EachStageIsHandledOnItsOwn | packages/jobs/src/reconciler.ts:124-206 | in a batch of stages, in any order and whatever else fails, each one ends as its own transaction decides |
| ReconcilerProofs.StageBatchCountsEveryUnit | packages/jobs/src/reconciler.ts:176-206 | every stale stage is counted exactly once as redriven, dead-lettered or failed |
| ReconcilerPasses.FinishedFanOutGetsOneActionPerPass | packages/jobs/src/reconciler.ts:425-482 | a failure-free pass over all bindings, one per stage, takes exactly one action on a stale unfinished stage whose branches all completed: aged or dead-lettered if InProgress, healed once if Pending and the binding has a continuation; no other turn lists it, and a pass without a binding for it leaves it alone |
| ReconcilerPasses.PassSpendsOrEnds | packages/jobs/src/reconciler.ts:425-482 | a pass over all bindings, heals included, spends exactly one attempt of an open stage, owned branch or delegated branch that is stale and bound, or ends it; faults of other units and of re-drives do not matter |
| ReconcilerPasses.OpenUnitsDrainWithinBudget | packages/jobs/src/reconciler.ts:425-482 | over any number of such passes, a unit still open has spent one attempt in each, so after more than ceiling - attempts of them it has failed, together with its stage |
| ReconcilerPasses.BranchCanEndWithinItsBudget | packages/jobs/src/reconciler.ts:166-172 | a concrete pass of that kind which ends a branch with five attempts to spare, because its stage had none left |
| ReconcilerReports.HealCountsEveryContinuation | packages/jobs/src/reconciler.ts:386-415 | each unit a heal lists counts once: healed if its continuation returned, failed if it threw |
| ReconcilerReports.PassReportsWhatWasDue | packages/jobs/src/reconciler.ts:425-482 | a pass with one binding per stage, whatever throws in it, reports one dead letter for every unit with a due row out of attempts; and if there is none, exactly one re-drive for every due stage and owned branch that does not throw and none for a delegated one, one heal for every missed join whose continuation returned, one failure for everything that threw, all judged on the tables it found |
| Outbox.InsertOutboxRows | packages/jobs/src/outbox.ts:99-115 | the chunked loop appends one pending, unattempted row per insert, in order, with its aggregate and operation |
| Outbox.ClaimedIsInOrder | packages/jobs/src/outbox.ts:196-220 | a claim takes pending, unlocked rows, the oldest first, as many as fit and no fewer |
| Outbox.RelayOutboxBatch | packages/jobs/src/outbox.ts:187-305 | the tables and report of handling the claimed rows in order, each by its own outcome |
| Outbox.PassMarksEachRowOnItsOwn | packages/jobs/src/outbox.ts:229-290 | each claimed row is processed, retried or parked by its own apply alone, other rows are untouched, and claimed = processed + failed + parked, each counter counting its rows |
| Outbox.EveryRowEndsByItsOwnApply | packages/jobs/src/outbox.ts:229-290 | field by field: applied rows are processed with their attempts kept, failed ones have one more and die at the ceiling, unclaimed rows are as they were |
| Outbox.TriageIsExactlyWhatIsParked | packages/jobs/src/dead-letter.ts:177-208 | a pass adds a triage row for exactly the uuid aggregates of the rows it parks, recording the ceiling |
| Outbox.UuidsAreFiveGroups | packages/jobs/src/dead-letter.ts:142 | the uuid check accepts exactly five groups of 8, 4, 4, 4 and 12 hex digits joined by hyphens |
| Outbox.PassKeepsSound | packages/jobs/src/dead-letter.ts:177-208 | pending rows have attempts left, dead rows used exactly the ceiling, and every dead row with a uuid aggregate has a triage row that is never overwritten |
| Outbox.PassLowersBacklog | packages/jobs/src/outbox.ts:229-290 | a pass lowers the sum of remaining attempts by at least one per claimed row |
| Outbox.BacklogDrains | packages/jobs/src/outbox.ts:187-305 | whatever apply does, as many passes as there are owed attempts leave nothing pending |
| Reviews.Store.SubmitReview | packages/reviews/src/reviews.ts:136-200 | undisturbed, the state check and transaction answer NotFound, Created, Replayed or Conflict and leave the tables they describe |
| Reviews.Store.UpdateReview | packages/reviews/src/reviews.ts:388-424 | undisturbed, the owner's given fields change and one event is inserted; anyone else is refused |
| Reviews.Store.RemoveReview | packages/reviews/src/reviews.ts:439-458 | undisturbed, the owner's review goes and one event is inserted; anyone else is refused |
| Reviews.Store.SetReviewModerationState | packages/reviews/src/moderation.ts:148-196 | undisturbed, a flip changes the state and inserts one event; a review already there changes nothing |
| Reviews.Store.ModerationTransaction | packages/reviews/src/moderation.ts:165-196 | the guarded update, and what zero updated rows answer |
| Reviews.ForeignReviewsAreInvisible | packages/reviews/src/internal/resolve-review-owner.ts:18-43 | edits and removals cannot probe for reviews: tables that agree on the caller's own reviews give one answer, the same events and the same own reviews; any other token is refused without a trace |
| ReviewRuns.TableSoundAlways | packages/reviews/src/reviews.ts:156-178 | in every interleaving no two reviews share (product, author) and none is ever pending |
| ReviewRuns.TokensAreNeverReused | packages/reviews/src/reviews.ts:156-178 | a token names one review while it exists and none after, with product, author and creation time fixed |
| ReviewRuns.EventsAreExactlyTheWrites | packages/reviews/src/internal/emit-rating-recompute.ts:17-21 | the recompute events ever inserted number exactly the calls that created, edited, removed or flipped; replays and conflicts add none |
| ReviewRuns.AnswersAreTrueWhenGiven | packages/reviews/src/reviews.ts:388-424 | every answer agrees, field by field, with the tables before and after it: what was created, which given fields an edit took and which omitted ones stayed, what was removed or flipped, that nothing else moved, and the one event a write appends; a guarded update that matched nothing found its review gone or already at the target |
| ReviewRuns.UndisturbedCallIsARun | packages/reviews/src/reviews.ts:136-200 | a call that nothing interleaves with, which is what the store's methods are, is a run of its state check and its transaction |
| Ratings.EveryWriteMovesItsRating | packages/reviews/src/internal/recompute-statement.ts:34-45 | in every run: a new review adds one and its rating, removing or rejecting a published one takes them away and restoring brings them back, an edit of a published one moves the sum by the difference, and nothing else moves any product's rating |
| Ratings.SumSplitsOff | packages/reviews/src/internal/recompute-statement.ts:34-45 | the aggregate does not depend on the order its rows are taken in |
| SubmitRuns.CreationsAreRemovalsPlusOccupied | packages/reviews/src/reviews.ts:136-178 | in every interleaving, with no condition, the submissions of a (product, author) answered Created number exactly the removals of its review plus one if it has a review now |
| ReviewExamples.IdenticalSubmitsCanBothCreate | packages/reviews/src/reviews.ts:439-458 | a concrete run in which two identical submissions under way at once are answered Created with two tokens |
| SubmitRuns.IdenticalSubmitsAgree | packages/reviews/src/reviews.ts:92-200 | identical concurrent submissions, from any moment of any run at which their slot is empty, all answer one token and exactly one of them not as a replay, as long as nobody edits or removes that review and no other text is submitted for the slot meanwhile |
| Projection.ProjectionIsCurrentOrOwed | packages/jobs/src/outbox.ts:196-305 | in every interleaving of writes, relay passes, crashes, rebuilds and overlapping recomputes, each product's projection equals its published reviews, or a pending or dead event that no open pass has applied says it is owed, or its row was written by a recompute that had started before another one that landed earlier |
| Projection.DrainedProjectionIsExact | packages/reviews/src/rating.ts:66-96 | when every event is processed, every product's projection is exact, unless an older recompute of it landed over a newer one |
| Projection.SerialRecomputesAreNeverOvertaken | packages/reviews/src/internal/recompute-statement.ts:34-45 | if no recompute of a product starts while another one of it is under way, its projection is always current or owed |
| Projection.CanBeOvertakenIff | packages/reviews/src/internal/recompute-statement.ts:34-45 | from any reachable state an older recompute can land over a newer one, without a further one being started, if and only if one under way has a later one under way or landed |
| Projection.CanGoStaleIff | packages/reviews/src/internal/recompute-statement.ts:34-45 | a current projection can become stale with nothing written and no recompute started, if and only if a recompute under way has read another rating than the present one |
| ReviewExamples.StaleRecomputeCanLandLast | packages/reviews/src/internal/recompute-statement.ts:34-45 | a concrete run after which every event is processed and the projection is stale |
| Projection.OutboxSoundAlways | packages/jobs/src/outbox.ts:187-305 | the relay's row invariant holds in all those interleavings, with concurrent passes |
| Rebuild.RebuildProductRating | packages/reviews/src/rating.ts:129-178 | terminates; the recompute statements executed are exactly one per distinct reviewed product, in order, for every batch size of at least one, and none for zero; reports their number and leaves other rows untouched |
| Rebuild.RebuildRestoresTheProjection | packages/reviews/src/rating.ts:110-127 | rebuilding a dropped projection gives every product the rating of its reviews, so what a drained event path reads unless an older recompute landed last there; has rows for exactly the products with a review, and repeating it changes nothing |
| Keyset.ListingIsUnique | packages/reviews/src/products.ts:310-319 | a listing is determined by its rows and its order |
| Keyset.WalkNeverRepeats | packages/reviews/src/reviews.ts:292-320 | following cursors over changing rows gives a strictly increasing list, with any forward-rounding cursor |
| Keyset.WalkMissesNothingPresentThroughout | packages/reviews/src/reviews.ts:292-320 | a row present in every snapshot is returned by a walk that ends, if in none of them a row in front of it has a cursor that passes it |
| Keyset.ListedForEveryLimitIff | packages/reviews/src/reviews.ts:304-320 | over fixed rows that condition is exact: a row is returned for every page size if and only if no row in front of it has a cursor that passes it |
| Keyset.PagesAreTheListingIff | packages/reviews/src/products.ts:413-437 | over fixed rows the concatenated pages are the full listing if and only if every page boundary survives the rounding |
| ReviewListings.ListingIsAKeysetRequest | packages/reviews/src/reviews.ts:277-335 | an error exactly for an unknown product or a foreign or undecodable cursor; otherwise the first `limit` rows after the cursor in ORDER BY order |
| ReviewListings.PagesShowTheirScope | packages/reviews/src/reviews.ts:277-320 | a product page shows no rejected review and none of another product, a moderation page one state only; the later ones first, all earlier than the cursor, and everything that is if there is no next cursor |
| ReviewListings.NoReviewIsListedTwice | packages/reviews/src/reviews.ts:292-320 | over the tables of any run of writes, no review is returned twice and pages come newest first, whatever the rounding |
| ReviewListings.ReviewPresentThroughoutIsListedOnce | packages/reviews/src/moderation.ts:271-300 | a review that qualifies throughout is returned exactly once, if at no moment read a newer qualifying review of its millisecond has a rounded cursor that passes it |
| ReviewListings.FixedListingIsCompleteIff | packages/reviews/src/reviews.ts:304-320 | with nothing written in between the walk ends, and is complete if and only if every boundary survives |
| ReviewListings.ReviewAlwaysListedIff | packages/reviews/src/reviews.ts:304-320 | over a fixed table a review is returned for every page size if and only if no newer qualifying review of its millisecond passes it |
| ReviewListings.SubMillisecondNeighboursAreSkipped | packages/reviews/src/reviews.ts:310-320 | two reviews of one millisecond, one of which is never listed |
| ProductListings.CursorFilterIsStrictlyAfter | packages/reviews/src/products.ts:325-350 | the OR-chain keeps exactly the rows the ORDER BY puts after the cursor's row, for all three sorts with the -1 sentinel; by time it also loses the rows inside the rounding |
| ProductListings.FullListingIsTheOrderedCatalogue | packages/reviews/src/products.ts:310-319 | the listing is every matching product once, in ORDER BY order |
| ProductListings.ListingKeepsThePromisedOrder | packages/reviews/src/products.ts:282-319 | by rating: rated before unrated, better average first, then more reviews; newer first; or by name; ties by slug |
| ProductListings.ListingIsAKeysetRequest | packages/reviews/src/products.ts:378-441 | an error exactly for an undecodable cursor or one of another sort; otherwise the keyset request |
| ProductListings.NullCursorExactlyOnTheLastPage | packages/reviews/src/products.ts:426-437 | a page is the first `limit` of the rows left, and nextCursor is null exactly when they are all of them |
| ProductListings.PagesAreTheFullListing | packages/reviews/src/products.ts:413-437 | over a fixed catalogue, for every limit of at least one, following cursors ends and gives the full listing: always by rating and by name, by time if and only if every boundary survives |
| ProductListings.ExactKeysLoseNothing | packages/reviews/src/products.ts:292-304 | whole-millisecond timestamps are enough by time |
| ProductListings.ProductsRepeatOnlyIfTheyMove | packages/reviews/src/products.ts:413-437 | over a changing catalogue a product comes back only if the columns it is sorted by changed |
| BuildOrder.CollectClosure | tools/extract-module/src/extract.ts:86-104 | terminates with reachable packages only, one per folder, every dependency's folder taken, the target first; or names a reachable package's undeclared dependency |
| BuildOrder.CountInDegrees | tools/extract-module/src/extract.ts:106-118 | each package's count is its number of dependencies |
| BuildOrder.Kahn | tools/extract-module/src/extract.ts:120-138 | terminates with distinct packages, dependencies first, and exactly those of the closure whose dependencies are all in |
| BuildOrder.TransitiveClosureInBuildOrder | tools/extract-module/src/extract.ts:82-148 | for any target, listed or not: an order if and only if every reachable dependency is declared, reachable folders are distinct and there is no cycle; it is a permutation of the reachable packages, dependencies first, target last; with distinct folders each error means exactly its cause |
| BuildOrder.FullOrderIsABuildOrder | tools/extract-module/src/extract.ts:140-147 | a queue order as long as the closure is such an order |
| BuildOrder.ShortOrderMeansACycle | tools/extract-module/src/extract.ts:140-146 | a shorter one over a closed closure means a reachable cycle |
| BuildOrder.IndexByPackageName | tools/extract-module/src/workspace.ts:172-180 | every name is listed, under itself, with a package of the workspace |
| BuildOrder.DiscoveredFoldersAreDistinct | tools/extract-module/src/workspace.ts:157-164 | for any package of a discovered workspace and its index, reachable folders are distinct |
| BuildOrder.SharedFolderNameIsReportedAsACycle | tools/extract-module/src/extract.ts:140-146 | on an acyclic, fully declared index with a shared folder name the function reports a cycle |
| SqlText.FindMatchingParen | tools/arch-checks/src/migration-ddl.ts:358-380 | the first position where an unquoted parenthesis brings the depth to zero, or none if there is none |
| SqlText.ClosingParenIffContentsBalanced | tools/arch-checks/src/migration-ddl.ts:358-380 | from an opening parenthesis that position is the closing parenthesis around balanced contents, and only that |
| SqlText.LiteralsAreSkipped | tools/arch-checks/src/migration-ddl.ts:363-370 | a quoted literal, doubled quotes included, changes neither depth nor state, whatever it holds |
| SqlText.ParenthesesAreCounted | tools/arch-checks/src/migration-ddl.ts:371-378 | outside literals the depth is the opening parentheses less the closing ones |
| SqlText.SplitTopLevelCommas | tools/arch-checks/src/migration-ddl.ts:382-411 | the loop returns the trimmed, non-blank pieces of the cut at top-level commas |
| SqlText.CutIsTheOnlySeparation | tools/arch-checks/src/migration-ddl.ts:387-406 | for every text the cut is the one and only list of separable pieces whose comma-join is the text |
| SqlText.SplitUndoesJoinIff | tools/arch-checks/src/migration-ddl.ts:382-411 | splitting the comma-join of a list gives the list back if and only if its items are non-blank, trimmed and separable |
| SqlText.TrimIsTheCore | tools/arch-checks/src/migration-ddl.ts:407-410 | trimming takes away the white space around a piece, all of it and nothing else |
| SqlText.SplitReadsThroughSpacing | tools/arch-checks/src/migration-ddl.ts:382-411 | however separable pieces are spaced, splitting their comma-join gives their cores in order, blank ones dropped |
| SqlText.ExtractParenColumns | tools/arch-checks/src/migration-ddl.ts:476-486 | no columns without a parenthesis, an error exactly without a balanced first group, otherwise the first words of that group's items, which are the column names by the row below |
| SqlText.ColumnsReadBack | tools/arch-checks/src/migration-ddl.ts:476-486 | columns written in parentheses, each with a sort order or operator class behind it and any white space around, are their text's first group and come back as their bare names |

## Left out

- Retention purges (`packages/jobs/src/retention.ts`): age-based deletes remove triage, write-ahead and outbox rows, so the equivalences here would need timing assumptions.
- Cascade deletes from user erasure: they remove reviews without an event and would break the projection invariant; no modelled path triggers them.
- Queueing, rate limiting, events, logging, spans, counters, the truncated failure reasons, `last_error` and triage payload columns.
- Schema validation of rows and payloads, and the write-ahead re-read that finds no row: unreachable without a purge.
- submitReview's unique-violation path: under the (product, author) lock the state check already finds the review, so the violation cannot be raised.
- Slug resolution, `createProduct`, `updateProduct`, slug derivation and author labels: easy members beside the listings.
- Product category and search filters: an arbitrary predicate on rows; the unknown-category error is not modelled.
- Malformed fields inside a well-formed cursor (a time or number that does not parse): the database error they cause is not modelled.
- The scoped rebuild: one recompute.
- Reviews written while a rebuild is paging: the rebuild method reads one review table; a recompute at any moment is covered in `Projection`.
- Rounding of the stored average to two decimals: the rating is (count, sum); listings take hundredths as given.
- Map and set iteration order in the build order: every order of a package's dependencies is covered.
- UTF-16 code units in the SQL helpers: texts are sequences of characters; quotes, parentheses and commas are single units either way.
- Workspace discovery, file copying and process spawning around the build order, and the other migration scanners.
