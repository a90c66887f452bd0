/**
 * The durability spine's transactions on ONE unit: the rows that belong to one (instance, stage) pair.
 * Every statement in the jobs package names both (AttemptTokens.dfy for the write-ahead rows), so the tables split
 * into units and a transaction on one unit leaves the others alone (Database.dfy has the whole tables).
 *
 * Each function is the effect of one committed transaction (or one autocommitted statement).
 * `now` is the transaction's clock reading.
 */
module Spine {
  import opened Common

  type BranchKey = string

  /** A stored provider result (the jsonb of `{table}_stage_result`). */
  type Payload = string

  datatype StageStatus = Pending | InProgress | Completed | Failed

  datatype BranchStatus = BranchPending | BranchCompleted | BranchFailed

  datatype BranchKind = Owned | Delegated

  datatype BranchRow = BranchRow(kind: BranchKind, status: BranchStatus, attempts: nat, updatedAt: int)

  /** What one attempt token names: `'{stage}'` or `'{stage}:{branchKey}'`. */
  datatype Target = OfStage | OfBranch(key: BranchKey)

  /** A stage's triage rows by branch key (none for the stage itself), with the attempts they recorded. */
  type Letters = map<Option<BranchKey>, nat>

  datatype Unit = Unit(
    status: StageStatus,
    attempts: nat,
    updatedAt: int,
    branches: map<BranchKey, BranchRow>,
    results: map<Target, Payload>,
    letters: Letters)

  const FRESH: Unit := Unit(Pending, 0, 0, map[], map[], map[])

  // ---------------------------------------------------------------------------------------------
  // The uniform attempts ceiling
  // ---------------------------------------------------------------------------------------------

  predicate HasAttemptsRemaining(consumed: int, ceiling: nat) {
    consumed < ceiling
  }

  /** Claim side: the attempt being claimed is already counted. */
  predicate ClaimReachedCeiling(attemptsAfterClaim: nat, ceiling: nat) {
    !HasAttemptsRemaining(attemptsAfterClaim - 1, ceiling)
  }

  /** Reconciler side: the row's count before the pass ages it. */
  predicate AttemptsExhausted(attempts: nat, ceiling: nat) {
    !HasAttemptsRemaining(attempts, ceiling)
  }

  // ---------------------------------------------------------------------------------------------
  // Dead letters
  // ---------------------------------------------------------------------------------------------

  /** Fails every still-open branch; the row trigger moves `updated_at`. */
  function FailOpenBranches(branches: map<BranchKey, BranchRow>, now: int): map<BranchKey, BranchRow> {
    map k | k in branches ::
      if branches[k].status == BranchPending then branches[k].(status := BranchFailed, updatedAt := now)
      else branches[k]
  }

  /** INSERT ... ON CONFLICT DO NOTHING. */
  function AddLetter(letters: Letters, branchKey: Option<BranchKey>, attempts: nat): Letters {
    if branchKey in letters then letters else letters[branchKey := attempts]
  }

  /** Inserts the triage row unless its key exists, sets the stage Failed WITHOUT a status guard,
    * and closes the open branches. */
  function WriteDeadLetter(u: Unit, branchKey: Option<BranchKey>, attempts: nat, now: int): Unit {
    u.(letters := AddLetter(u.letters, branchKey, attempts),
    status := Failed,
    updatedAt := now,
    branches := FailOpenBranches(u.branches, now))
  }

  function LetterKey(t: Target): Option<BranchKey> {
    match t
    case OfStage => None
    case OfBranch(k) => Some(k)
  }

  // ---------------------------------------------------------------------------------------------
  // Claims
  // ---------------------------------------------------------------------------------------------

  datatype ClaimOutcome = NotFound | ReplayNoOp | AlreadyFailed | CeilingReached | Claimed(attempts: nat)

  function ClaimStage(u: Unit, ceiling: nat, now: int): (Unit, ClaimOutcome) {
    match u.status
    case Completed => (u, ReplayNoOp)
    case Failed => (u, AlreadyFailed)
    case _ =>
      var claimed := u.(status := InProgress, attempts := u.attempts + 1, updatedAt := now);
      if ClaimReachedCeiling(claimed.attempts, ceiling) then
        (WriteDeadLetter(claimed, None, claimed.attempts, now), CeilingReached)
      else
        (claimed, Claimed(claimed.attempts))
  }

  function ClaimBranch(u: Unit, key: BranchKey, ceiling: nat, now: int): (Unit, ClaimOutcome) {
    if key !in u.branches then (u, NotFound)
    else
      match u.branches[key].status
      case BranchCompleted => (u, ReplayNoOp)
      case BranchFailed => (u, AlreadyFailed)
      case BranchPending =>
        var attempts := u.branches[key].attempts + 1;
        var claimed := u.(branches := u.branches[key := u.branches[key].(attempts := attempts, updatedAt := now)]);
        if ClaimReachedCeiling(attempts, ceiling) then
          (WriteDeadLetter(claimed, Some(key), attempts, now), CeilingReached)
        else
          (claimed, Claimed(attempts))
  }

  function Claim(u: Unit, t: Target, ceiling: nat, now: int): (Unit, ClaimOutcome) {
    match t
    case OfStage => ClaimStage(u, ceiling, now)
    case OfBranch(k) => ClaimBranch(u, k, ceiling, now)
  }

  // ---------------------------------------------------------------------------------------------
  // Write-ahead
  // ---------------------------------------------------------------------------------------------

  /** INSERT ... ON CONFLICT DO NOTHING: the first row written stays. */
  function WriteAttemptResult(u: Unit, t: Target, payload: Payload): Unit {
    if t in u.results then u else u.(results := u.results[t := payload])
  }

  // ---------------------------------------------------------------------------------------------
  // Completion and the counted join
  // ---------------------------------------------------------------------------------------------

  datatype JoinDecision = CompletedNow | JoinPending

  function OpenBranches(u: Unit): set<BranchKey> {
    set k | k in u.branches && u.branches[k].status == BranchPending
  }

  /** Guarded flip of one branch, then the join decision by COUNTING the rows still open. */
  function CompleteBranchLocked(u: Unit, key: BranchKey, now: int): (Unit, JoinDecision) {
    if key in u.branches && u.branches[key].status == BranchPending then
      var u' := u.(branches := u.branches[key := u.branches[key].(status := BranchCompleted, updatedAt := now)]);
      (u', if |OpenBranches(u')| == 0 then CompletedNow else JoinPending)
    else
      (u, JoinPending)
  }

  /** The guarded InProgress -> Completed flip; a lost guard is not an error. */
  function FlipStageCompleted(u: Unit, now: int): Unit {
    if u.status == InProgress then u.(status := Completed, updatedAt := now) else u
  }

  /** The status re-check a completing transaction opens with. */
  predicate TargetFailed(u: Unit, t: Target) {
    match t
    case OfStage => u.status == Failed
    case OfBranch(k) => k in u.branches && u.branches[k].status == BranchFailed
  }

  /** The completing transaction's own table writes, after applyResult ran. */
  function Complete(u: Unit, t: Target, now: int): (Unit, JoinDecision) {
    match t
    case OfStage => (FlipStageCompleted(u, now), JoinPending)
    case OfBranch(k) => CompleteBranchLocked(u, k, now)
  }

  // ---------------------------------------------------------------------------------------------
  // Fan-out registration, branch failure bookkeeping
  // ---------------------------------------------------------------------------------------------

  datatype NewBranch = NewBranch(key: BranchKey, kind: BranchKind)

  function RegisterBranches(branches: map<BranchKey, BranchRow>, list: seq<NewBranch>, now: int)
    : map<BranchKey, BranchRow>
  {
    if list == [] then branches
    else
      var earlier := RegisterBranches(branches, list[..|list| - 1], now);
      var b := list[|list| - 1];
      if b.key in earlier then earlier else earlier[b.key := BranchRow(b.kind, BranchPending, 0, now)]
  }

  function FailBranch(u: Unit, key: BranchKey, now: int): Unit {
    if key in u.branches && u.branches[key].status == BranchPending then
      u.(branches := u.branches[key := u.branches[key].(attempts := u.branches[key].attempts + 1, updatedAt := now)])
    else u
  }

  // ---------------------------------------------------------------------------------------------
  // The reconciler's transaction on one stale unit
  // ---------------------------------------------------------------------------------------------

  datatype ReconcileOutcome = Gone | AlreadyMoved | ReclaimedElsewhere | DeadLettered | Aged

  predicate IsStale(updatedAt: int, staleAfter: int, now: int) {
    updatedAt < now - staleAfter
  }

  function ReconcileStage(u: Unit, staleAfter: int, ceiling: nat, now: int): (Unit, ReconcileOutcome) {
    if u.status != InProgress then (u, AlreadyMoved)
    else if !IsStale(u.updatedAt, staleAfter, now) then (u, ReclaimedElsewhere)
    else if AttemptsExhausted(u.attempts, ceiling) then
      (WriteDeadLetter(u, None, u.attempts, now), DeadLettered)
    else
      (u.(attempts := u.attempts + 1, updatedAt := now), Aged)
  }

  function ReconcileBranch(u: Unit, key: BranchKey, staleAfter: int, ceiling: nat, now: int)
    : (Unit, ReconcileOutcome)
  {
    if key !in u.branches then (u, Gone)
    else
      var row := u.branches[key];
      if row.status != BranchPending then (u, AlreadyMoved)
      else if !IsStale(row.updatedAt, staleAfter, now) then (u, ReclaimedElsewhere)
      else if AttemptsExhausted(row.attempts, ceiling) then
        (WriteDeadLetter(u, Some(key), row.attempts, now), DeadLettered)
      else
        (u.(branches := u.branches[key := row.(attempts := row.attempts + 1, updatedAt := now)]), Aged)
  }

  function Reconcile(u: Unit, t: Target, staleAfter: int, ceiling: nat, now: int): (Unit, ReconcileOutcome) {
    match t
    case OfStage => ReconcileStage(u, staleAfter, ceiling, now)
    case OfBranch(k) => ReconcileBranch(u, k, staleAfter, ceiling, now)
  }

  predicate AllBranchesCompleted(u: Unit) {
    u.branches != map[] && forall k <- u.branches :: u.branches[k].status == BranchCompleted
  }

  /** The missed-join scan: an unfinished stage past staleness whose branches exist and all completed. */
  predicate JoinMissed(u: Unit, staleAfter: int, now: int) {
    && u.status in {Pending, InProgress}
    && IsStale(u.updatedAt, staleAfter, now)
    && AllBranchesCompleted(u)
  }

  // ---------------------------------------------------------------------------------------------
  // Views used by the properties
  // ---------------------------------------------------------------------------------------------

  function AttemptsOf(u: Unit, t: Target): nat {
    match t
    case OfStage => u.attempts
    case OfBranch(k) => if k in u.branches then u.branches[k].attempts else 0
  }

  predicate IsOpen(u: Unit, t: Target) {
    match t
    case OfStage => u.status == InProgress
    case OfBranch(k) => k in u.branches && u.branches[k].status == BranchPending
  }

  function UpdatedAt(u: Unit, t: Target): int {
    match t
    case OfStage => u.updatedAt
    case OfBranch(k) => if k in u.branches then u.branches[k].updatedAt else 0
  }
}
