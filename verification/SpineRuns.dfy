/**
 * Every run of the spine on one unit: worker attempts, join continuations, delegated completions,
 * registrations and the reconciler, in any order, with crashes and redeliveries.
 *
 * A locked transaction is one step while no completing transaction is open. A completing transaction
 * is TWO steps, Check (lock, status re-read) and Commit (applyResult, guarded update, commit), because
 * one writer does not take the lock: the dead letter a terminal provider failure writes on the pooled
 * connection can commit between them. Statements outside a transaction need no lock either.
 */
module SpineRuns {
  import opened Spine

  /** Where one worker attempt stands. `Calling` means the external call has begun. */
  datatype Pc =
    | JustClaimed
    | Calling
    | Returned(payload: Payload)
    | Ready(payload: Payload)
    | Checked(payload: Payload)
    | Ended

  datatype Attempt = Attempt(target: Target, claimNo: nat, pc: Pc, called: bool, rowAtClaim: bool)

  /** Where one firing of the join continuation (a completeStage call) stands. */
  datatype JoinPc = Fired | JoinChecked | JoinEnded

  datatype Holder = Free | Runner(i: nat) | Joiner(j: nat)

  /** One execution of domain writes; `late` says the target had already failed when they committed. */
  datatype Applied =
    | ResultApplied(target: Target, payload: Payload, late: bool)
    | JoinApplied(late: bool)

  datatype Config = Config(ceiling: nat, staleAfter: int)

  datatype World = World(
    unit: Unit,
    attempts: seq<Attempt>,
    joiners: seq<JoinPc>,
    lock: Holder,
    joins: nat,       // CompletedNow decisions handed out
    terminals: nat,   // unlocked terminal dead letters written
    log: seq<Applied>)

  const START: World := World(FRESH, [], [], Free, 0, 0, [])

  datatype Step =
    | Claim(t: Target, now: int)
    | Read(i: nat)
    | Return(i: nat, payload: Payload)
    | TerminalThrow(i: nat, now: int)
    | Write(i: nat)
    | Check(i: nat)
    | Commit(i: nat, now: int)
    | Crash(i: nat)
    | JoinCheck(j: nat)
    | JoinCommit(j: nat, now: int)
    | JoinCrash(j: nat)
    | CompleteDelegated(key: BranchKey, now: int)
    | NoteFailure(key: BranchKey, now: int)
    | Register(list: seq<NewBranch>, now: int)
    | Sweep(t: Target, now: int)
    | Heal(now: int)

  predicate AtPc(w: World, i: nat) {
    i < |w.attempts| && w.attempts[i].pc != Ended
  }

  predicate Enabled(w: World, c: Config, s: Step) {
    match s
    case Claim(_, _) => w.lock == Free
    case Read(i) => AtPc(w, i) && w.attempts[i].pc == JustClaimed
    case Return(i, _) => AtPc(w, i) && w.attempts[i].pc == Calling
    case TerminalThrow(i, _) => AtPc(w, i) && w.attempts[i].pc == Calling
    case Write(i) => AtPc(w, i) && w.attempts[i].pc.Returned?
    case Check(i) => AtPc(w, i) && w.attempts[i].pc.Ready? && w.lock == Free
    case Commit(i, _) => AtPc(w, i) && w.attempts[i].pc.Checked?
    case Crash(i) => AtPc(w, i)
    case JoinCheck(j) => j < |w.joiners| && w.joiners[j] == Fired && w.lock == Free
    case JoinCommit(j, _) => j < |w.joiners| && w.joiners[j] == JoinChecked
    case JoinCrash(j) => j < |w.joiners| && w.joiners[j] != JoinEnded
    case CompleteDelegated(_, _) => w.lock == Free
    case NoteFailure(_, _) => true
    case Register(_, _) => true
    case Sweep(_, _) => w.lock == Free
    case Heal(now) => JoinMissed(w.unit, c.staleAfter, now)
  }

  function At(w: World, i: nat, pc: Pc): World
    requires i < |w.attempts|
  {
    w.(attempts := w.attempts[i := w.attempts[i].(pc := pc)])
  }

  /** Hands the join decision to its caller: CompletedNow fires one continuation. */
  function Decide(w: World, decision: JoinDecision): World {
    if decision == CompletedNow then w.(joins := w.joins + 1, joiners := w.joiners + [Fired]) else w
  }

  function Next(w: World, c: Config, s: Step): World
    requires Enabled(w, c, s)
  {
    match s
    case Claim(t, now) =>
      var (u, outcome) := Spine.Claim(w.unit, t, c.ceiling, now);
      if outcome.Claimed? then
        w.(unit := u, attempts := w.attempts + [Attempt(t, outcome.attempts, JustClaimed, false, t in u.results)])
      else w.(unit := u)
    case Read(i) =>
      var t := w.attempts[i].target;
      if t in w.unit.results then At(w, i, Ready(w.unit.results[t]))
      else w.(attempts := w.attempts[i := w.attempts[i].(pc := Calling, called := true)])
    case Return(i, payload) => At(w, i, Returned(payload))
    case TerminalThrow(i, now) =>
      var a := w.attempts[i];
      At(w, i, Ended).(unit := WriteDeadLetter(w.unit, LetterKey(a.target), a.claimNo, now),
        terminals := w.terminals + 1)
    case Write(i) =>
      var a := w.attempts[i];
      var u := WriteAttemptResult(w.unit, a.target, a.pc.payload);
      At(w, i, Ready(u.results[a.target])).(unit := u)
    case Check(i) =>
      if TargetFailed(w.unit, w.attempts[i].target) then At(w, i, Ended)
      else At(w, i, Checked(w.attempts[i].pc.payload)).(lock := Runner(i))
    case Commit(i, now) =>
      var a := w.attempts[i];
      var (u, decision) := Complete(w.unit, a.target, now);
      Decide(At(w, i, Ended).(unit := u, lock := Free,
             log := w.log + [ResultApplied(a.target, a.pc.payload, TargetFailed(w.unit, a.target))]), decision)
    case Crash(i) => At(w, i, Ended).(lock := if w.lock == Runner(i) then Free else w.lock)
    case JoinCheck(j) =>
      if w.unit.status == Failed then w.(joiners := w.joiners[j := JoinEnded])
      else w.(joiners := w.joiners[j := JoinChecked], lock := Joiner(j))
    case JoinCommit(j, now) =>
      w.(joiners := w.joiners[j := JoinEnded], lock := Free, unit := FlipStageCompleted(w.unit, now),
      log := w.log + [JoinApplied(w.unit.status == Failed)])
    case JoinCrash(j) => w.(joiners := w.joiners[j := JoinEnded], lock := if w.lock == Joiner(j) then Free else w.lock)
    case CompleteDelegated(k, now) =>
      var (u, decision) := CompleteBranchLocked(w.unit, k, now);
      Decide(w.(unit := u), decision)
    case NoteFailure(k, now) => w.(unit := FailBranch(w.unit, k, now))
    case Register(list, now) => w.(unit := w.unit.(branches := RegisterBranches(w.unit.branches, list, now)))
    case Sweep(t, now) => w.(unit := Reconcile(w.unit, t, c.staleAfter, c.ceiling, now).0)
    case Heal(_) => w.(joiners := w.joiners + [Fired])
  }

  /** The world after a run; a step that is not enabled where it stands does nothing. */
  function Exec(w: World, c: Config, steps: seq<Step>): World {
    if steps == [] then w
    else
      var before := Exec(w, c, steps[..|steps| - 1]);
      if Enabled(before, c, steps[|steps| - 1]) then Next(before, c, steps[|steps| - 1]) else before
  }
}
