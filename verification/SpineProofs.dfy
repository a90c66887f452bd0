/** What every run of the spine keeps (SpineRuns.dfy). */
module SpineProofs {
  import opened Spine
  import opened SpineRuns

  // ---------------------------------------------------------------------------------------------
  // Registration
  // ---------------------------------------------------------------------------------------------

  /** The list's first entry for `k` asks for this kind. */
  ghost predicate RegisteredAs(list: seq<NewBranch>, k: BranchKey, kind: BranchKind) {
    exists i :: 0 <= i < |list| && list[i] == NewBranch(k, kind) && forall j :: 0 <= j < i ==> list[j].key != k
  }

  lemma RegisteredAsGrows(list: seq<NewBranch>, b: NewBranch, k: BranchKey, kind: BranchKind)
    ensures RegisteredAs(list, k, kind) ==> RegisteredAs(list + [b], k, kind)
    ensures (forall x <- list :: x.key != b.key) ==> RegisteredAs(list + [b], b.key, b.kind)
  {
    var longer := list + [b];
    assert forall i :: 0 <= i < |list| ==> longer[i] == list[i] && longer[i] in list;
    assert longer[|list|] == b;
    if i :| 0 <= i < |list| && list[i] == NewBranch(k, kind) && forall j :: 0 <= j < i ==> list[j].key != k {
      assert longer[i] == NewBranch(k, kind);
    }
  }

  /** A branch that is added has the kind its first entry asks for. */
  lemma {:induction false} RegistrationKeepsTheAskedKind(
    branches: map<BranchKey, BranchRow>, list: seq<NewBranch>, now: int, k: BranchKey)
    requires k !in branches && k in RegisterBranches(branches, list, now)
    ensures RegisteredAs(list, k, RegisterBranches(branches, list, now)[k].kind)
  {
    if list != [] {
      var front, last := list[..|list| - 1], list[|list| - 1];
      RegistrationIsIdempotent(branches, front, now);
      assert list == front + [last];
      RegisteredAsGrows(front, last, k, RegisterBranches(branches, list, now)[k].kind);
      if k in RegisterBranches(branches, front, now) {
        RegistrationKeepsTheAskedKind(branches, front, now, k);
      }
    }
  }

  /** Re-registering never resets a branch; only missing keys are added, open and unattempted. */
  lemma {:induction false} RegistrationIsIdempotent(branches: map<BranchKey, BranchRow>, list: seq<NewBranch>, now: int)
    ensures var after := RegisterBranches(branches, list, now);
            && after.Keys == branches.Keys + (set b <- list :: b.key)
            && (forall k <- branches :: after[k] == branches[k])
            && (forall k <- after :: k !in branches ==>
                  after[k].status == BranchPending && after[k].attempts == 0 && after[k].updatedAt == now)
  {
    if list != [] {
      var front, last := list[..|list| - 1], list[|list| - 1];
      RegistrationIsIdempotent(branches, front, now);
      assert list == front + [last];
    }
  }

  // ---------------------------------------------------------------------------------------------
  // The call bound
  // ---------------------------------------------------------------------------------------------

  ghost function ClaimsOf(attempts: seq<Attempt>, t: Target): set<nat> {
    set i: nat | i < |attempts| && attempts[i].target == t
  }

  /** The attempts on `t` that ever began their external call. */
  ghost function CallsOf(attempts: seq<Attempt>, t: Target): set<nat> {
    set i: nat | i < |attempts| && attempts[i].target == t && attempts[i].called
  }

  ghost predicate ClaimsBounded(w: World, c: Config, t: Target) {
    |ClaimsOf(w.attempts, t)| <= AttemptsOf(w.unit, t) && |ClaimsOf(w.attempts, t)| <= c.ceiling
  }

  lemma AttemptsNeverDrop(w: World, c: Config, s: Step, t: Target)
    requires Enabled(w, c, s)
    ensures AttemptsOf(Next(w, c, s).unit, t) >= AttemptsOf(w.unit, t)
  {
    if s.Register? {
      RegistrationIsIdempotent(w.unit.branches, s.list, s.now);
    }
  }

  lemma ClaimCounts(w: World, c: Config, s: Step, t: Target)
    requires Enabled(w, c, s) && s.Claim? && ClaimsBounded(w, c, t)
    ensures ClaimsBounded(Next(w, c, s), c, t)
  {
    var w' := Next(w, c, s);
    AttemptsNeverDrop(w, c, s, t);
    if |w'.attempts| > |w.attempts| && s.t == t {
      assert ClaimsOf(w'.attempts, t) == ClaimsOf(w.attempts, t) + {|w.attempts|};
    } else {
      assert ClaimsOf(w'.attempts, t) == ClaimsOf(w.attempts, t);
    }
  }

  lemma ClaimsStayBounded(w: World, c: Config, s: Step, t: Target)
    requires Enabled(w, c, s) && ClaimsBounded(w, c, t)
    ensures ClaimsBounded(Next(w, c, s), c, t)
  {
    if s.Claim? {
      ClaimCounts(w, c, s, t);
    } else {
      AttemptsNeverDrop(w, c, s, t);
      assert ClaimsOf(Next(w, c, s).attempts, t) == ClaimsOf(w.attempts, t);
    }
  }

  lemma {:induction false} ClaimsBoundedAlways(c: Config, steps: seq<Step>, t: Target)
    ensures ClaimsBounded(Exec(START, c, steps), c, t)
  {
    if steps == [] {
      assert ClaimsOf([], t) == {};
    } else {
      var front := steps[..|steps| - 1];
      ClaimsBoundedAlways(c, front, t);
      var before, s := Exec(START, c, front), steps[|steps| - 1];
      if Enabled(before, c, s) {
        ClaimsStayBounded(before, c, s, t);
      }
    }
  }

  lemma SubsetCardinality<T>(a: set<T>, b: set<T>)
    requires a <= b
    ensures |a| <= |b|
  {
    assert b == a + (b - a);
  }

  /** Whatever is redelivered, crashes, races or is aged, a stage or branch begins at most `ceiling` external calls. */
  lemma CallsNeverExceedCeiling(c: Config, steps: seq<Step>, t: Target)
    ensures |CallsOf(Exec(START, c, steps).attempts, t)| <= c.ceiling
  {
    var attempts := Exec(START, c, steps).attempts;
    ClaimsBoundedAlways(c, steps, t);
    SubsetCardinality(CallsOf(attempts, t), ClaimsOf(attempts, t));
  }

  // ---------------------------------------------------------------------------------------------
  // One result per attempt token
  // ---------------------------------------------------------------------------------------------

  ghost predicate Carries(u: Unit, t: Target, payload: Payload) {
    t in u.results && u.results[t] == payload
  }

  ghost predicate AttemptAgrees(u: Unit, a: Attempt) {
    && (a.pc.Ready? || a.pc.Checked? ==> Carries(u, a.target, a.pc.payload))
    && (a.pc == JustClaimed ==> !a.called)
    && (a.rowAtClaim ==> a.target in u.results && !a.called && a.pc != Calling && !a.pc.Returned?)
  }

  ghost predicate EntryAgrees(u: Unit, e: Applied) {
    e.ResultApplied? ==> Carries(u, e.target, e.payload)
  }

  ghost predicate Agreed(w: World) {
    && (forall i :: 0 <= i < |w.attempts| ==> AttemptAgrees(w.unit, w.attempts[i]))
    && (forall i :: 0 <= i < |w.log| ==> EntryAgrees(w.unit, w.log[i]))
  }

  /** A write-ahead row, once written, is never replaced. */
  lemma ResultsAreKept(w: World, c: Config, s: Step, t: Target)
    requires Enabled(w, c, s) && t in w.unit.results
    ensures Carries(Next(w, c, s).unit, t, w.unit.results[t])
  {
  }

  lemma AttemptsKeepAgreeing(w: World, c: Config, s: Step, i: nat)
    requires Enabled(w, c, s) && i < |w.attempts| && AttemptAgrees(w.unit, w.attempts[i])
    ensures i < |Next(w, c, s).attempts| && AttemptAgrees(Next(w, c, s).unit, Next(w, c, s).attempts[i])
  {
    forall t | t in w.unit.results
      ensures Carries(Next(w, c, s).unit, t, w.unit.results[t])
    {
      ResultsAreKept(w, c, s, t);
    }
  }

  lemma EntriesKeepAgreeing(w: World, c: Config, s: Step, i: nat)
    requires Enabled(w, c, s) && Agreed(w) && i < |Next(w, c, s).log|
    ensures EntryAgrees(Next(w, c, s).unit, Next(w, c, s).log[i])
  {
    forall t | t in w.unit.results
      ensures Carries(Next(w, c, s).unit, t, w.unit.results[t])
    {
      ResultsAreKept(w, c, s, t);
    }
    if i < |w.log| {
      assert EntryAgrees(w.unit, w.log[i]);
    } else if s.Commit? {
      assert AttemptAgrees(w.unit, w.attempts[s.i]);
    }
  }

  lemma AgreementKept(w: World, c: Config, s: Step)
    requires Enabled(w, c, s) && Agreed(w)
    ensures Agreed(Next(w, c, s))
  {
    var w' := Next(w, c, s);
    forall i | 0 <= i < |w'.attempts|
      ensures AttemptAgrees(w'.unit, w'.attempts[i])
    {
      if i < |w.attempts| {
        AttemptsKeepAgreeing(w, c, s, i);
      }
    }
    forall i | 0 <= i < |w'.log|
      ensures EntryAgrees(w'.unit, w'.log[i])
    {
      EntriesKeepAgreeing(w, c, s, i);
    }
  }

  lemma {:induction false} AgreedAlways(c: Config, steps: seq<Step>)
    ensures Agreed(Exec(START, c, steps))
  {
    if steps != [] {
      var front := steps[..|steps| - 1];
      AgreedAlways(c, front);
      var before, s := Exec(START, c, front), steps[|steps| - 1];
      if Enabled(before, c, s) {
        AgreementKept(before, c, s);
      }
    }
  }

  /** Every completing transaction of one token applies the same payload: the first row written. */
  lemma CompletionsShareOneResult(c: Config, steps: seq<Step>, i: nat, j: nat)
    requires var log := Exec(START, c, steps).log;
             && i < |log| && j < |log| && log[i].ResultApplied? && log[j].ResultApplied?
             && log[i].target == log[j].target
    ensures var w := Exec(START, c, steps);
            w.log[i].payload == w.log[j].payload && Carries(w.unit, w.log[i].target, w.log[i].payload)
  {
    AgreedAlways(c, steps);
    var w := Exec(START, c, steps);
    assert EntryAgrees(w.unit, w.log[i]) && EntryAgrees(w.unit, w.log[j]);
  }

  /** No re-bill: an attempt claimed after its write-ahead row exists never begins the external call. */
  lemma StoredResultIsNeverRebilled(c: Config, steps: seq<Step>, i: nat)
    requires i < |Exec(START, c, steps).attempts| && Exec(START, c, steps).attempts[i].rowAtClaim
    ensures !Exec(START, c, steps).attempts[i].called
  {
    AgreedAlways(c, steps);
    assert AttemptAgrees(Exec(START, c, steps).unit, Exec(START, c, steps).attempts[i]);
  }

  /** The domain state that the completions of one token leave behind. */
  ghost function ApplyLog<D>(apply: (D, Payload) -> D, t: Target, log: seq<Applied>, d: D): D {
    if log == [] then d
    else
      var earlier := ApplyLog(apply, t, log[..|log| - 1], d);
      var e := log[|log| - 1];
      if e.ResultApplied? && e.target == t then apply(earlier, e.payload) else earlier
  }

  ghost predicate AppliedFor(t: Target, log: seq<Applied>) {
    exists i :: 0 <= i < |log| && log[i].ResultApplied? && log[i].target == t
  }

  lemma {:induction false} ConstantLogCollapses<D(!new)>(
    apply: (D, Payload) -> D, t: Target, log: seq<Applied>, d: D, r: Payload)
    requires forall x, p :: apply(apply(x, p), p) == apply(x, p)
    requires forall i :: 0 <= i < |log| && log[i].ResultApplied? && log[i].target == t ==> log[i].payload == r
    ensures ApplyLog(apply, t, log, d) == if AppliedFor(t, log) then apply(d, r) else d
  {
    if log != [] {
      var front, e := log[..|log| - 1], log[|log| - 1];
      ConstantLogCollapses(apply, t, front, d, r);
      assert log == front + [e];
      if AppliedFor(t, front) {
        var i :| 0 <= i < |front| && front[i].ResultApplied? && front[i].target == t;
        assert log[i] == front[i];
      }
    }
  }

  /** With an idempotent applyResult, any number of racing completions leaves the domain state of one. */
  lemma RacingCompletionsApplyOnce<D(!new)>(c: Config, steps: seq<Step>, t: Target, apply: (D, Payload) -> D, d: D)
    requires forall x, p :: apply(apply(x, p), p) == apply(x, p)
    ensures var w := Exec(START, c, steps);
            && (AppliedFor(t, w.log) ==> t in w.unit.results)
            && ApplyLog(apply, t, w.log, d) == if AppliedFor(t, w.log) then apply(d, w.unit.results[t]) else d
  {
    var w := Exec(START, c, steps);
    AgreedAlways(c, steps);
    assert forall i :: 0 <= i < |w.log| ==> EntryAgrees(w.unit, w.log[i]);
    ConstantLogCollapses(apply, t, w.log, d, if t in w.unit.results then w.unit.results[t] else "");
  }

  // ---------------------------------------------------------------------------------------------
  // Dead letters
  // ---------------------------------------------------------------------------------------------

  ghost predicate LettersMatch(u: Unit) {
    && (u.status == Failed <==> u.letters != map[])
    && (forall k <- u.branches :: u.branches[k].status == BranchFailed ==> u.status == Failed)
  }

  lemma LettersMatchKept(w: World, c: Config, s: Step)
    requires Enabled(w, c, s) && LettersMatch(w.unit)
    ensures LettersMatch(Next(w, c, s).unit)
    ensures w.unit.status == Failed ==> Next(w, c, s).unit.status == Failed
  {
    if s.Claim? || s.Sweep? {
      LettersMatchThroughClaimsAndSweeps(w, c, s);
    } else {
      LettersMatchThroughOthers(w, c, s);
    }
  }

  lemma LettersMatchThroughClaimsAndSweeps(w: World, c: Config, s: Step)
    requires Enabled(w, c, s) && LettersMatch(w.unit) && (s.Claim? || s.Sweep?)
    ensures LettersMatch(Next(w, c, s).unit)
    ensures w.unit.status == Failed ==> Next(w, c, s).unit.status == Failed
  {
  }

  lemma LettersMatchThroughOthers(w: World, c: Config, s: Step)
    requires Enabled(w, c, s) && LettersMatch(w.unit) && !s.Claim? && !s.Sweep?
    ensures LettersMatch(Next(w, c, s).unit)
    ensures w.unit.status == Failed ==> Next(w, c, s).unit.status == Failed
  {
    if s.Register? {
      RegistrationIsIdempotent(w.unit.branches, s.list, s.now);
    }
  }

  /** A stage is Failed exactly when its triage row exists, and a failed branch means a failed stage. */
  lemma {:induction false} FailedExactlyWhenDeadLettered(c: Config, steps: seq<Step>)
    ensures LettersMatch(Exec(START, c, steps).unit)
  {
    if steps != [] {
      var front := steps[..|steps| - 1];
      FailedExactlyWhenDeadLettered(c, front);
      var before, s := Exec(START, c, front), steps[|steps| - 1];
      if Enabled(before, c, s) {
        LettersMatchKept(before, c, s);
      }
    }
  }

  /** Failed is absorbing: nothing resurrects a dead-lettered stage. */
  lemma {:induction false} FailedIsAbsorbing(c: Config, steps: seq<Step>, more: seq<Step>)
    requires Exec(START, c, steps).unit.status == Failed
    ensures Exec(Exec(START, c, steps), c, more).unit.status == Failed
  {
    if more != [] {
      var front := more[..|more| - 1];
      FailedIsAbsorbing(c, steps, front);
      ExecAppend(START, c, steps, front);
      FailedExactlyWhenDeadLettered(c, steps + front);
      var before, s := Exec(Exec(START, c, steps), c, front), more[|more| - 1];
      if Enabled(before, c, s) {
        LettersMatchKept(before, c, s);
      }
    }
  }

  lemma {:induction false} ExecAppend(w: World, c: Config, a: seq<Step>, b: seq<Step>)
    ensures Exec(Exec(w, c, a), c, b) == Exec(w, c, a + b)
  {
    hide Next, Enabled;
    if b == [] {
      assert a + b == a;
    } else {
      ExecAppend(w, c, a, b[..|b| - 1]);
      assert (a + b)[..|a + b| - 1] == a + b[..|b| - 1];
    }
  }

  // ---------------------------------------------------------------------------------------------
  // The lock, and what slips past it
  // ---------------------------------------------------------------------------------------------

  ghost predicate LockMatches(w: World) {
    && (w.lock.Runner? ==> w.lock.i < |w.attempts|)
    && (w.lock.Joiner? ==> w.lock.j < |w.joiners|)
    && (forall i :: 0 <= i < |w.attempts| ==> (w.attempts[i].pc.Checked? <==> w.lock == Runner(i)))
    && (forall j :: 0 <= j < |w.joiners| ==> (w.joiners[j] == JoinChecked <==> w.lock == Joiner(j)))
  }

  lemma LockKept(w: World, c: Config, s: Step)
    requires Enabled(w, c, s) && LockMatches(w)
    ensures LockMatches(Next(w, c, s))
  {
    if s.JoinCheck? || s.JoinCommit? || s.JoinCrash? || s.Commit? || s.Heal? || s.CompleteDelegated? {
      JoinersKeepLock(w, c, s);
    } else {
      WorkersKeepLock(w, c, s);
    }
  }

  lemma JoinersKeepLock(w: World, c: Config, s: Step)
    requires Enabled(w, c, s) && LockMatches(w)
    requires s.JoinCheck? || s.JoinCommit? || s.JoinCrash? || s.Commit? || s.Heal? || s.CompleteDelegated?
    ensures LockMatches(Next(w, c, s))
  {
  }

  lemma WorkersKeepLock(w: World, c: Config, s: Step)
    requires Enabled(w, c, s) && LockMatches(w)
    requires !(s.JoinCheck? || s.JoinCommit? || s.JoinCrash? || s.Commit? || s.Heal? || s.CompleteDelegated?)
    ensures LockMatches(Next(w, c, s))
  {
  }

  lemma {:induction false} LockMatchesAlways(c: Config, steps: seq<Step>)
    ensures LockMatches(Exec(START, c, steps))
  {
    if steps != [] {
      var front := steps[..|steps| - 1];
      LockMatchesAlways(c, front);
      var before, s := Exec(START, c, front), steps[|steps| - 1];
      if Enabled(before, c, s) {
        LockKept(before, c, s);
      }
    }
  }

  /** While a completing transaction is open, a status moves only by a terminal dead letter:
    * the lock keeps every other writer out. */
  lemma HeldLockFreezesStatuses(w: World, c: Config, s: Step)
    requires Enabled(w, c, s) && LockMatches(w) && w.lock != Free
    requires !(s.Commit? || s.JoinCommit?)
    ensures var w' := Next(w, c, s);
            && w'.unit.status == (if s.TerminalThrow? then Failed else w.unit.status)
            && w'.terminals == w.terminals + (if s.TerminalThrow? then 1 else 0)
            && (forall k <- w.unit.branches ::
                  k in w'.unit.branches
                  && w'.unit.branches[k].status ==
                     if s.TerminalThrow? && w.unit.branches[k].status == BranchPending then BranchFailed
                     else w.unit.branches[k].status)
  {
    if s.Register? {
      RegistrationIsIdempotent(w.unit.branches, s.list, s.now);
    }
  }

  /** The open completing transaction neither commits nor rolls back during `steps`. */
  ghost predicate LeavesOpen(steps: seq<Step>, holder: Holder) {
    forall s <- steps ::
      && (holder.Runner? ==> !(s.Commit? && s.i == holder.i) && !(s.Crash? && s.i == holder.i))
      && (holder.Joiner? ==> !(s.JoinCommit? && s.j == holder.j) && !(s.JoinCrash? && s.j == holder.j))
  }

  ghost predicate BranchAt(u: Unit, k: BranchKey, status: BranchStatus) {
    k in u.branches && u.branches[k].status == status
  }

  ghost function StatusAfter(status: BranchStatus, struck: bool): BranchStatus {
    if struck && status == BranchPending then BranchFailed else status
  }

  /** Between a completing transaction's status check and its commit: the stage fails exactly when a terminal
    * dead letter commits, and that also fails exactly the branches that were open. */
  lemma {:induction false} OnlyTerminalThrowsEnterTheWindow(w: World, c: Config, more: seq<Step>)
    requires LockMatches(w) && w.lock != Free && w.unit.status != Failed
    requires LeavesOpen(more, w.lock)
    ensures var w' := Exec(w, c, more);
            && LockMatches(w') && w'.lock == w.lock && w'.log == w.log
            && (w.lock.Runner? ==> w'.attempts[w.lock.i] == w.attempts[w.lock.i])
            && w'.terminals >= w.terminals
            && w'.unit.status == (if w'.terminals > w.terminals then Failed else w.unit.status)
            && (forall k <- w.unit.branches ::
                  BranchAt(w'.unit, k, StatusAfter(w.unit.branches[k].status, w'.terminals > w.terminals)))
  {
    if more != [] {
      var front := more[..|more| - 1];
      OnlyTerminalThrowsEnterTheWindow(w, c, front);
      var before, s := Exec(w, c, front), more[|more| - 1];
      assert s in more;
      if Enabled(before, c, s) {
        HeldLockFreezesStatuses(before, c, s);
        LockKept(before, c, s);
        forall k <- w.unit.branches
          ensures BranchAt(Next(before, c, s).unit, k,
                           StatusAfter(w.unit.branches[k].status, Next(before, c, s).terminals > w.terminals))
        {
          assert k in before.unit.branches;
        }
      }
    }
  }

  /** The step that commits the open completing transaction. */
  ghost function CommitOf(holder: Holder, now: int): Step
    requires holder != Free
  {
    if holder.Runner? then Commit(holder.i, now) else JoinCommit(holder.j, now)
  }

  /** Exactly when a stage-completing transaction (a stage attempt's, or the join continuation's) applies its
    * domain writes after the failure committed: a terminal dead letter slipped in after its status check. */
  lemma StageCommitIsLateExactlyWhenTerminalThrowIntervenes(c: Config, steps: seq<Step>, more: seq<Step>, now: int)
    requires var w := Exec(START, c, steps);
             && w.lock != Free && w.unit.status != Failed
             && (w.lock.Runner? && w.lock.i < |w.attempts| ==> w.attempts[w.lock.i].target == OfStage)
             && LeavesOpen(more, w.lock)
    ensures var w := Exec(START, c, steps);
            var before := Exec(w, c, more);
            && Enabled(before, c, CommitOf(w.lock, now))
            && var after := Next(before, c, CommitOf(w.lock, now));
            && |after.log| == |w.log| + 1 && after.log[..|w.log|] == w.log
            && (after.log[|w.log|].late <==> before.terminals > w.terminals)
  {
    LockMatchesAlways(c, steps);
    OnlyTerminalThrowsEnterTheWindow(Exec(START, c, steps), c, more);
  }

  /** The same for a branch attempt: its row was still open at the check, and a terminal dead letter slipped in. */
  lemma BranchCommitIsLateExactlyWhenTerminalThrowIntervenes(
    c: Config, steps: seq<Step>, k: BranchKey, more: seq<Step>, now: int)
    requires var w := Exec(START, c, steps);
             && w.lock.Runner? && w.unit.status != Failed && k in w.unit.branches
             && (w.lock.i < |w.attempts| ==> w.attempts[w.lock.i].target == OfBranch(k))
             && LeavesOpen(more, w.lock)
    ensures var w := Exec(START, c, steps);
            var before := Exec(w, c, more);
            && Enabled(before, c, CommitOf(w.lock, now))
            && var after := Next(before, c, CommitOf(w.lock, now));
            && |after.log| == |w.log| + 1 && after.log[..|w.log|] == w.log
            && (after.log[|w.log|].late <==>
                before.terminals > w.terminals && w.unit.branches[k].status == BranchPending)
  {
    var w := Exec(START, c, steps);
    LockMatchesAlways(c, steps);
    OnlyTerminalThrowsEnterTheWindow(w, c, more);
    FailedExactlyWhenDeadLettered(c, steps);
  }

  // Without a terminal dead letter nothing is applied late.

  ghost predicate Punctual(w: World) {
    w.terminals == 0 ==>
      && (forall i ::
         0 <= i < |w.attempts| && w.attempts[i].pc.Checked? ==> !TargetFailed(w.unit, w.attempts[i].target))
      && (forall j :: 0 <= j < |w.joiners| && w.joiners[j] == JoinChecked ==> w.unit.status != Failed)
      && (forall e <- w.log :: !e.late)
  }

  lemma PunctualKept(w: World, c: Config, s: Step)
    requires Enabled(w, c, s) && LockMatches(w) && Punctual(w)
    ensures Punctual(Next(w, c, s))
  {
    if s.Commit? || s.JoinCommit? {
      CommitsKeepPunctual(w, c, s);
    } else if s.Check? || s.JoinCheck? {
      ChecksKeepPunctual(w, c, s);
    } else {
      OthersKeepPunctual(w, c, s);
    }
  }

  lemma CommitsKeepPunctual(w: World, c: Config, s: Step)
    requires Enabled(w, c, s) && LockMatches(w) && Punctual(w) && (s.Commit? || s.JoinCommit?)
    ensures Punctual(Next(w, c, s))
  {
  }

  lemma ChecksKeepPunctual(w: World, c: Config, s: Step)
    requires Enabled(w, c, s) && LockMatches(w) && Punctual(w) && (s.Check? || s.JoinCheck?)
    ensures Punctual(Next(w, c, s))
  {
  }

  lemma OthersKeepPunctual(w: World, c: Config, s: Step)
    requires Enabled(w, c, s) && LockMatches(w) && Punctual(w)
    requires !s.Commit? && !s.JoinCommit? && !s.Check? && !s.JoinCheck?
    ensures Punctual(Next(w, c, s))
  {
    if Next(w, c, s).terminals == 0 {
      if s.Register? {
        RegistrationIsIdempotent(w.unit.branches, s.list, s.now);
      }
      if w.lock != Free {
        HeldLockFreezesStatuses(w, c, s);
      }
    }
  }

  /** In a run without terminal provider failures, no completing transaction applies anything after a failure. */
  lemma {:induction false} NothingIsAppliedAfterFailure(c: Config, steps: seq<Step>)
    ensures Punctual(Exec(START, c, steps))
  {
    if steps != [] {
      var front := steps[..|steps| - 1];
      NothingIsAppliedAfterFailure(c, front);
      LockMatchesAlways(c, front);
      var before, s := Exec(START, c, front), steps[|steps| - 1];
      if Enabled(before, c, s) {
        PunctualKept(before, c, s);
      }
    }
  }
}
