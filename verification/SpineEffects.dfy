/**
 * What each transaction on a unit leaves, field by field (Spine.dfy): when it acts at all, which clock and counters it
 * moves, what a triage row records, and what it never touches.
 */
module SpineEffects {
  import opened Common
  import opened Spine
  import opened SpineRuns
  import opened SpineProofs

  /** Stage: not finished. Branch: pending. */
  predicate Claimable(u: Unit, t: Target) {
    match t
    case OfStage => u.status == Pending || u.status == InProgress
    case OfBranch(_) => IsOpen(u, t)
  }

  predicate Missing(u: Unit, t: Target) {
    t.OfBranch? && t.key !in u.branches
  }

  predicate CompletedAt(u: Unit, t: Target) {
    match t
    case OfStage => u.status == Completed
    case OfBranch(k) => k in u.branches && u.branches[k].status == BranchCompleted
  }

  /** Only the row of `t` may differ, and it keeps its kind. */
  ghost predicate OnlyRowOf(u: Unit, u': Unit, t: Target) {
    && u'.results == u.results && u'.letters == u.letters && u'.branches.Keys == u.branches.Keys
    && (t.OfBranch? ==> u'.status == u.status && u'.attempts == u.attempts && u'.updatedAt == u.updatedAt)
    && (forall k <- u.branches ::
          && u'.branches[k].kind == u.branches[k].kind
          && (t != OfBranch(k) ==> u'.branches[k] == u.branches[k]))
  }

  /** One attempt of `t` was counted, and no other. */
  ghost predicate Counted(u: Unit, u': Unit, t: Target) {
    forall x :: AttemptsOf(u', x) == AttemptsOf(u, x) + if x == t then 1 else 0
  }

  /** The triage row of `key` is there, and if it is new it records `attempts`. */
  predicate LetterRecords(u: Unit, u': Unit, key: Option<BranchKey>, attempts: nat) {
    && key in u'.letters && u'.letters.Keys == u.letters.Keys + {key}
    && (forall x <- u.letters :: u'.letters[x] == u.letters[x])
    && (key !in u.letters ==> u'.letters[key] == attempts)
  }

  /** A dead letter for `key`: the first triage row of a key stays and records the attempts used up by then; the stage
    * and every open branch fail at `now`; closed branches, kinds and stored results stay. */
  ghost predicate Struck(u: Unit, u': Unit, key: Option<BranchKey>, attempts: nat, now: int) {
    && u'.status == Failed && u'.updatedAt == now && u'.results == u.results
    && LetterRecords(u, u', key, attempts)
    && u'.branches.Keys == u.branches.Keys
    && (forall k <- u.branches ::
          && u'.branches[k].kind == u.branches[k].kind
          && if u.branches[k].status == BranchPending
             then u'.branches[k].status == BranchFailed && u'.branches[k].updatedAt == now
             else u'.branches[k] == u.branches[k])
  }

  // ---------------------------------------------------------------------------------------------
  // One transaction
  // ---------------------------------------------------------------------------------------------

  /** Every outcome of a claim means exactly its condition. A claim opens its unit, counts one attempt, restarts its
    * clock and touches no other row; at the ceiling the attempt is counted too, and recorded in the triage row. */
  lemma ClaimSpendsOneAttempt(u: Unit, t: Target, ceiling: nat, now: int)
    ensures var (u', outcome) := Spine.Claim(u, t, ceiling, now);
            && (outcome.Claimed? <==> Claimable(u, t) && AttemptsOf(u, t) < ceiling)
            && (outcome == CeilingReached <==> Claimable(u, t) && AttemptsOf(u, t) >= ceiling)
            && (outcome == NotFound <==> Missing(u, t))
            && (outcome == ReplayNoOp <==> CompletedAt(u, t))
            && (outcome == AlreadyFailed <==> TargetFailed(u, t))
            && (if Claimable(u, t) then Counted(u, u', t) else u' == u)
            && (outcome.Claimed? ==>
                  && outcome.attempts == AttemptsOf(u', t)
                  && IsOpen(u', t) && UpdatedAt(u', t) == now && OnlyRowOf(u, u', t))
            && (outcome == CeilingReached ==> Struck(u, u', LetterKey(t), AttemptsOf(u, t) + 1, now))
  {
    match t
    case OfStage =>
    case OfBranch(k) =>
  }

  /** Every outcome of a reconcile transaction means exactly its condition, judged under the lock. Aging counts one
    * attempt and restarts the clock of an open stale unit; a dead letter records the attempts it had. */
  lemma ReconcileActsOnOpenStaleUnits(u: Unit, t: Target, staleAfter: int, ceiling: nat, now: int)
    ensures var (u', outcome) := Reconcile(u, t, staleAfter, ceiling, now);
            var due := IsOpen(u, t) && UpdatedAt(u, t) + staleAfter < now;
            && (outcome == DeadLettered <==> due && AttemptsOf(u, t) >= ceiling)
            && (outcome == Aged <==> due && AttemptsOf(u, t) < ceiling)
            && (outcome == ReclaimedElsewhere <==> IsOpen(u, t) && now <= UpdatedAt(u, t) + staleAfter)
            && (outcome == Gone <==> Missing(u, t))
            && (outcome == Aged ==>
                  IsOpen(u', t) && Counted(u, u', t) && UpdatedAt(u', t) == now && OnlyRowOf(u, u', t))
            && (t == OfStage && outcome == Aged ==> u'.status == u.status)
            && (outcome == DeadLettered ==>
                  && Struck(u, u', LetterKey(t), AttemptsOf(u, t), now)
                  && forall x :: AttemptsOf(u', x) == AttemptsOf(u, x))
            && (!due ==> u' == u)
  {
  }

  /** Completing acts on an open unit alone: it closes that row at `now` and spends no attempt. */
  lemma CompletingTouchesOneRow(u: Unit, t: Target, now: int)
    ensures var u' := Complete(u, t, now).0;
            && OnlyRowOf(u, u', t) && (forall x :: AttemptsOf(u', x) == AttemptsOf(u, x))
            && (if IsOpen(u, t) then CompletedAt(u', t) && UpdatedAt(u', t) == now else u' == u)
  {
  }

  /** Noting a failure spends one attempt of an open branch and restarts its clock; the branch stays open. */
  lemma NotingSpendsOneAttempt(u: Unit, k: BranchKey, now: int)
    ensures var u' := FailBranch(u, k, now);
            if IsOpen(u, OfBranch(k)) then
              && OnlyRowOf(u, u', OfBranch(k)) && Counted(u, u', OfBranch(k))
              && IsOpen(u', OfBranch(k)) && UpdatedAt(u', OfBranch(k)) == now
            else u' == u
  {
  }

  // ---------------------------------------------------------------------------------------------
  // A claim holds the reconciler off, over every continuation
  // ---------------------------------------------------------------------------------------------

  /** No clock of the step runs behind `since`. */
  predicate NotBefore(s: Step, since: int) {
    match s
    case Claim(_, now) => since <= now
    case TerminalThrow(_, now) => since <= now
    case Commit(_, now) => since <= now
    case JoinCommit(_, now) => since <= now
    case CompleteDelegated(_, now) => since <= now
    case NoteFailure(_, now) => since <= now
    case Register(_, now) => since <= now
    case Sweep(_, now) => since <= now
    case _ => true
  }

  predicate TouchedSince(u: Unit, t: Target, since: int) {
    !Missing(u, t) && since <= UpdatedAt(u, t)
  }

  lemma StepsKeepTheClock(w: World, c: Config, s: Step, t: Target, since: int)
    requires Enabled(w, c, s) && NotBefore(s, since) && TouchedSince(w.unit, t, since)
    ensures TouchedSince(Next(w, c, s).unit, t, since)
  {
    match s
    case Claim(x, now) => ClaimKeepsTheClock(w.unit, x, c.ceiling, now, t, since);
    case Sweep(x, now) => SweepKeepsTheClock(w.unit, x, c, now, t, since);
    case Register(list, now) => RegistrationIsIdempotent(w.unit.branches, list, now);
    case TerminalThrow(_, _) => ThrowKeepsTheClock(w, c, s, t, since);
    case Commit(_, _) => CommitKeepsTheClock(w, c, s, t, since);
    case CompleteDelegated(k, now) => CompletingTouchesOneRow(w.unit, OfBranch(k), now);
    case _ =>
  }

  lemma ThrowKeepsTheClock(w: World, c: Config, s: Step, t: Target, since: int)
    requires Enabled(w, c, s) && s.TerminalThrow? && NotBefore(s, since) && TouchedSince(w.unit, t, since)
    ensures TouchedSince(Next(w, c, s).unit, t, since)
  {
  }

  lemma CommitKeepsTheClock(w: World, c: Config, s: Step, t: Target, since: int)
    requires Enabled(w, c, s) && s.Commit? && NotBefore(s, since) && TouchedSince(w.unit, t, since)
    ensures TouchedSince(Next(w, c, s).unit, t, since)
  {
    CompletingTouchesOneRow(w.unit, w.attempts[s.i].target, s.now);
  }

  lemma ClaimKeepsTheClock(u: Unit, x: Target, ceiling: nat, now: int, t: Target, since: int)
    requires since <= now && TouchedSince(u, t, since)
    ensures TouchedSince(Spine.Claim(u, x, ceiling, now).0, t, since)
  {
  }

  lemma SweepKeepsTheClock(u: Unit, x: Target, c: Config, now: int, t: Target, since: int)
    requires since <= now && TouchedSince(u, t, since)
    ensures TouchedSince(Reconcile(u, x, c.staleAfter, c.ceiling, now).0, t, since)
  {
  }

  lemma {:induction false} RunsKeepTheClock(w: World, c: Config, more: seq<Step>, t: Target, since: int)
    requires TouchedSince(w.unit, t, since) && forall s <- more :: NotBefore(s, since)
    ensures TouchedSince(Exec(w, c, more).unit, t, since)
  {
    if more != [] {
      RunsKeepTheClock(w, c, more[..|more| - 1], t, since);
      var before, s := Exec(w, c, more[..|more| - 1]), more[|more| - 1];
      assert s in more;
      if Enabled(before, c, s) {
        StepsKeepTheClock(before, c, s, t, since);
      }
    }
  }

  /** Whatever happens after a claim, as long as no clock runs behind it: for `staleAfter` from the claim on, the
    * reconciler leaves the claimed stage or branch alone. Undisturbed it does so not a moment longer: the first
    * reconcile after that ages the unit, or dead-letters it at the ceiling. */
  lemma ClaimHoldsOffTheReconciler(w: World, c: Config, t: Target, now: int, more: seq<Step>, at: int)
    requires w.lock == Free && Spine.Claim(w.unit, t, c.ceiling, now).1.Claimed?
    requires forall s <- more :: NotBefore(s, now)
    ensures var claimed := Next(w, c, SpineRuns.Claim(t, now));
            var later := Exec(claimed, c, more).unit;
            && (at <= now + c.staleAfter ==> Reconcile(later, t, c.staleAfter, c.ceiling, at).0 == later)
            && (Reconcile(claimed.unit, t, c.staleAfter, c.ceiling, at).1 == ReclaimedElsewhere
                <==> at <= now + c.staleAfter)
  {
    var claimed := Next(w, c, SpineRuns.Claim(t, now));
    ClaimSpendsOneAttempt(w.unit, t, c.ceiling, now);
    RunsKeepTheClock(claimed, c, more, t, now);
    ReconcileActsOnOpenStaleUnits(Exec(claimed, c, more).unit, t, c.staleAfter, c.ceiling, at);
    ReconcileActsOnOpenStaleUnits(claimed.unit, t, c.staleAfter, c.ceiling, at);
  }
}
