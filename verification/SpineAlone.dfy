/** An undisturbed attempt, as a function and as a run: the workers' program order is the runs' program order. */
module SpineAlone {
  import opened Spine
  import opened SpineRuns
  import opened SpineProofs

  /** What the provider does if it is called. */
  datatype Provider = Returns(payload: Payload) | ThrowsRetryable | ThrowsTerminal

  /** What an undisturbed attempt leaves of its unit once it has claimed it. */
  function AfterClaim(claimed: Unit, t: Target, attempts: nat, provider: Provider, now: int): Unit {
    if t in claimed.results then Complete(claimed, t, now).0
    else
      match provider
      case Returns(payload) => Complete(WriteAttemptResult(claimed, t, payload), t, now).0
      case ThrowsRetryable => claimed
      case ThrowsTerminal => WriteDeadLetter(claimed, LetterKey(t), attempts, now)
  }

  /** What one undisturbed attempt leaves of its unit. */
  function AloneResult(u: Unit, t: Target, ceiling: nat, provider: Provider, now: int): Unit {
    var (claimed, outcome) := Spine.Claim(u, t, ceiling, now);
    if outcome.Claimed? then AfterClaim(claimed, t, outcome.attempts, provider, now) else claimed
  }

  /** The steps one attempt takes when nothing interleaves; a crash stands for a retryable throw. */
  function Program(t: Target, stored: bool, provider: Provider, now: int): seq<Step> {
    if stored then [SpineRuns.Claim(t, now), Read(0), Check(0), Commit(0, now)]
    else
      match provider
      case Returns(payload) =>
        [SpineRuns.Claim(t, now), Read(0), Return(0, payload), Write(0), Check(0), Commit(0, now)]
      case ThrowsRetryable => [SpineRuns.Claim(t, now), Read(0), Crash(0)]
      case ThrowsTerminal => [SpineRuns.Claim(t, now), Read(0), TerminalThrow(0, now)]
  }

  ghost function Alone(u: Unit): World {
    World(u, [], [], Free, 0, 0, [])
  }

  lemma Step1(w: World, c: Config, s: Step)
    requires Enabled(w, c, s)
    ensures Exec(w, c, [s]) == Next(w, c, s)
  {
    assert [s][..0] == [];
  }

  lemma Step2(w: World, c: Config, s0: Step, s1: Step)
    requires Enabled(w, c, s0) && Enabled(Next(w, c, s0), c, s1)
    ensures Exec(w, c, [s0, s1]) == Next(Next(w, c, s0), c, s1)
  {
    Step1(w, c, s0);
    Step1(Next(w, c, s0), c, s1);
    ExecAppend(w, c, [s0], [s1]);
    assert [s0] + [s1] == [s0, s1];
  }

  /** The world once the attempt has read the write-ahead row. */
  lemma AloneAfterRead(u: Unit, t: Target, c: Config, now: int) returns (w: World)
    requires Spine.Claim(u, t, c.ceiling, now).1.Claimed?
    ensures w == Exec(Alone(u), c, [SpineRuns.Claim(t, now), Read(0)])
    ensures w.unit == Spine.Claim(u, t, c.ceiling, now).0 && w.unit.results == u.results
    ensures w.lock == Free && |w.attempts| == 1 && !TargetFailed(w.unit, t)
    ensures w.attempts[0].target == t && w.attempts[0].claimNo == Spine.Claim(u, t, c.ceiling, now).1.attempts
    ensures w.attempts[0].pc == if t in u.results then Ready(u.results[t]) else Calling
  {
    Step2(Alone(u), c, SpineRuns.Claim(t, now), Read(0));
    w := Exec(Alone(u), c, [SpineRuns.Claim(t, now), Read(0)]);
  }

  /** Check and commit, from a ready attempt. */
  lemma AloneFinishes(w: World, c: Config, now: int)
    requires w.lock == Free && |w.attempts| == 1 && w.attempts[0].pc.Ready?
            && !TargetFailed(w.unit, w.attempts[0].target)
    ensures Exec(w, c, [Check(0), Commit(0, now)]).unit == Complete(w.unit, w.attempts[0].target, now).0
  {
    Step2(w, c, Check(0), Commit(0, now));
  }

  /** Write ahead, check and commit, from an attempt whose call returns. */
  lemma AloneReturns(w: World, c: Config, payload: Payload, now: int)
    requires w.lock == Free && |w.attempts| == 1 && w.attempts[0].pc == Calling
            && !TargetFailed(w.unit, w.attempts[0].target)
    requires w.attempts[0].target !in w.unit.results
    ensures var t := w.attempts[0].target;
            Exec(w, c, [Return(0, payload), Write(0), Check(0), Commit(0, now)]).unit
            == Complete(WriteAttemptResult(w.unit, t, payload), t, now).0
  {
    var write, finish := [Return(0, payload), Write(0)], [Check(0), Commit(0, now)];
    assert [Return(0, payload), Write(0), Check(0), Commit(0, now)] == write + finish;
    Step2(w, c, Return(0, payload), Write(0));
    ExecAppend(w, c, write, finish);
    AloneFinishes(Exec(w, c, write), c, now);
  }

  /** Without a claimed attempt none of its steps is enabled. */
  lemma {:induction false} UnclaimedStepsDoNothing(w: World, c: Config, steps: seq<Step>)
    requires w.attempts == []
    requires forall s <- steps ::
               s.Read? || s.Return? || s.TerminalThrow? || s.Write? || s.Check? || s.Commit? || s.Crash?
    ensures Exec(w, c, steps) == w
  {
    if steps != [] {
      assert steps[|steps| - 1] in steps;
      UnclaimedStepsDoNothing(w, c, steps[..|steps| - 1]);
    }
  }

  /** Run as the only worker, an attempt goes through exactly these steps of the runs' semantics; if it does not claim,
    * the claim is all that happens. */
  lemma AttemptAloneIsARun(u: Unit, t: Target, c: Config, provider: Provider, now: int)
    ensures Exec(Alone(u), c, Program(t, t in u.results, provider, now)).unit
            == AloneResult(u, t, c.ceiling, provider, now)
  {
    if Spine.Claim(u, t, c.ceiling, now).1.Claimed? {
      ClaimedAttemptAloneIsARun(u, t, c, provider, now);
    } else {
      var program := Program(t, t in u.results, provider, now);
      assert program == [SpineRuns.Claim(t, now)] + program[1..];
      Step1(Alone(u), c, SpineRuns.Claim(t, now));
      ExecAppend(Alone(u), c, [SpineRuns.Claim(t, now)], program[1..]);
      UnclaimedStepsDoNothing(Next(Alone(u), c, SpineRuns.Claim(t, now)), c, program[1..]);
    }
  }

  lemma ClaimedAttemptAloneIsARun(u: Unit, t: Target, c: Config, provider: Provider, now: int)
    requires Spine.Claim(u, t, c.ceiling, now).1.Claimed?
    ensures Exec(Alone(u), c, Program(t, t in u.results, provider, now)).unit
            == AloneResult(u, t, c.ceiling, provider, now)
  {
    var start := [SpineRuns.Claim(t, now), Read(0)];
    var program := Program(t, t in u.results, provider, now);
    var rest := program[2..];
    assert program == start + rest;
    ExecAppend(Alone(u), c, start, rest);
    var w := AloneAfterRead(u, t, c, now);
    if t in u.results {
      AloneFinishes(w, c, now);
    } else if provider.Returns? {
      assert rest == [Return(0, provider.payload), Write(0), Check(0), Commit(0, now)];
      AloneReturns(w, c, provider.payload, now);
    } else {
      Step1(w, c, rest[0]);
    }
  }

  // ---------------------------------------------------------------------------------------------
  // The other helpers
  // ---------------------------------------------------------------------------------------------

  /** Run alone, the reconciler's transaction, a noted failure and a registration are runs of one step. */
  lemma SingleTransactionsAreRuns(u: Unit, c: Config, t: Target, k: BranchKey, list: seq<NewBranch>, now: int)
    ensures Exec(Alone(u), c, [Sweep(t, now)]).unit == Reconcile(u, t, c.staleAfter, c.ceiling, now).0
    ensures Exec(Alone(u), c, [NoteFailure(k, now)]).unit == FailBranch(u, k, now)
    ensures Exec(Alone(u), c, [Register(list, now)]).unit
            == u.(branches := RegisterBranches(u.branches, list, now))
  {
    Step1(Alone(u), c, Sweep(t, now));
    Step1(Alone(u), c, NoteFailure(k, now));
    Step1(Alone(u), c, Register(list, now));
  }

  /** A delegated completion that closes the join, and the heal of a missed one, fire one continuation. */
  lemma ContinuationsAreFired(u: Unit, c: Config, k: BranchKey, now: int)
    ensures var w := Exec(Alone(u), c, [CompleteDelegated(k, now)]);
            var (u', decision) := CompleteBranchLocked(u, k, now);
            w.unit == u' && w.joiners == if decision == CompletedNow then [Fired] else []
    ensures var w := Exec(Alone(u), c, [Heal(now)]);
            w.unit == u && w.joiners == if JoinMissed(u, c.staleAfter, now) then [Fired] else []
  {
    Step1(Alone(u), c, CompleteDelegated(k, now));
    if JoinMissed(u, c.staleAfter, now) {
      Step1(Alone(u), c, Heal(now));
    } else {
      assert [Heal(now)][..0] == [];
    }
  }

  /** The continuation a join fires is a completeStage call: alone, it completes an InProgress stage with its domain
    * writes, writes without a flip if the stage is not InProgress, and does neither once the stage has failed. */
  lemma ContinuationAloneCompletes(u: Unit, c: Config, now: int)
    ensures var w := Exec(Alone(u).(joiners := [Fired]), c, [JoinCheck(0), JoinCommit(0, now)]);
            && w.joiners == [JoinEnded] && w.lock == Free
            && (if u.status == Failed then w.unit == u && w.log == []
                else w.unit == FlipStageCompleted(u, now) && w.log == [JoinApplied(false)])
  {
    var w := Alone(u).(joiners := [Fired]);
    Step1(w, c, JoinCheck(0));
    var checked := Next(w, c, JoinCheck(0));
    assert [JoinCheck(0)] + [JoinCommit(0, now)] == [JoinCheck(0), JoinCommit(0, now)];
    ExecAppend(w, c, [JoinCheck(0)], [JoinCommit(0, now)]);
    if u.status == Failed {
      assert [JoinCommit(0, now)][..0] == [];
    } else {
      Step1(checked, c, JoinCommit(0, now));
    }
  }
}
