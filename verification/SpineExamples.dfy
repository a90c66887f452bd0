/** Schedules that show where the spine's guarantees stop. Each lemma returns a concrete run. */
module SpineExamples {
  import opened Spine
  import opened SpineRuns
  import opened SpineProofs
  import opened SpineJoin

  const FIVE: Config := Config(5, 60_000)

  lemma Advance(w: World, steps: seq<Step>, s: Step) returns (w': World, steps': seq<Step>)
    requires w == Exec(START, FIVE, steps) && Enabled(w, FIVE, s)
    ensures w' == Next(w, FIVE, s) && steps' == steps + [s] && w' == Exec(START, FIVE, steps')
  {
    w', steps' := Next(w, FIVE, s), steps + [s];
    assert steps'[..|steps'| - 1] == steps;
  }

  lemma TwoCallers() returns (w: World, steps: seq<Step>)
    ensures w == Exec(START, FIVE, steps)
    ensures w.unit.status == InProgress && w.unit.branches == map[] && w.unit.results == map[]
    ensures w.lock == Free && w.log == []
    ensures w.attempts == [Attempt(OfStage, 1, Calling, true, false), Attempt(OfStage, 2, Calling, true, false)]
  {
    w, steps := START, [];
    w, steps := Advance(w, steps, Claim(OfStage, 0));
    w, steps := Advance(w, steps, Claim(OfStage, 0));
    assert w.attempts
      == [Attempt(OfStage, 1, JustClaimed, false, false), Attempt(OfStage, 2, JustClaimed, false, false)];
    w, steps := Advance(w, steps, Read(0));
    w, steps := Advance(w, steps, Read(1));
  }

  /** Two attempts are calling; the first one's completing transaction has passed its status check. */
  lemma TwoCallersOneChecked() returns (w: World, steps: seq<Step>)
    ensures w == Exec(START, FIVE, steps)
    ensures w.unit.status == InProgress && w.unit.branches == map[]
    ensures w.lock == Runner(0) && w.log == []
    ensures w.attempts == [Attempt(OfStage, 1, Checked("ok"), true, false), Attempt(OfStage, 2, Calling, true, false)]
  {
    w, steps := TwoCallers();
    w, steps := Advance(w, steps, Return(0, "ok"));
    w, steps := Advance(w, steps, Write(0));
    w, steps := Advance(w, steps, Check(0));
  }

  /** A plain stage leaves Completed: the second caller's failure is routed as terminal after the first completed. */
  lemma CompletedStageCanBeFailed() returns (w: World, steps: seq<Step>, throw: Step)
    ensures w == Exec(START, FIVE, steps) && w.unit.status == Completed
    ensures Enabled(w, FIVE, throw) && Next(w, FIVE, throw).unit.status == Failed
  {
    w, steps := TwoCallersOneChecked();
    w, steps := Advance(w, steps, Commit(0, 0));
    throw := TerminalThrow(1, 1);
  }

  /** Domain writes can commit after the failure: the terminal dead letter lands between check and commit. */
  lemma DomainWritesCanFollowFailure() returns (w: World, steps: seq<Step>)
    ensures w == Exec(START, FIVE, steps) && w.unit.status == Failed
    ensures w.log == [ResultApplied(OfStage, "ok", true)]
  {
    w, steps := TwoCallersOneChecked();
    w, steps := Advance(w, steps, TerminalThrow(1, 1));
    w, steps := Advance(w, steps, Commit(0, 2));
  }

  const X: Target := OfBranch("x")

  /** One owned branch, claimed twice under a claimed stage. */
  lemma BranchClaimedTwice() returns (w: World, steps: seq<Step>)
    ensures w == Exec(START, FIVE, steps) && RegistersOnly(steps, [NewBranch("x", Owned)])
    ensures w.unit == Unit(InProgress, 1, 0, map["x" := BranchRow(Owned, BranchPending, 2, 0)], map[], map[])
    ensures w.lock == Free && w.log == [] && w.joins == 0 && w.joiners == [] && |w.attempts| == 3
    ensures w.attempts[1] == Attempt(X, 1, JustClaimed, false, false)
    ensures w.attempts[2] == Attempt(X, 2, JustClaimed, false, false)
  {
    w, steps := START, [];
    w, steps := Advance(w, steps, Register([NewBranch("x", Owned)], 0));
    assert RegisterBranches(map[], [NewBranch("x", Owned)][..0], 0) == map[];
    assert w.unit.branches == map["x" := BranchRow(Owned, BranchPending, 0, 0)];
    w, steps := Advance(w, steps, Claim(OfStage, 0));
    w, steps := Advance(w, steps, Claim(X, 0));
    w, steps := Advance(w, steps, Claim(X, 0));
    assert w.unit.branches == map["x" := BranchRow(Owned, BranchPending, 2, 0)];
  }

  /** Both branch attempts called. */
  lemma BranchCalledTwice() returns (w: World, steps: seq<Step>)
    ensures w == Exec(START, FIVE, steps) && RegistersOnly(steps, [NewBranch("x", Owned)])
    ensures w.unit == Unit(InProgress, 1, 0, map["x" := BranchRow(Owned, BranchPending, 2, 0)], map[], map[])
    ensures w.lock == Free && w.log == [] && w.joins == 0 && w.joiners == [] && |w.attempts| == 3
    ensures w.attempts[1] == Attempt(X, 1, Calling, true, false)
    ensures w.attempts[2] == Attempt(X, 2, Calling, true, false)
  {
    w, steps := BranchClaimedTwice();
    w, steps := Advance(w, steps, Read(1));
    w, steps := Advance(w, steps, Read(2));
  }

  /** Both branch attempts called; the first has passed its status check. */
  lemma BranchChecked() returns (w: World, steps: seq<Step>)
    ensures w == Exec(START, FIVE, steps) && RegistersOnly(steps, [NewBranch("x", Owned)])
    ensures w.unit.status == InProgress && w.unit.branches == map["x" := BranchRow(Owned, BranchPending, 2, 0)]
    ensures w.lock == Runner(1) && w.log == [] && w.joins == 0 && w.joiners == [] && |w.attempts| == 3
    ensures w.attempts[1] == Attempt(X, 1, Checked("ok"), true, false)
    ensures w.attempts[2] == Attempt(X, 2, Calling, true, false)
  {
    w, steps := BranchCalledTwice();
    w, steps := Advance(w, steps, Return(1, "ok"));
    w, steps := Advance(w, steps, Write(1));
    w, steps := Advance(w, steps, Check(1));
  }

  /** The first branch attempt has closed the join. */
  lemma BranchJoined() returns (w: World, steps: seq<Step>)
    ensures w == Exec(START, FIVE, steps) && RegistersOnly(steps, [NewBranch("x", Owned)])
    ensures w.unit.status == InProgress && w.lock == Free && w.joins == 1 && w.joiners == [Fired]
    ensures w.log == [ResultApplied(X, "ok", false)]
    ensures |w.attempts| == 3 && w.attempts[2] == Attempt(X, 2, Calling, true, false)
  {
    w, steps := BranchChecked();
    w, steps := Advance(w, steps, Commit(1, 0));
    assert w.unit.branches == map["x" := BranchRow(Owned, BranchCompleted, 2, 0)];
    assert OpenBranches(w.unit) == {};
  }

  /** A fan-out stage completed by its join continuation alone is failed by a straggling branch attempt. */
  lemma JoinedStageCanBeFailed() returns (w: World, steps: seq<Step>, throw: Step)
    ensures w == Exec(START, FIVE, steps) && RegistersOnly(steps, [NewBranch("x", Owned)])
    ensures w.unit.status == Completed && JoinDriven(w.log) && w.joins == 1
    ensures Enabled(w, FIVE, throw) && Next(w, FIVE, throw).unit.status == Failed
  {
    w, steps := BranchJoined();
    w, steps := Advance(w, steps, JoinCheck(0));
    w, steps := Advance(w, steps, JoinCommit(0, 0));
    assert w.log == [ResultApplied(X, "ok", false), JoinApplied(false)];
    throw := TerminalThrow(2, 1);
  }

  /** A branch added beside a failed one: completing it hands out CompletedNow although a branch, and the stage,
    * failed. */
  lemma JoinCanCloseBesideAFailure() returns (w: World, steps: seq<Step>, s: Step)
    ensures w == Exec(START, FIVE, steps) && Enabled(w, FIVE, s)
    ensures w.joins == 0 && HasFailedBranch(w.unit) && w.unit.status == Failed
    ensures Next(w, FIVE, s).joins == 1 && HasFailedBranch(Next(w, FIVE, s).unit)
  {
    w, steps := FailedBranch();
    w, steps := Advance(w, steps, Register([NewBranch("y", Delegated)], 2));
    var failed := map["x" := BranchRow(Owned, BranchFailed, 1, 1)];
    assert RegisterBranches(failed, [NewBranch("y", Delegated)][..0], 2) == failed;
    assert w.unit.branches == failed["y" := BranchRow(Delegated, BranchPending, 0, 2)];
    assert BranchAt(w.unit, "x", BranchFailed);
    s := CompleteDelegated("y", 3);
    var after := Next(w, FIVE, s).unit;
    assert BranchAt(after, "x", BranchFailed) && OpenBranches(after) == {};
  }

  lemma FailedBranch() returns (w: World, steps: seq<Step>)
    ensures w == Exec(START, FIVE, steps) && w.unit.status == Failed && w.joins == 0 && w.lock == Free
    ensures w.unit.branches == map["x" := BranchRow(Owned, BranchFailed, 1, 1)]
  {
    w, steps := START, [];
    w, steps := Advance(w, steps, Register([NewBranch("x", Owned)], 0));
    assert RegisterBranches(map[], [NewBranch("x", Owned)][..0], 0) == map[];
    assert w.unit.branches == map["x" := BranchRow(Owned, BranchPending, 0, 0)];
    w, steps := Advance(w, steps, Claim(X, 0));
    w, steps := Advance(w, steps, Read(0));
    w, steps := Advance(w, steps, TerminalThrow(0, 1));
  }

  /** Registering a second list after the join closed hands out CompletedNow twice. */
  lemma LateRegistrationJoinsTwice() returns (w: World, steps: seq<Step>)
    ensures w == Exec(START, FIVE, steps) && w.joins == 2
  {
    w, steps := START, [];
    w, steps := Advance(w, steps, Register([NewBranch("x", Delegated)], 0));
    assert RegisterBranches(map[], [NewBranch("x", Delegated)][..0], 0) == map[];
    assert w.unit.branches == map["x" := BranchRow(Delegated, BranchPending, 0, 0)];
    w, steps := Advance(w, steps, CompleteDelegated("x", 0));
    var closed := map["x" := BranchRow(Delegated, BranchCompleted, 0, 0)];
    assert w.unit.branches == closed;
    assert OpenBranches(w.unit) == {};
    w, steps := Advance(w, steps, Register([NewBranch("y", Delegated)], 0));
    assert RegisterBranches(closed, [NewBranch("y", Delegated)][..0], 0) == closed;
    w, steps := Advance(w, steps, CompleteDelegated("y", 0));
    assert OpenBranches(w.unit) == {};
  }
}
