/** The counted join over every run, and what can still become of a completed stage. */
module SpineJoin {
  import opened Spine
  import opened SpineRuns
  import opened SpineProofs
  import SpineAlone

  // ---------------------------------------------------------------------------------------------
  // Reopening a fan-out
  // ---------------------------------------------------------------------------------------------

  /** Although only Pending rows are counted, a failed branch leaves no open sibling to finish the count. */
  ghost predicate NoOpenBesideFailed(u: Unit) {
    forall k, k' :: BranchAt(u, k, BranchFailed) ==> !BranchAt(u, k', BranchPending)
  }

  ghost predicate HasFailedBranch(u: Unit) {
    exists k :: BranchAt(u, k, BranchFailed)
  }

  ghost predicate AddsABranch(u: Unit, s: Step) {
    s.Register? && exists b <- s.list :: b.key !in u.branches
  }

  /** How often a registration added a branch to a fan-out whose branches were all completed. */
  ghost function Reopenings(c: Config, steps: seq<Step>): nat {
    if steps == [] then 0
    else
      var front, s := steps[..|steps| - 1], steps[|steps| - 1];
      var u := Exec(START, c, front).unit;
      Reopenings(c, front) + if AddsABranch(u, s) && AllBranchesCompleted(u) then 1 else 0
  }

  /** No registration of the run adds a branch beside a failed one. */
  ghost predicate NeverReopensFailed(c: Config, steps: seq<Step>) {
    steps == [] ||
    var front, s := steps[..|steps| - 1], steps[|steps| - 1];
    var u := Exec(START, c, front).unit;
    NeverReopensFailed(c, front) && !(AddsABranch(u, s) && HasFailedBranch(u))
  }

  /** The fan-out is registered once; redeliveries repeat the same list. */
  ghost predicate RegistersOnly(steps: seq<Step>, list: seq<NewBranch>) {
    forall s <- steps :: s.Register? ==> s.list == list
  }

  ghost predicate JoinDriven(log: seq<Applied>) {
    forall e <- log :: e.ResultApplied? ==> e.target != OfStage
  }

  // ---------------------------------------------------------------------------------------------
  // One step
  // ---------------------------------------------------------------------------------------------

  lemma LastBranchDecides(u: Unit, k: BranchKey, now: int)
    requires NoOpenBesideFailed(u)
    ensures var (u', decision) := CompleteBranchLocked(u, k, now);
            && NoOpenBesideFailed(u')
            && u'.branches.Keys == u.branches.Keys && u'.status == u.status
            && (decision == CompletedNow <==> !AllBranchesCompleted(u) && AllBranchesCompleted(u'))
            && (AllBranchesCompleted(u) ==> AllBranchesCompleted(u'))
  {
    var (u', decision) := CompleteBranchLocked(u, k, now);
    if BranchAt(u, k, BranchPending) {
      assert !AllBranchesCompleted(u);
      assert forall x :: BranchAt(u', x, BranchPending) <==> x in OpenBranches(u');
      assert forall x :: !BranchAt(u, x, BranchFailed);
      forall x | x in u'.branches
        ensures u'.branches[x].status != BranchFailed
      {
        assert !BranchAt(u, x, BranchFailed);
      }
      if |OpenBranches(u')| == 0 {
        forall x | x in u'.branches
          ensures u'.branches[x].status == BranchCompleted
        {
          assert x !in OpenBranches(u');
        }
        assert k in u'.branches;
      } else {
        var x :| x in OpenBranches(u');
        assert !AllBranchesCompleted(u');
      }
    }
  }

  /** Every branch keeps its status, or a dead letter failed exactly the open ones. */
  ghost predicate StatusesAfter(u: Unit, u': Unit, struck: bool) {
    && u'.branches.Keys == u.branches.Keys
    && forall k <- u.branches :: u'.branches[k].status == StatusAfter(u.branches[k].status, struck)
  }

  ghost predicate KeptOrStruck(u: Unit, u': Unit) {
    StatusesAfter(u, u', false) || StatusesAfter(u, u', true)
  }

  ghost predicate ClosesOrRegisters(s: Step) {
    s.Commit? || s.CompleteDelegated? || s.Register?
  }

  lemma OtherStepsKeepOrStrike(w: World, c: Config, s: Step)
    requires Enabled(w, c, s) && !ClosesOrRegisters(s)
    ensures KeptOrStruck(w.unit, Next(w, c, s).unit)
  {
    match s
    case Claim(_, _) => ClaimsKeepOrStrike(w, c, s);
    case Sweep(_, _) => SweepsKeepOrStrike(w, c, s);
    case _ => RestKeepsOrStrikes(w, c, s);
  }

  lemma ClaimsKeepOrStrike(w: World, c: Config, s: Step)
    requires Enabled(w, c, s) && s.Claim?
    ensures KeptOrStruck(w.unit, Next(w, c, s).unit)
  {
  }

  lemma SweepsKeepOrStrike(w: World, c: Config, s: Step)
    requires Enabled(w, c, s) && s.Sweep?
    ensures KeptOrStruck(w.unit, Next(w, c, s).unit)
  {
  }

  lemma RestKeepsOrStrikes(w: World, c: Config, s: Step)
    requires Enabled(w, c, s) && !ClosesOrRegisters(s) && !s.Claim? && !s.Sweep?
    ensures KeptOrStruck(w.unit, Next(w, c, s).unit)
  {
  }

  lemma KeptOrStruckKeepsTheCount(u: Unit, u': Unit)
    requires KeptOrStruck(u, u') && NoOpenBesideFailed(u)
    ensures NoOpenBesideFailed(u') && (AllBranchesCompleted(u') <==> AllBranchesCompleted(u))
  {
    forall k, k' | BranchAt(u', k, BranchFailed)
      ensures !BranchAt(u', k', BranchPending)
    {
      assert StatusesAfter(u, u', false) ==> BranchAt(u, k, BranchFailed);
      assert BranchAt(u', k', BranchPending) ==> BranchAt(u, k', BranchPending);
    }
    if AllBranchesCompleted(u') {
      forall k <- u.branches ensures u.branches[k].status == BranchCompleted {
        assert k in u'.branches;
      }
    }
  }

  /** Every CompletedNow so far is accounted for: one for each reopening, and one more while all branches are completed.
    * A continuation, and a stage completed by continuations alone, come after one. */
  ghost predicate JoinCounted(w: World, reopenings: nat) {
    && NoOpenBesideFailed(w.unit)
    && w.joins == reopenings + (if AllBranchesCompleted(w.unit) then 1 else 0)
    && (w.joiners != [] ==> w.joins >= 1)
    && (JoinDriven(w.log) && w.unit.status == Completed ==> w.joins >= 1)
  }

  lemma OtherStepsKeepTheCount(w: World, c: Config, s: Step, n: nat)
    requires Enabled(w, c, s) && JoinCounted(w, n) && !ClosesOrRegisters(s)
    ensures JoinCounted(Next(w, c, s), n)
  {
    var w' := Next(w, c, s);
    OtherStepsKeepOrStrike(w, c, s);
    KeptOrStruckKeepsTheCount(w.unit, w'.unit);
    assert forall e <- w.log :: e in w'.log;
    assert s.JoinCommit? ==> w.joiners != [];
    assert w'.unit.status == Completed ==> w.unit.status == Completed || s.JoinCommit?;
  }

  lemma CommitKeepsTheCount(w: World, c: Config, s: Step, n: nat)
    requires Enabled(w, c, s) && JoinCounted(w, n) && s.Commit?
    ensures JoinCounted(Next(w, c, s), n)
  {
    var w' := Next(w, c, s);
    var t := w.attempts[s.i].target;
    assert forall e <- w.log :: e in w'.log;
    if t.OfBranch? {
      LastBranchDecides(w.unit, t.key, s.now);
    } else {
      assert w'.log[|w.log|] in w'.log;
      assert !JoinDriven(w'.log);
      assert forall k, x :: BranchAt(w'.unit, k, x) <==> BranchAt(w.unit, k, x);
    }
  }

  lemma RegistrationKeepsTheCount(w: World, c: Config, s: Step, n: nat)
    requires Enabled(w, c, s) && s.Register? && JoinCounted(w, n)
    requires !(AddsABranch(w.unit, s) && HasFailedBranch(w.unit))
    ensures JoinCounted(Next(w, c, s), n + if AddsABranch(w.unit, s) && AllBranchesCompleted(w.unit) then 1 else 0)
  {
    var u, u' := w.unit, Next(w, c, s).unit;
    RegistrationIsIdempotent(u.branches, s.list, s.now);
    if AddsABranch(u, s) {
      var b :| b in s.list && b.key !in u.branches;
      assert BranchAt(u', b.key, BranchPending);
      forall k ensures !BranchAt(u', k, BranchFailed) {
        assert !BranchAt(u, k, BranchFailed);
      }
    } else {
      assert u'.branches == u.branches;
    }
  }

  lemma StepKeepsTheCount(w: World, c: Config, s: Step, n: nat)
    requires Enabled(w, c, s) && JoinCounted(w, n)
    requires !(AddsABranch(w.unit, s) && HasFailedBranch(w.unit))
    ensures JoinCounted(Next(w, c, s), n + if AddsABranch(w.unit, s) && AllBranchesCompleted(w.unit) then 1 else 0)
  {
    match s
    case Commit(_, _) => CommitKeepsTheCount(w, c, s, n);
    case CompleteDelegated(k, now) => LastBranchDecides(w.unit, k, now);
    case Register(_, _) => RegistrationKeepsTheCount(w, c, s, n);
    case _ => OtherStepsKeepTheCount(w, c, s, n);
  }

  // ---------------------------------------------------------------------------------------------
  // Every run
  // ---------------------------------------------------------------------------------------------

  /** Whatever is registered when, as long as no branch is added beside a failed one: CompletedNow is handed out once
    * per reopening of a completed fan-out, and once more if all branches are completed now. */
  lemma {:induction false} JoinsCountReopenings(c: Config, steps: seq<Step>)
    requires NeverReopensFailed(c, steps)
    ensures JoinCounted(Exec(START, c, steps), Reopenings(c, steps))
  {
    if steps != [] {
      var front := steps[..|steps| - 1];
      JoinsCountReopenings(c, front);
      var before, s := Exec(START, c, front), steps[|steps| - 1];
      if Enabled(before, c, s) {
        StepKeepsTheCount(before, c, s, Reopenings(c, front));
      }
    }
  }

  /** In such a run a step hands out CompletedNow exactly when it completes the last branch, none having failed. */
  lemma CompletedNowMeansAllCompleted(c: Config, steps: seq<Step>, s: Step)
    requires NeverReopensFailed(c, steps + [s]) && Enabled(Exec(START, c, steps), c, s)
    ensures var w := Exec(START, c, steps);
            var w' := Next(w, c, s);
            w'.joins > w.joins <==> !AllBranchesCompleted(w.unit) && AllBranchesCompleted(w'.unit)
  {
    var all := steps + [s];
    assert all[..|all| - 1] == steps;
    JoinsCountReopenings(c, steps);
    JoinsCountReopenings(c, all);
  }

  lemma AddingBesideFailedReopens(w: World, c: Config, s: Step)
    requires AddsABranch(w.unit, s) && HasFailedBranch(w.unit)
    ensures !NoOpenBesideFailed(Next(w, c, s).unit)
  {
    var u, u' := w.unit, Next(w, c, s).unit;
    RegistrationIsIdempotent(u.branches, s.list, s.now);
    var k :| BranchAt(u, k, BranchFailed);
    var b :| b in s.list && b.key !in u.branches;
    assert BranchAt(u', k, BranchFailed) && BranchAt(u', b.key, BranchPending);
  }

  /** The condition is exact: at every point of a run a failed branch leaves no sibling open, if and only if no
    * registration adds a branch beside a failed one. */
  lemma {:induction false} FailedFanOutStaysClosedIff(c: Config, steps: seq<Step>)
    ensures (forall n: nat :: n <= |steps| ==> NoOpenBesideFailed(Exec(START, c, steps[..n]).unit))
            <==> NeverReopensFailed(c, steps)
  {
    if steps != [] {
      var front, s := steps[..|steps| - 1], steps[|steps| - 1];
      FailedFanOutStaysClosedIff(c, front);
      assert forall n: nat :: n < |steps| ==> front[..n] == steps[..n];
      assert steps[..|steps|] == steps;
      var before := Exec(START, c, front);
      if NeverReopensFailed(c, steps) {
        JoinsCountReopenings(c, steps);
        assert forall n: nat :: n < |steps| ==> NoOpenBesideFailed(Exec(START, c, front[..n]).unit);
      } else if AddsABranch(before.unit, s) && HasFailedBranch(before.unit) {
        AddingBesideFailedReopens(before, c, s);
        assert !NoOpenBesideFailed(Exec(START, c, steps[..|steps|]).unit);
      } else {
        var n: nat :| n <= |front| && !NoOpenBesideFailed(Exec(START, c, front[..n]).unit);
        assert front[..n] == steps[..n];
      }
    }
  }

  // ---------------------------------------------------------------------------------------------
  // One list, delivered any number of times
  // ---------------------------------------------------------------------------------------------

  ghost predicate RegisteredFrom(u: Unit, list: seq<NewBranch>) {
    u.branches == map[] || u.branches.Keys == set b <- list :: b.key
  }

  lemma RegistrationsKeepTheKeys(w: World, c: Config, s: Step, list: seq<NewBranch>)
    requires Enabled(w, c, s) && RegisteredFrom(w.unit, list) && (s.Register? ==> s.list == list)
    ensures RegisteredFrom(Next(w, c, s).unit, list)
    ensures AddsABranch(w.unit, s) ==> w.unit.branches == map[]
  {
    var u' := Next(w, c, s).unit;
    match s
    case Register(_, now) =>
      RegistrationIsIdempotent(w.unit.branches, list, now);
    case Commit(_, _) =>
    case CompleteDelegated(_, _) =>
    case _ => OtherStepsKeepOrStrike(w, c, s);
  }

  lemma {:induction false} OneListNeverReopens(c: Config, steps: seq<Step>, list: seq<NewBranch>)
    requires RegistersOnly(steps, list)
    ensures NeverReopensFailed(c, steps) && Reopenings(c, steps) == 0
    ensures RegisteredFrom(Exec(START, c, steps).unit, list)
  {
    if steps != [] {
      var front := steps[..|steps| - 1];
      OneListNeverReopens(c, front, list);
      var before, s := Exec(START, c, front), steps[|steps| - 1];
      assert s in steps;
      if Enabled(before, c, s) {
        RegistrationsKeepTheKeys(before, c, s, list);
      }
    }
  }

  ghost predicate JoinSound(w: World, list: seq<NewBranch>) {
    && RegisteredFrom(w.unit, list)
    && NoOpenBesideFailed(w.unit)
    && w.joins == (if AllBranchesCompleted(w.unit) then 1 else 0)
    && (w.joiners != [] ==> AllBranchesCompleted(w.unit))
    && (JoinDriven(w.log) && w.unit.status == Completed ==> AllBranchesCompleted(w.unit))
  }

  /** CompletedNow is handed out at most once, only when every branch completed and none failed,
    * and exactly once when they all did; a continuation fires only then. */
  lemma JoinIsExactlyOnce(c: Config, steps: seq<Step>, list: seq<NewBranch>)
    requires RegistersOnly(steps, list)
    ensures JoinSound(Exec(START, c, steps), list)
  {
    OneListNeverReopens(c, steps, list);
    JoinsCountReopenings(c, steps);
  }

  // ---------------------------------------------------------------------------------------------
  // Leaving Completed
  // ---------------------------------------------------------------------------------------------

  /** With no branch open, the only step that takes a stage out of Completed is the unguarded terminal dead letter. */
  lemma CompletedIsLeftOnlyByTerminalThrow(w: World, c: Config, s: Step)
    requires Enabled(w, c, s) && w.unit.status == Completed && OpenBranches(w.unit) == {}
    ensures Next(w, c, s).unit.status == if s.TerminalThrow? then Failed else Completed
    ensures Next(w, c, s).terminals == w.terminals + (if s.TerminalThrow? then 1 else 0)
  {
    assert forall k <- w.unit.branches :: k !in OpenBranches(w.unit) ==> w.unit.branches[k].status != BranchPending;
  }

  /** A fan-out stage that only its join continuation completed stays Completed, over every further run,
    * exactly as long as no attempt's provider failure is routed as terminal. */
  lemma {:induction false} JoinedStageStaysCompletedIff(
    c: Config, steps: seq<Step>, list: seq<NewBranch>, more: seq<Step>)
    requires RegistersOnly(steps, list) && RegistersOnly(more, list)
    requires var w := Exec(START, c, steps); w.unit.status == Completed && JoinDriven(w.log)
    ensures var w := Exec(START, c, steps);
            var w' := Exec(w, c, more);
            && w'.terminals >= w.terminals
            && w'.unit.status == (if w'.terminals == w.terminals then Completed else Failed)
            && AllBranchesCompleted(w'.unit)
  {
    var w := Exec(START, c, steps);
    JoinIsExactlyOnce(c, steps, list);
    if more != [] {
      var front := more[..|more| - 1];
      JoinedStageStaysCompletedIff(c, steps, list, front);
      var before, s := Exec(w, c, front), more[|more| - 1];
      assert s in more;
      ExecAppend(START, c, steps, front);
      ExecAppend(START, c, steps, more);
      assert RegistersOnly(steps + front, list) && RegistersOnly(steps + more, list);
      JoinIsExactlyOnce(c, steps + front, list);
      JoinIsExactlyOnce(c, steps + more, list);
      FailedExactlyWhenDeadLettered(c, steps + front);
      if Enabled(before, c, s) {
        assert Next(before, c, s).joins >= before.joins;
        LettersMatchKept(before, c, s);
        if before.unit.status == Completed {
          assert OpenBranches(before.unit) == {};
          CompletedIsLeftOnlyByTerminalThrow(before, c, s);
        }
      }
    }
  }

  /** The attempt has begun its call, or is about to: it read no row and none is stored. */
  ghost predicate CanStillCall(w: World, i: nat) {
    && i < |w.attempts|
    && (w.attempts[i].pc == Calling || (w.attempts[i].pc == JustClaimed && w.attempts[i].target !in w.unit.results))
  }

  ghost predicate AddsNoBranch(steps: seq<Step>, keys: set<BranchKey>) {
    forall s <- steps :: s.Register? ==> forall b <- s.list :: b.key in keys
  }

  /** Completed, with nothing left that could fail it. */
  ghost predicate Settled(w: World, keys: set<BranchKey>) {
    && w.unit.status == Completed && w.unit.branches.Keys == keys
    && (forall k :: !BranchAt(w.unit, k, BranchPending))
    && (forall i :: 0 <= i < |w.attempts| ==> !CanStillCall(w, i))
  }

  lemma SettledAttemptsStay(w: World, c: Config, s: Step, keys: set<BranchKey>, i: nat)
    requires Settled(w, keys) && Enabled(w, c, s) && i < |w.attempts| && |Next(w, c, s).attempts| == |w.attempts|
    requires w.unit.results.Keys <= Next(w, c, s).unit.results.Keys
    ensures !CanStillCall(Next(w, c, s), i)
  {
    assert !CanStillCall(w, i);
  }

  lemma SettledKept(w: World, c: Config, s: Step, keys: set<BranchKey>)
    requires Settled(w, keys) && Enabled(w, c, s)
    requires s.Register? ==> forall b <- s.list :: b.key in keys
    ensures Settled(Next(w, c, s), keys)
  {
    var w' := Next(w, c, s);
    SettledUnitStays(w, c, s, keys);
    assert forall k :: BranchAt(w'.unit, k, BranchPending) ==> BranchAt(w.unit, k, BranchPending);
    forall i | 0 <= i < |w'.attempts|
      ensures !CanStillCall(w', i)
    {
      SettledAttemptsStay(w, c, s, keys, i);
    }
  }

  lemma SettledUnitStays(w: World, c: Config, s: Step, keys: set<BranchKey>)
    requires Settled(w, keys) && Enabled(w, c, s)
    requires s.Register? ==> forall b <- s.list :: b.key in keys
    ensures var w' := Next(w, c, s);
            && w'.unit.status == Completed && w'.unit.branches == w.unit.branches
            && w.unit.results.Keys <= w'.unit.results.Keys && |w'.attempts| == |w.attempts|
  {
    assert forall i :: 0 <= i < |w.attempts| ==> !CanStillCall(w, i) && w.attempts[i].pc != Calling;
    match s
    case Register(list, now) =>
      RegistrationIsIdempotent(w.unit.branches, list, now);
    case Claim(t, _) =>
      assert t.OfBranch? ==> !BranchAt(w.unit, t.key, BranchPending);
    case Sweep(t, _) =>
      assert t.OfBranch? ==> !BranchAt(w.unit, t.key, BranchPending);
    case Commit(i, _) =>
      assert w.attempts[i].target.OfBranch? ==> !BranchAt(w.unit, w.attempts[i].target.key, BranchPending);
    case CompleteDelegated(k, _) =>
      assert !BranchAt(w.unit, k, BranchPending);
    case NoteFailure(k, _) =>
      assert !BranchAt(w.unit, k, BranchPending);
    case _ =>
  }

  lemma {:induction false} SettledStays(w: World, c: Config, more: seq<Step>, keys: set<BranchKey>)
    requires Settled(w, keys) && AddsNoBranch(more, keys)
    ensures Settled(Exec(w, c, more), keys)
  {
    if more != [] {
      var front := more[..|more| - 1];
      SettledStays(w, c, front, keys);
      var before, s := Exec(w, c, front), more[|more| - 1];
      assert s in more;
      if Enabled(before, c, s) {
        SettledKept(before, c, s, keys);
      }
    }
  }

  lemma ExecCons(w: World, c: Config, s: Step, rest: seq<Step>)
    requires Enabled(w, c, s)
    ensures Exec(w, c, [s] + rest) == Exec(Next(w, c, s), c, rest)
  {
    SpineAlone.Step1(w, c, s);
    ExecAppend(w, c, [s], rest);
  }

  /** Redeliveries alone run an open branch up to its ceiling, and the stage fails with it. */
  lemma ClaimsExhaust(w: World, c: Config, k: BranchKey) returns (more: seq<Step>)
    requires w.lock == Free && BranchAt(w.unit, k, BranchPending)
    ensures (forall s <- more :: !s.Register?) && Exec(w, c, more).unit.status == Failed
    decreases if w.unit.branches[k].attempts < c.ceiling then c.ceiling - w.unit.branches[k].attempts else 0
  {
    var s := SpineRuns.Claim(OfBranch(k), 0);
    var w' := Next(w, c, s);
    var rest: seq<Step> := [];
    if w.unit.branches[k].attempts < c.ceiling {
      assert BranchAt(w'.unit, k, BranchPending);
      rest := ClaimsExhaust(w', c, k);
    }
    ExecCons(w, c, s, rest);
    more := [s] + rest;
  }

  lemma OpenBranchCanFail(w: World, c: Config, k: BranchKey) returns (more: seq<Step>)
    requires LockMatches(w) && BranchAt(w.unit, k, BranchPending)
    ensures (forall s <- more :: !s.Register?) && Exec(w, c, more).unit.status == Failed
  {
    if w.lock == Free {
      more := ClaimsExhaust(w, c, k);
    } else {
      var s := if w.lock.Runner? then Crash(w.lock.i) else JoinCrash(w.lock.j);
      var rest := ClaimsExhaust(Next(w, c, s), c, k);
      ExecCons(w, c, s, rest);
      more := [s] + rest;
    }
  }

  lemma CallCanFail(w: World, c: Config, i: nat) returns (more: seq<Step>)
    requires CanStillCall(w, i)
    ensures (forall s <- more :: !s.Register?) && Exec(w, c, more).unit.status == Failed
  {
    var throw := TerminalThrow(i, 0);
    if w.attempts[i].pc == Calling {
      SpineAlone.Step1(w, c, throw);
      more := [throw];
    } else {
      SpineAlone.Step2(w, c, Read(i), throw);
      more := [Read(i), throw];
    }
  }

  /** From any state a run can reach, some continuation that adds no branch fails a Completed stage, if and only if one
    * of its branches is open or an attempt can still call. */
  lemma CompletedStageCanFailIff(w: World, c: Config)
    requires LockMatches(w) && w.unit.status == Completed
    ensures (exists more :: AddsNoBranch(more, w.unit.branches.Keys) && Exec(w, c, more).unit.status == Failed)
            <==> OpenBranches(w.unit) != {} || exists i :: CanStillCall(w, i)
  {
    if OpenBranches(w.unit) != {} {
      var k :| k in OpenBranches(w.unit);
      var more := OpenBranchCanFail(w, c, k);
      assert AddsNoBranch(more, w.unit.branches.Keys);
    } else if i :| CanStillCall(w, i) {
      var more := CallCanFail(w, c, i);
      assert AddsNoBranch(more, w.unit.branches.Keys);
    } else {
      assert forall k :: BranchAt(w.unit, k, BranchPending) ==> k in OpenBranches(w.unit);
      forall more | AddsNoBranch(more, w.unit.branches.Keys)
        ensures Exec(w, c, more).unit.status == Completed
      {
        SettledStays(w, c, more, w.unit.branches.Keys);
      }
    }
  }

  /** For a fan-out stage its continuation completed, redeliveries of its list included, only a call can. */
  lemma JoinedStageCanFailIff(c: Config, steps: seq<Step>, list: seq<NewBranch>)
    requires RegistersOnly(steps, list)
    requires var w := Exec(START, c, steps); w.unit.status == Completed && JoinDriven(w.log)
    ensures var w := Exec(START, c, steps);
            (exists more :: RegistersOnly(more, list) && Exec(w, c, more).unit.status == Failed)
            <==> exists i :: CanStillCall(w, i)
  {
    var w := Exec(START, c, steps);
    JoinIsExactlyOnce(c, steps, list);
    LockMatchesAlways(c, steps);
    if i :| CanStillCall(w, i) {
      var more := CallCanFail(w, c, i);
      assert RegistersOnly(more, list);
    } else {
      assert OpenBranches(w.unit) == {};
      CompletedStageCanFailIff(w, c);
      forall more | RegistersOnly(more, list)
        ensures AddsNoBranch(more, w.unit.branches.Keys)
      {
      }
    }
  }

  // ---------------------------------------------------------------------------------------------
  // Late commits, judged at the status check
  // ---------------------------------------------------------------------------------------------

  ghost predicate NoneCanCall(w: World) {
    forall i :: 0 <= i < |w.attempts| ==> !CanStillCall(w, i)
  }

  /** While the lock is held and no attempt can call, none ever can, and no terminal dead letter is written. */
  lemma HeldLockKeepsCallersOut(w: World, c: Config, s: Step)
    requires LockMatches(w) && w.lock != Free && NoneCanCall(w) && Enabled(w, c, s)
    ensures NoneCanCall(Next(w, c, s)) && Next(w, c, s).terminals == w.terminals
  {
    var w' := Next(w, c, s);
    assert forall i :: 0 <= i < |w.attempts| ==> !CanStillCall(w, i) && w.attempts[i].pc != Calling;
    assert |w'.attempts| == |w.attempts|;
    forall i | 0 <= i < |w'.attempts|
      ensures !CanStillCall(w', i)
    {
      assert !CanStillCall(w, i);
    }
  }

  lemma {:induction false} WindowStaysShut(w: World, c: Config, more: seq<Step>)
    requires LockMatches(w) && w.lock != Free && w.unit.status != Failed && NoneCanCall(w) && LeavesOpen(more, w.lock)
    ensures NoneCanCall(Exec(w, c, more)) && Exec(w, c, more).terminals == w.terminals
  {
    if more != [] {
      var front, s := more[..|more| - 1], more[|more| - 1];
      WindowStaysShut(w, c, front);
      OnlyTerminalThrowsEnterTheWindow(w, c, front);
      if Enabled(Exec(w, c, front), c, s) {
        HeldLockKeepsCallersOut(Exec(w, c, front), c, s);
      }
    }
  }

  lemma CallEntersTheWindow(w: World, c: Config, i: nat) returns (more: seq<Step>)
    requires LockMatches(w) && w.lock != Free && CanStillCall(w, i)
    ensures LeavesOpen(more, w.lock) && Exec(w, c, more).terminals > w.terminals
  {
    var throw := TerminalThrow(i, 0);
    if w.attempts[i].pc == Calling {
      SpineAlone.Step1(w, c, throw);
      more := [throw];
    } else {
      SpineAlone.Step2(w, c, Read(i), throw);
      more := [Read(i), throw];
    }
  }

  /** A terminal dead letter can commit between a completing transaction's status check and its commit, if and only
    * if at the check some attempt is calling or was claimed with no stored result. */
  lemma WindowCanBeEnteredIff(w: World, c: Config)
    requires LockMatches(w) && w.lock != Free && w.unit.status != Failed
    ensures (exists more :: LeavesOpen(more, w.lock) && Exec(w, c, more).terminals > w.terminals)
            <==> exists i :: CanStillCall(w, i)
  {
    if i :| CanStillCall(w, i) {
      var more := CallEntersTheWindow(w, c, i);
    } else {
      forall more | LeavesOpen(more, w.lock)
        ensures Exec(w, c, more).terminals == w.terminals
      {
        WindowStaysShut(w, c, more);
      }
    }
  }

  /** After `more`, the open completing transaction commits, and applies its domain writes late. */
  ghost predicate CommitsLate(w: World, c: Config, more: seq<Step>)
    requires w.lock != Free
  {
    var before, s := Exec(w, c, more), CommitOf(w.lock, 0);
    LeavesOpen(more, w.lock) && Enabled(before, c, s)
    && var log := Next(before, c, s).log; |log| == |w.log| + 1 && log[|w.log|].late
  }

  /** So a stage-completing transaction can apply domain writes after the failure if and only if some attempt can still
    * call when it checks the status. */
  lemma StageCommitCanBeLateIff(c: Config, steps: seq<Step>)
    requires var w := Exec(START, c, steps);
             && w.lock != Free && w.unit.status != Failed
             && (w.lock.Runner? && w.lock.i < |w.attempts| ==> w.attempts[w.lock.i].target == OfStage)
    ensures var w := Exec(START, c, steps);
            (exists more :: CommitsLate(w, c, more)) <==> exists i :: CanStillCall(w, i)
  {
    var w := Exec(START, c, steps);
    LockMatchesAlways(c, steps);
    forall more | LeavesOpen(more, w.lock)
      ensures CommitsLate(w, c, more) <==> Exec(w, c, more).terminals > w.terminals
    {
      OnlyTerminalThrowsEnterTheWindow(w, c, more);
      StageCommitIsLateExactlyWhenTerminalThrowIntervenes(c, steps, more, 0);
    }
    WindowCanBeEnteredIff(w, c);
    if more :| LeavesOpen(more, w.lock) && Exec(w, c, more).terminals > w.terminals {
      assert CommitsLate(w, c, more);
    }
  }

  // ---------------------------------------------------------------------------------------------
  // CompletedNow beside a failure, judged beforehand
  // ---------------------------------------------------------------------------------------------

  /** The step hands out CompletedNow although a branch has failed. */
  ghost predicate ClosesBesideFailure(w: World, c: Config, s: Step) {
    Enabled(w, c, s) && Next(w, c, s).joins > w.joins && HasFailedBranch(Next(w, c, s).unit)
  }

  lemma OrderlyStepsCloseCleanly(w: World, c: Config, s: Step, keys: set<BranchKey>)
    requires Enabled(w, c, s) && NoOpenBesideFailed(w.unit) && w.unit.branches.Keys == keys && AddsNoBranch([s], keys)
    ensures var w' := Next(w, c, s);
            NoOpenBesideFailed(w'.unit) && w'.unit.branches.Keys == keys && !ClosesBesideFailure(w, c, s)
  {
    assert s in [s];
    match s
    case Commit(i, now) =>
      if w.attempts[i].target.OfBranch? {
        LastBranchDecides(w.unit, w.attempts[i].target.key, now);
      } else {
        assert forall k, x :: BranchAt(Next(w, c, s).unit, k, x) <==> BranchAt(w.unit, k, x);
      }
      AllCompletedMeansNoneFailed(Next(w, c, s).unit);
    case CompleteDelegated(k, now) =>
      LastBranchDecides(w.unit, k, now);
      AllCompletedMeansNoneFailed(Next(w, c, s).unit);
    case Register(list, now) =>
      RegistrationIsIdempotent(w.unit.branches, list, now);
      assert Next(w, c, s).unit.branches == w.unit.branches;
    case _ =>
      OtherStepsKeepOrStrike(w, c, s);
      KeptOrStruckKeepsTheCount(w.unit, Next(w, c, s).unit);
  }

  lemma AllCompletedMeansNoneFailed(u: Unit)
    ensures AllBranchesCompleted(u) ==> !HasFailedBranch(u)
  {
  }

  lemma {:induction false} OrderlyRunsCloseCleanly(w: World, c: Config, more: seq<Step>, keys: set<BranchKey>)
    requires NoOpenBesideFailed(w.unit) && w.unit.branches.Keys == keys && AddsNoBranch(more, keys)
    ensures var w' := Exec(w, c, more); NoOpenBesideFailed(w'.unit) && w'.unit.branches.Keys == keys
  {
    if more != [] {
      var front, s := more[..|more| - 1], more[|more| - 1];
      OrderlyRunsCloseCleanly(w, c, front, keys);
      assert s in more;
      if Enabled(Exec(w, c, front), c, s) {
        OrderlyStepsCloseCleanly(Exec(w, c, front), c, s, keys);
      }
    }
  }

  /** Completing the open branches one by one closes the join over a failed one. */
  lemma ClosingOverAFailure(w: World, c: Config, failed: BranchKey) returns (more: seq<Step>, s: Step)
    requires w.lock == Free && BranchAt(w.unit, failed, BranchFailed) && OpenBranches(w.unit) != {}
    ensures (forall x <- more + [s] :: !x.Register?) && ClosesBesideFailure(Exec(w, c, more), c, s)
    decreases |OpenBranches(w.unit)|
  {
    var k :| k in OpenBranches(w.unit);
    var step := CompleteDelegated(k, 0);
    var w' := Next(w, c, step);
    assert OpenBranches(w'.unit) == OpenBranches(w.unit) - {k};
    assert BranchAt(w'.unit, failed, BranchFailed);
    if OpenBranches(w'.unit) == {} {
      more, s := [], step;
    } else {
      var rest;
      rest, s := ClosingOverAFailure(w', c, failed);
      ExecCons(w, c, step, rest);
      more := [step] + rest;
    }
  }

  lemma OpenFailureClosesOver(w: World, c: Config) returns (more: seq<Step>, s: Step)
    requires LockMatches(w) && !NoOpenBesideFailed(w.unit)
    ensures (forall x <- more + [s] :: !x.Register?) && ClosesBesideFailure(Exec(w, c, more), c, s)
  {
    var failed, open :| BranchAt(w.unit, failed, BranchFailed) && BranchAt(w.unit, open, BranchPending);
    assert open in OpenBranches(w.unit);
    if w.lock == Free {
      more, s := ClosingOverAFailure(w, c, failed);
    } else {
      var crash := if w.lock.Runner? then Crash(w.lock.i) else JoinCrash(w.lock.j);
      var rest;
      rest, s := ClosingOverAFailure(Next(w, c, crash), c, failed);
      ExecCons(w, c, crash, rest);
      more := [crash] + rest;
    }
  }

  /** `more`, then `s`, add no branch and hand out CompletedNow beside a failed one. */
  ghost predicate LeadsPastAFailure(w: World, c: Config, more: seq<Step>, s: Step) {
    AddsNoBranch(more + [s], w.unit.branches.Keys) && ClosesBesideFailure(Exec(w, c, more), c, s)
  }

  /** From any reachable state, some continuation that adds no branch hands out CompletedNow beside a failed branch,
    * if and only if a branch is open beside a failed one now. */
  lemma CanCloseBesideFailureIff(w: World, c: Config)
    requires LockMatches(w)
    ensures (exists more, s :: LeadsPastAFailure(w, c, more, s)) <==> !NoOpenBesideFailed(w.unit)
  {
    var keys := w.unit.branches.Keys;
    if NoOpenBesideFailed(w.unit) {
      forall more: seq<Step>, s: Step | AddsNoBranch(more + [s], keys)
        ensures !LeadsPastAFailure(w, c, more, s)
      {
        assert forall x <- more :: x in more + [s];
        assert s in more + [s];
        OrderlyRunsCloseCleanly(w, c, more, keys);
        if Enabled(Exec(w, c, more), c, s) {
          OrderlyStepsCloseCleanly(Exec(w, c, more), c, s, keys);
        }
      }
    } else {
      var more, s := OpenFailureClosesOver(w, c);
      assert LeadsPastAFailure(w, c, more, s);
    }
  }
}
