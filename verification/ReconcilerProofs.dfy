/** What a reconciler pass guarantees (Reconciler.dfy). */
module ReconcilerProofs {
  import opened Spine
  import opened Database
  import opened Reconciler

  // ---------------------------------------------------------------------------------------------
  // Bounded drain of one unit
  // ---------------------------------------------------------------------------------------------

  /** The unit after being handled at each of `times`, with no other progress in between. */
  ghost function Swept(u: Unit, t: Target, p: Policy, times: seq<int>): Unit {
    if times == [] then u
    else Reconcile(Swept(u, t, p, times[..|times| - 1]), t, p.staleAfter, p.ceiling, times[|times| - 1]).0
  }

  /** Each of these transactions finds the unit stale while it is still open. */
  ghost predicate FoundStale(u: Unit, t: Target, p: Policy, times: seq<int>) {
    forall i :: 0 <= i < |times| ==>
                  var before := Swept(u, t, p, times[..i]);
                  IsOpen(before, t) ==> IsStale(UpdatedAt(before, t), p.staleAfter, times[i])
  }

  ghost function Budget(u: Unit, t: Target, p: Policy): nat {
    if AttemptsOf(u, t) < p.ceiling then p.ceiling - AttemptsOf(u, t) else 0
  }

  /** An open stage or branch, owned or delegated alike, outlives exactly ceiling - attempts of its own reconcile
    * transactions that find it stale: each of them spends one attempt, the next one dead-letters it. */
  lemma {:induction false} StaleUnitDrainsExactlyOnBudget(u: Unit, t: Target, p: Policy, times: seq<int>)
    requires IsOpen(u, t) && FoundStale(u, t, p, times)
    ensures var after := Swept(u, t, p, times);
            && (IsOpen(after, t) <==> |times| <= Budget(u, t, p))
            && (IsOpen(after, t) ==> AttemptsOf(after, t) == AttemptsOf(u, t) + |times|)
            && (!IsOpen(after, t) ==> TargetFailed(after, t) && after.status == Failed && LetterKey(t) in after.letters)
  {
    if times != [] {
      var front := times[..|times| - 1];
      assert forall i :: 0 <= i <= |front| ==> front[..i] == times[..i];
      StaleUnitDrainsExactlyOnBudget(u, t, p, front);
    }
  }

  // ---------------------------------------------------------------------------------------------
  // Isolation inside a batch
  // ---------------------------------------------------------------------------------------------

  ghost predicate Within(units: seq<StaleUnit>, id: UnitId) {
    exists s <- units :: s.id == id
  }

  lemma {:induction false} OtherInstancesAreUntouched(
    tables: Tables, units: seq<StaleUnit>, p: Policy, redrives: bool, env: StaleUnit -> Env, id: UnitId)
    requires !Within(units, id)
    ensures var after := ReconcileAll(tables, units, p, redrives, env).0;
            after.Keys == tables.Keys && (id in tables ==> after[id] == tables[id])
  {
    if units != [] {
      var front, last := units[..|units| - 1], units[|units| - 1];
      assert last in units;
      OtherInstancesAreUntouched(tables, front, p, redrives, env, id);
    }
  }

  /** One unit's failure never costs the pass: in any order and whatever else fails, each stage in the batch ends
    * exactly as its own transaction decides on the row it had. */
  lemma {:induction false} EachStageIsHandledOnItsOwn(
    tables: Tables, units: seq<StaleUnit>, p: Policy, env: StaleUnit -> Env, id: UnitId)
    requires id in tables && StaleUnit(id, OfStage) in units
    requires forall s <- units :: s.target == OfStage
    requires forall i, j :: 0 <= i < j < |units| ==> units[i] != units[j]
    ensures var after := ReconcileAll(tables, units, p, true, env).0;
            var e := env(StaleUnit(id, OfStage));
            && after.Keys == tables.Keys
            && after[id] == if e.fault == TransactionFails then tables[id]
                            else ReconcileStage(tables[id], p.staleAfter, p.ceiling, e.now).0
  {
    var front, last := units[..|units| - 1], units[|units| - 1];
    assert units == front + [last];
    if last.id == id {
      assert last == StaleUnit(id, OfStage);
      assert !Within(front, id);
      OtherInstancesAreUntouched(tables, front, p, true, env, id);
    } else {
      EachStageIsHandledOnItsOwn(tables, front, p, env, id);
    }
  }

  /** Every unit of a stage batch that is still open and stale is counted exactly once. */
  lemma {:induction false} StageBatchCountsEveryUnit(
    tables: Tables, units: seq<StaleUnit>, p: Policy, env: StaleUnit -> Env)
    requires forall i, j :: 0 <= i < j < |units| ==> units[i] != units[j]
    requires forall s <- units ::
               && s.target == OfStage && s.id in tables
               && tables[s.id].status == InProgress && IsStale(tables[s.id].updatedAt, p.staleAfter, env(s).now)
    ensures var report := ReconcileAll(tables, units, p, true, env).1;
            report.redriven + report.deadLettered + report.failed == |units| && report.healed == 0
  {
    if units != [] {
      var front, last := units[..|units| - 1], units[|units| - 1];
      assert units == front + [last] && last in units;
      StageBatchCountsEveryUnit(tables, front, p, env);
      assert !Within(front, last.id);
      OtherInstancesAreUntouched(tables, front, p, true, env, last.id);
    }
  }

  // ---------------------------------------------------------------------------------------------
  // Exactly one action per finished fan-out
  // ---------------------------------------------------------------------------------------------

  /** A completed branch is never among the branches a scan returns. */
  lemma FinishedBranchesAreNotScanned(
    tables: Tables, units: seq<StaleUnit>, b: Binding, kind: BranchKind, p: Policy, now: int, id: UnitId)
    requires id in tables && AllBranchesCompleted(tables[id])
    requires Lists(units, StaleBranches(tables, b.stage, kind, p.staleAfter, now))
    ensures !Within(units, id)
  {
  }

  lemma {:induction false} HealTouchesOnlyItsCandidates(
    tables: Tables, ids: seq<UnitId>, onJoin: Continuation, id: UnitId)
    requires forall i, j :: 0 <= i < j < |ids| ==> ids[i] != ids[j]
    ensures var after := HealAll(tables, ids, onJoin).0;
            && after.Keys == tables.Keys
            && (id in tables ==> after[id] == if id in ids then onJoin(tables[id]).0 else tables[id])
  {
    if ids != [] {
      assert ids == ids[..|ids| - 1] + [ids[|ids| - 1]];
      HealTouchesOnlyItsCandidates(tables, ids[..|ids| - 1], onJoin, id);
    }
  }

  /** Failure-free, with every clock of the pass inside one staleness window after its scans. */
  ghost predicate Calm(p: Policy, now: int, env: StaleUnit -> Env) {
    && p.staleAfter >= 0
    && (forall s :: env(s).fault == NoFault && now <= env(s).now <= now + p.staleAfter)
  }

  /** Through the scans: aged or dead-lettered if InProgress, untouched if Pending. */
  lemma FinishedFanOutThroughScans(
    tables: Tables, b: Binding, o: Scans, p: Policy, now: int, env: StaleUnit -> Env, id: UnitId)
    requires Calm(p, now, env) && ScansFit(tables, b, o, p, now, env)
    requires id in tables && id.stage == b.stage && JoinMissed(tables[id], p.staleAfter, now)
    ensures var u, after := tables[id], AfterScans(tables, o, p, env).0;
            && id in after && after.Keys == tables.Keys
            && !Within(o.owned, id) && !Within(o.delegated, id)
            && (StaleUnit(id, OfStage) in o.stages <==> u.status == InProgress)
            && after[id] == if u.status == InProgress
                            then ReconcileStage(u, p.staleAfter, p.ceiling, env(StaleUnit(id, OfStage)).now).0 else u
  {
    var u := tables[id];
    var s := StaleUnit(id, OfStage);
    var afterStages := AfterStages(tables, o, p, env).0;
    assert s in o.stages <==> u.status == InProgress;
    if u.status == InProgress {
      EachStageIsHandledOnItsOwn(tables, o.stages, p, env, id);
    } else {
      assert !Within(o.stages, id);
      OtherInstancesAreUntouched(tables, o.stages, p, true, env, id);
    }
    assert AllBranchesCompleted(afterStages[id]);
    FinishedBranchesAreNotScanned(afterStages, o.owned, b, Owned, p, now, id);
    OtherInstancesAreUntouched(afterStages, o.owned, p, true, env, id);
    var afterOwned := AfterOwned(tables, o, p, env).0;
    FinishedBranchesAreNotScanned(afterOwned, o.delegated, b, Delegated, p, now, id);
    OtherInstancesAreUntouched(afterOwned, o.delegated, p, false, env, id);
  }

  /** An aged stage is fresh and a dead-lettered one Failed, so neither is a missed join any more. */
  lemma ActedOnIsNotMissed(u: Unit, p: Policy, now: int, at: int)
    requires p.staleAfter >= 0 && now <= at <= now + p.staleAfter
    requires u.status == InProgress && IsStale(u.updatedAt, p.staleAfter, now)
    ensures var u' := ReconcileStage(u, p.staleAfter, p.ceiling, at).0;
            && !JoinMissed(u', p.staleAfter, now)
            && u'.status == if u.attempts < p.ceiling then InProgress else Failed
  {
  }

  /** A stale stage whose branches all completed gets exactly one action from a calm pass: InProgress is aged or
    * dead-lettered, and its refreshed clock (or Failed status) hides it from the heal; Pending is healed, once,
    * if the binding has a continuation. */
  lemma FinishedFanOutGetsOneAction(
    tables: Tables, b: Binding, o: Orders, p: Policy, now: int, env: StaleUnit -> Env, id: UnitId)
    requires Calm(p, now, env) && OrdersFit(tables, b, o, p, now, env)
    requires id in tables && id.stage == b.stage && JoinMissed(tables[id], p.staleAfter, now)
    ensures var u, after := tables[id], PassBinding(tables, b, o, p, env).0;
            && after.Keys == tables.Keys
            && !Within(o.scans.owned, id) && !Within(o.scans.delegated, id)
            && (u.status == InProgress ==>
                  && StaleUnit(id, OfStage) in o.scans.stages && id !in o.joins
                  && after[id] == ReconcileStage(u, p.staleAfter, p.ceiling, env(StaleUnit(id, OfStage)).now).0
                  && after[id].status == (if u.attempts < p.ceiling then InProgress else Failed))
            && (u.status == Pending ==>
                  && StaleUnit(id, OfStage) !in o.scans.stages
                  && (id in o.joins <==> b.onJoin.Some?)
                  && after[id] == if b.onJoin.Some? then b.onJoin.value(u).0 else u)
  {
    FinishedFanOutThroughScans(tables, b, o.scans, p, now, env, id);
    if tables[id].status == InProgress {
      ActedOnIsNotMissed(tables[id], p, now, env(StaleUnit(id, OfStage)).now);
    }
    if b.onJoin.Some? {
      HealTouchesOnlyItsCandidates(AfterScans(tables, o.scans, p, env).0, o.joins, b.onJoin.value, id);
    }
  }
}
