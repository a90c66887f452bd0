/** Whole reconciler passes, one after another (Reconciler.dfy). */
module ReconcilerPasses {
  import opened Common
  import opened Spine
  import opened Database
  import opened Folds
  import opened Reconciler
  import opened ReconcilerProofs

  // ---------------------------------------------------------------------------------------------
  // One unit through one transaction, one batch, one binding, one pass
  // ---------------------------------------------------------------------------------------------

  /** Failed together with its stage. */
  ghost predicate Ended(u: Unit, t: Target) {
    TargetFailed(u, t) && u.status == Failed
  }

  ghost function KindOf(u: Unit, t: Target): Option<BranchKind> {
    if t.OfBranch? && t.key in u.branches then Some(u.branches[t.key].kind) else None
  }

  /** What handling may make of an open or ended unit: it ends or has ended; or it stays open, with one more of its
    * attempts spent and a fresh clock if it was hit itself, and as it was if not. */
  ghost predicate Handled(u: Unit, u': Unit, t: Target, hit: bool, p: Policy, now: int) {
    && KindOf(u', t) == KindOf(u, t)
    && (Ended(u', t) ||
        (&& IsOpen(u, t) && IsOpen(u', t)
         && if hit then AttemptsOf(u, t) < p.ceiling && AttemptsOf(u', t) == AttemptsOf(u, t) + 1
            && UpdatedAt(u', t) >= now
            else AttemptsOf(u', t) == AttemptsOf(u, t) && UpdatedAt(u', t) == UpdatedAt(u, t)))
  }

  ghost predicate Due(u: Unit, t: Target, p: Policy, now: int) {
    IsOpen(u, t) && IsStale(UpdatedAt(u, t), p.staleAfter, now)
  }

  /** The clocks of a pass do not run behind its scans, and the transaction of this one unit does not throw;
    * any other transaction, and any re-drive, may. */
  ghost predicate Undisturbed(p: Policy, now: int, env: StaleUnit -> Env, s: StaleUnit) {
    p.staleAfter >= 0 && env(s).fault != TransactionFails && forall x :: env(x).now >= now
  }

  lemma HandledByOne(u: Unit, x: Target, p: Policy, now: int, at: int, t: Target)
    requires IsOpen(u, t) || Ended(u, t)
    requires at >= now && (x == t && IsOpen(u, t) ==> IsStale(UpdatedAt(u, t), p.staleAfter, now))
    ensures Handled(u, Reconcile(u, x, p.staleAfter, p.ceiling, at).0, t, x == t, p, now)
  {
  }

  lemma HandledCompose(u: Unit, u1: Unit, u2: Unit, t: Target, first: bool, second: bool, p: Policy, now: int)
    requires Handled(u, u1, t, first, p, now) && Handled(u1, u2, t, second, p, now) && !(first && second)
    ensures Handled(u, u2, t, first || second, p, now)
  {
  }

  lemma {:induction false} HandledByBatch(
    tables: Tables, units: seq<StaleUnit>, p: Policy, redrives: bool, now: int, env: StaleUnit -> Env, s: StaleUnit)
    requires s.id in tables && Undisturbed(p, now, env, s)
    requires IsOpen(tables[s.id], s.target) || Ended(tables[s.id], s.target)
    requires forall i, j :: 0 <= i < j < |units| ==> units[i] != units[j]
    requires s in units && IsOpen(tables[s.id], s.target) ==> Due(tables[s.id], s.target, p, now)
    ensures var after := ReconcileAll(tables, units, p, redrives, env).0;
            s.id in after && Handled(tables[s.id], after[s.id], s.target, s in units, p, now)
  {
    if units != [] {
      var front, last := units[..|units| - 1], units[|units| - 1];
      assert units == front + [last];
      HandledByBatch(tables, front, p, redrives, now, env, s);
      var before := ReconcileAll(tables, front, p, redrives, env).0;
      var after := ReconcileAll(tables, units, p, redrives, env).0;
      if last.id == s.id && env(last).fault != TransactionFails {
        HandledByOne(before[s.id], last.target, p, now, env(last).now, s.target);
        HandledCompose(tables[s.id], before[s.id], after[s.id], s.target, s in front, last == s, p, now);
      }
    }
  }

  /** The heal leaves an open unit that is not stale, or any ended one, alone. */
  lemma HealLeavesHandledUnits(
    tables: Tables, ids: seq<UnitId>, stage: string, onJoin: Continuation, p: Policy, now: int, s: StaleUnit)
    requires s.id in tables && Lists(ids, MissedJoins(tables, stage, p.staleAfter, now))
    requires if IsOpen(tables[s.id], s.target) then s.id.stage == stage ==> !Due(tables[s.id], s.target, p, now)
             else Ended(tables[s.id], s.target)
    ensures var after := HealAll(tables, ids, onJoin).0;
            s.id in after && after[s.id] == tables[s.id]
  {
    HealTouchesOnlyItsCandidates(tables, ids, onJoin, s.id);
  }

  lemma HandledByTwoScans(
    tables: Tables, b: Binding, o: Scans, p: Policy, now: int, env: StaleUnit -> Env, s: StaleUnit)
    requires s.id in tables && Undisturbed(p, now, env, s) && ScansFit(tables, b, o, p, now, env)
    requires IsOpen(tables[s.id], s.target) || Ended(tables[s.id], s.target)
    ensures var after := AfterOwned(tables, o, p, env).0;
            && s.id in after && !(s in o.stages && s in o.owned)
            && Handled(tables[s.id], after[s.id], s.target, s in o.stages || s in o.owned, p, now)
            && (IsOpen(after[s.id], s.target) ==>
                  (s in o.stages || s in o.owned
                   <==> b.stage == s.id.stage && Due(tables[s.id], s.target, p, now)
                        && KindOf(tables[s.id], s.target) != Some(Delegated)))
  {
    var t1, t2 := AfterStages(tables, o, p, env).0, AfterOwned(tables, o, p, env).0;
    HandledByBatch(tables, o.stages, p, true, now, env, s);
    HandledByBatch(t1, o.owned, p, true, now, env, s);
    HandledCompose(tables[s.id], t1[s.id], t2[s.id], s.target, s in o.stages, s in o.owned, p, now);
  }

  /** The three scans of a binding meet an open unit at most once, and exactly once if it is due there. */
  lemma HandledByScans(
    tables: Tables, b: Binding, o: Scans, p: Policy, now: int, env: StaleUnit -> Env, s: StaleUnit)
    requires s.id in tables && Undisturbed(p, now, env, s) && ScansFit(tables, b, o, p, now, env)
    requires IsOpen(tables[s.id], s.target) || Ended(tables[s.id], s.target)
    ensures var after := AfterScans(tables, o, p, env).0;
            && s.id in after
            && var hit := b.stage == s.id.stage && Due(tables[s.id], s.target, p, now);
               Handled(tables[s.id], after[s.id], s.target, hit, p, now)
  {
    var t2, t3 := AfterOwned(tables, o, p, env).0, AfterScans(tables, o, p, env).0;
    HandledByTwoScans(tables, b, o, p, now, env, s);
    HandledByBatch(t2, o.delegated, p, false, now, env, s);
    HandledCompose(tables[s.id], t2[s.id], t3[s.id], s.target, s in o.stages || s in o.owned, s in o.delegated, p, now);
  }

  lemma HandledByBinding(
    tables: Tables, b: Binding, o: Orders, p: Policy, now: int, env: StaleUnit -> Env, s: StaleUnit)
    requires s.id in tables && Undisturbed(p, now, env, s) && OrdersFit(tables, b, o, p, now, env)
    requires IsOpen(tables[s.id], s.target) || Ended(tables[s.id], s.target)
    ensures var after := PassBinding(tables, b, o, p, env).0;
            && s.id in after
            && var hit := b.stage == s.id.stage && Due(tables[s.id], s.target, p, now);
               Handled(tables[s.id], after[s.id], s.target, hit, p, now)
  {
    HandledByScans(tables, b, o.scans, p, now, env, s);
    if b.onJoin.Some? {
      HealLeavesHandledUnits(AfterScans(tables, o.scans, p, env).0, o.joins, b.stage, b.onJoin.value, p, now, s);
    }
  }

  ghost predicate Bound(turns: seq<Turn>, stage: string) {
    exists i :: 0 <= i < |turns| && turns[i].binding.stage == stage
  }

  lemma BoundStep(turns: seq<Turn>, turn: Turn, stage: string)
    ensures Bound(turns + [turn], stage) <==> Bound(turns, stage) || turn.binding.stage == stage
  {
    var longer := turns + [turn];
    assert forall i :: 0 <= i < |turns| ==> longer[i] == turns[i];
    assert longer[|turns|] == turn;
  }

  /** What every turn keeps, the pass keeps. */
  lemma PassKeeps(
    tables: Tables, turns: seq<Turn>, p: Policy, now: int, env: StaleUnit -> Env, inv: (seq<Turn>, Tables) -> bool)
    requires AllOrdersFit(tables, turns, p, now, env) && inv([], tables)
    requires forall front: seq<Turn>, t: Tables, turn: Turn ::
               inv(front, t) && OrdersFit(t, turn.binding, turn.orders, p, now, env)
               ==> inv(front + [turn], PassBinding(t, turn.binding, turn.orders, p, env).0)
    ensures inv(turns, PassAll(tables, turns, p, env).0)
  {
    var onState := (front: seq<Turn>, st: PassState) => inv(front, st.0);
    forall front: seq<Turn>, st: PassState, turn: Turn | onState(front, st) && TurnFits(p, now, env)(st, turn)
      ensures onState(front + [turn], TakeTurn(p, env)(st, turn))
    {
      assert OrdersFit(st.0, turn.binding, turn.orders, p, now, env);
    }
    FoldKeeps((tables, NOTHING), turns, TakeTurn(p, env), TurnFits(p, now, env), onState);
  }

  /** What the turns so far made of a unit: an open one that is due lost one attempt if its stage had its turn. */
  ghost predicate SpentSoFar(u: Unit, after: Tables, turns: seq<Turn>, p: Policy, now: int, s: StaleUnit) {
    s.id in after
    && Handled(u, after[s.id], s.target, Bound(turns, s.id.stage) && Due(u, s.target, p, now), p, now)
  }

  /** A unit spent earlier in the pass has a fresh clock and is not due again. */
  lemma TurnSpendsOrEnds(
    u: Unit, before: Tables, front: seq<Turn>, turn: Turn, p: Policy, now: int, env: StaleUnit -> Env, s: StaleUnit)
    requires OrdersFit(before, turn.binding, turn.orders, p, now, env) && Undisturbed(p, now, env, s)
    requires SpentSoFar(u, before, front, p, now, s)
    ensures SpentSoFar(u, PassBinding(before, turn.binding, turn.orders, p, env).0, front + [turn], p, now, s)
  {
    HandledByBinding(before, turn.binding, turn.orders, p, now, env, s);
    BoundStep(front, turn, s.id.stage);
  }

  /** A whole pass spends exactly one attempt of an open unit that is due and bound, or ends it; it leaves any other
    * open unit as it was, or ends it with a sibling. Several bindings of one stage do not spend more. */
  lemma PassSpendsOrEnds(tables: Tables, turns: seq<Turn>, p: Policy, now: int, env: StaleUnit -> Env, s: StaleUnit)
    requires AllOrdersFit(tables, turns, p, now, env) && s.id in tables && Undisturbed(p, now, env, s)
    requires IsOpen(tables[s.id], s.target) || Ended(tables[s.id], s.target)
    ensures SpentSoFar(tables[s.id], PassAll(tables, turns, p, env).0, turns, p, now, s)
  {
    var inv := (front: seq<Turn>, t: Tables) => s.id in tables && SpentSoFar(tables[s.id], t, front, p, now, s);
    forall front: seq<Turn>, t: Tables, turn: Turn |
      inv(front, t) && OrdersFit(t, turn.binding, turn.orders, p, now, env)
      ensures inv(front + [turn], PassBinding(t, turn.binding, turn.orders, p, env).0)
    {
      TurnSpendsOrEnds(tables[s.id], t, front, turn, p, now, env, s);
    }
    PassKeeps(tables, turns, p, now, env, inv);
  }

  // ---------------------------------------------------------------------------------------------
  // Pass after pass
  // ---------------------------------------------------------------------------------------------

  /** One pass: when it scanned, what its units met, and its turns in order. */
  datatype Pass = Pass(now: int, env: StaleUnit -> Env, turns: seq<Turn>)

  ghost function AfterPasses(tables: Tables, passes: seq<Pass>, p: Policy): Tables {
    if passes == [] then tables
    else
      var front, last := passes[..|passes| - 1], passes[|passes| - 1];
      PassAll(AfterPasses(tables, front, p), last.turns, p, last.env).0
  }

  /** Passes with nothing else in between, each of which scans what is there, has a binding for the stage of `s`, and
    * finds `s` stale while it is open. */
  ghost predicate EachFindsStale(tables: Tables, passes: seq<Pass>, p: Policy, s: StaleUnit) {
    passes == [] ||
    var front, last := passes[..|passes| - 1], passes[|passes| - 1];
    var before := AfterPasses(tables, front, p);
    && EachFindsStale(tables, front, p, s)
    && AllOrdersFit(before, last.turns, p, last.now, last.env) && Bound(last.turns, s.id.stage)
    && Undisturbed(p, last.now, last.env, s)
    && (s.id in before && IsOpen(before[s.id], s.target) ==> Due(before[s.id], s.target, p, last.now))
  }

  /** Every open unit, stage or branch, owned or delegated, drains within its budget: a pass that leaves it open has
    * spent one of its attempts, so after more than ceiling - attempts passes it has failed, and its stage with it. */
  lemma {:induction false} OpenUnitsDrainWithinBudget(tables: Tables, passes: seq<Pass>, p: Policy, s: StaleUnit)
    requires s.id in tables && IsOpen(tables[s.id], s.target) && EachFindsStale(tables, passes, p, s)
    ensures var u, after := tables[s.id], AfterPasses(tables, passes, p);
            && s.id in after
            && (IsOpen(after[s.id], s.target) ==>
                  AttemptsOf(after[s.id], s.target) == AttemptsOf(u, s.target) + |passes|
                    && |passes| <= Budget(u, s.target, p))
            && (!IsOpen(after[s.id], s.target) ==> Ended(after[s.id], s.target))
            && (|passes| > Budget(u, s.target, p) ==> Ended(after[s.id], s.target))
  {
    if passes != [] {
      var front, last := passes[..|passes| - 1], passes[|passes| - 1];
      OpenUnitsDrainWithinBudget(tables, front, p, s);
      PassSpendsOrEnds(AfterPasses(tables, front, p), last.turns, p, last.now, last.env, s);
    }
  }

  // A branch can end well within its budget: here its stage has no attempts left
  const ID: UnitId := UnitId("instance", "stage")
  const SPENT: StaleUnit := StaleUnit(ID, OfStage)
  const WAITING: StaleUnit := StaleUnit(ID, OfBranch("waiting"))
  const FANNED_OUT: Unit :=
    Unit(InProgress, 5, 0, map["waiting" := BranchRow(Delegated, BranchPending, 0, 0)], map[], map[])
  const POLICY: Policy := Policy(10, 5)
  const TURN: Turn := Turn(Binding("stage", None), Orders(Scans([SPENT], [], []), []))

  ghost const STRUCK: Unit := WriteDeadLetter(FANNED_OUT, None, 5, 50)

  function Calmly(): StaleUnit -> Env {
    (s: StaleUnit) => Env(50, NoFault)
  }

  lemma SpentStageStrikes()
    ensures Reconcile(FANNED_OUT, OfStage, 10, 5, 50) == (STRUCK, DeadLettered)
    ensures Ended(STRUCK, WAITING.target) && forall k <- STRUCK.branches :: STRUCK.branches[k].status == BranchFailed
  {
  }

  ghost predicate Holds(tables: Tables, u: Unit) {
    tables.Keys == {ID} && tables[ID] == u
  }

  lemma BatchStrikes(tables: Tables, units: seq<StaleUnit>, env: StaleUnit -> Env)
    requires Holds(tables, FANNED_OUT) && units == [SPENT] && env(SPENT) == Env(50, NoFault)
    ensures Holds(ReconcileAll(tables, units, POLICY, true, env).0, STRUCK)
  {
    EachStageIsHandledOnItsOwn(tables, units, POLICY, env, ID);
    SpentStageStrikes();
  }

  lemma NothingIsStaleAfterTheStrike(tables: Tables, kind: BranchKind)
    requires Holds(tables, STRUCK)
    ensures StaleBranches(tables, "stage", kind, 10, 50) == {}
  {
    SpentStageStrikes();
  }

  lemma TurnStrikes(tables: Tables, turn: Turn, env: StaleUnit -> Env)
    requires Holds(tables, FANNED_OUT) && env(SPENT) == Env(50, NoFault)
    requires turn == Turn(Binding("stage", None), Orders(Scans([SPENT], [], []), []))
    ensures OrdersFit(tables, turn.binding, turn.orders, POLICY, 50, env)
    ensures Holds(PassBinding(tables, turn.binding, turn.orders, POLICY, env).0, STRUCK)
  {
    BatchStrikes(tables, turn.orders.scans.stages, env);
    assert StaleStages(tables, "stage", 10, 50) == {SPENT};
    NothingIsStaleAfterTheStrike(AfterStages(tables, turn.orders.scans, POLICY, env).0, Owned);
    NothingIsStaleAfterTheStrike(AfterOwned(tables, turn.orders.scans, POLICY, env).0, Delegated);
  }

  /** The drain's hypotheses hold of this one pass, and it ends a branch with five attempts to spare. */
  lemma BranchCanEndWithinItsBudget()
    ensures var tables, passes := map[ID := FANNED_OUT], [Pass(50, Calmly(), [TURN])];
            && Budget(FANNED_OUT, WAITING.target, POLICY) == 5 && EachFindsStale(tables, passes, POLICY, WAITING)
            && Holds(AfterPasses(tables, passes, POLICY), STRUCK) && Ended(STRUCK, WAITING.target)
  {
    var tables, pass := map[ID := FANNED_OUT], Pass(50, Calmly(), [TURN]);
    var start: PassState := (tables, NOTHING);
    TurnStrikes(tables, TURN, Calmly());
    SpentStageStrikes();
    FoldSnoc(start, [], TURN, TakeTurn(POLICY, Calmly()), TurnFits(POLICY, 50, Calmly()));
    assert [] + [TURN] == [TURN] && [pass][..0] == [];
    assert AllOrdersFit(tables, [TURN], POLICY, 50, Calmly());
    assert Holds(PassAll(tables, [TURN], POLICY, Calmly()).0, STRUCK);
    assert [TURN][0].binding.stage == WAITING.id.stage;
    assert Undisturbed(POLICY, 50, Calmly(), WAITING) && Due(FANNED_OUT, WAITING.target, POLICY, 50);
    assert AfterPasses(tables, [], POLICY) == tables && EachFindsStale(tables, [], POLICY, WAITING);
  }

  // ---------------------------------------------------------------------------------------------
  // One action per finished fan-out, over a whole pass
  // ---------------------------------------------------------------------------------------------

  ghost predicate OneBindingPerStage(turns: seq<Turn>) {
    forall i, j :: 0 <= i < j < |turns| ==> turns[i].binding.stage != turns[j].binding.stage
  }

  ghost predicate ListedIn(o: Orders, id: UnitId) {
    Within(o.scans.stages, id) || Within(o.scans.owned, id) || Within(o.scans.delegated, id) || id in o.joins
  }

  /** A binding of another stage neither lists nor changes the unit. */
  lemma OtherBindingsLeaveTheUnit(tables: Tables, turn: Turn, p: Policy, now: int, env: StaleUnit -> Env, id: UnitId)
    requires OrdersFit(tables, turn.binding, turn.orders, p, now, env) && id in tables && id.stage != turn.binding.stage
    ensures var after := PassBinding(tables, turn.binding, turn.orders, p, env).0;
            id in after && after[id] == tables[id] && !ListedIn(turn.orders, id)
  {
    var o := turn.orders;
    assert !Within(o.scans.stages, id) && !Within(o.scans.owned, id) && !Within(o.scans.delegated, id)
      && id !in o.joins;
    OtherInstancesAreUntouched(tables, o.scans.stages, p, true, env, id);
    OtherInstancesAreUntouched(AfterStages(tables, o.scans, p, env).0, o.scans.owned, p, true, env, id);
    OtherInstancesAreUntouched(AfterOwned(tables, o.scans, p, env).0, o.scans.delegated, p, false, env, id);
    if turn.binding.onJoin.Some? {
      HealTouchesOnlyItsCandidates(AfterScans(tables, o.scans, p, env).0, o.joins, turn.binding.onJoin.value, id);
    }
  }

  ghost predicate LeftAlone(tables: Tables, after: Tables, turns: seq<Turn>, id: UnitId) {
    && id in tables && id in after && after[id] == tables[id]
    && forall i :: 0 <= i < |turns| ==> !ListedIn(turns[i].orders, id)
  }

  /** A stage whose branches exist and have all completed, which has not finished, and which nobody touched for longer
    * than `staleAfter`. */
  ghost predicate LeftUnjoined(u: Unit, p: Policy, now: int) {
    && (u.status == Pending || u.status == InProgress) && u.updatedAt + p.staleAfter < now
    && u.branches != map[] && OpenBranches(u) == {} && forall k <- u.branches :: u.branches[k].status != BranchFailed
  }

  /** The missed-join scan looks for exactly these. */
  lemma MissedJoinsAreLeftUnjoined(u: Unit, p: Policy, now: int)
    ensures JoinMissed(u, p.staleAfter, now) <==> LeftUnjoined(u, p, now)
  {
    if OpenBranches(u) == {} {
      forall k <- u.branches ensures u.branches[k].status != BranchPending {
        assert k !in OpenBranches(u);
      }
    }
  }

  /** A failure-free pass takes exactly one action on a stale unfinished stage whose branches all completed: its own
    * binding ages or dead-letters it if it is InProgress, and heals it once if it is Pending and has a continuation.
    * A pass that does not bind its stage leaves it alone. */
  lemma FinishedFanOutGetsOneActionPerPass(
    tables: Tables, turns: seq<Turn>, p: Policy, now: int, env: StaleUnit -> Env, id: UnitId)
    requires Calm(p, now, env) && AllOrdersFit(tables, turns, p, now, env)
    requires OneBindingPerStage(turns)
    requires id in tables && LeftUnjoined(tables[id], p, now)
    ensures var after := PassAll(tables, turns, p, env).0;
            if Bound(turns, id.stage)
            then ActedOnce(tables, after, turns, p, env, id)
            else LeftAlone(tables, after, turns, id)
  {
    var inv := (front: seq<Turn>, t: Tables) =>
      OneBindingPerStage(front) ==>
        if Bound(front, id.stage) then ActedOnce(tables, t, front, p, env, id) else LeftAlone(tables, t, front, id);
    MissedJoinsAreLeftUnjoined(tables[id], p, now);
    forall front: seq<Turn>, t: Tables, turn: Turn |
      inv(front, t) && OrdersFit(t, turn.binding, turn.orders, p, now, env)
      ensures inv(front + [turn], PassBinding(t, turn.binding, turn.orders, p, env).0)
    {
      BoundStep(front, turn, id.stage);
      if OneBindingPerStage(front + [turn]) {
        OneBindingPerStagePrefix(front, turn);
        if turn.binding.stage == id.stage {
          OwnBindingActsOnce(t, turn, p, now, env, id);
          ActedInLastTurn(tables, t, PassBinding(t, turn.binding, turn.orders, p, env).0, front, turn, p, env, id);
        } else {
          OtherBindingsLeaveTheUnit(t, turn, p, now, env, id);
          if Bound(front, id.stage) {
            ActedBefore(tables, t, PassBinding(t, turn.binding, turn.orders, p, env).0, front, turn, p, env, id);
          }
        }
      }
    }
    PassKeeps(tables, turns, p, now, env, inv);
  }

  /** One turn took its action on the unit; no other turn listed it. */
  ghost predicate ActedOnce(
    tables: Tables, after: Tables, turns: seq<Turn>, p: Policy, env: StaleUnit -> Env, id: UnitId) {
    && id in tables && id in after
    && exists i :: 0 <= i < |turns| && turns[i].binding.stage == id.stage
                   && OneAction(tables[id], after[id], turns[i], p, env, id)
                   && forall j :: 0 <= j < |turns| && j != i ==> !ListedIn(turns[j].orders, id)
  }

  lemma OneBindingPerStagePrefix(front: seq<Turn>, turn: Turn)
    requires OneBindingPerStage(front + [turn])
    ensures OneBindingPerStage(front) && !Bound(front, turn.binding.stage)
  {
    var longer := front + [turn];
    assert forall i :: 0 <= i < |front| ==> longer[i] == front[i];
    assert longer[|front|] == turn;
  }

  lemma ActedInLastTurn(
    tables: Tables, t: Tables, after: Tables, front: seq<Turn>, turn: Turn, p: Policy, env: StaleUnit -> Env,
    id: UnitId)
    requires LeftAlone(tables, t, front, id) && id in after && turn.binding.stage == id.stage
    requires OneAction(t[id], after[id], turn, p, env, id)
    ensures ActedOnce(tables, after, front + [turn], p, env, id)
  {
    var longer := front + [turn];
    assert forall i :: 0 <= i < |front| ==> longer[i] == front[i];
    assert longer[|front|] == turn;
  }

  lemma ActedBefore(
    tables: Tables, t: Tables, after: Tables, front: seq<Turn>, turn: Turn, p: Policy, env: StaleUnit -> Env,
    id: UnitId)
    requires ActedOnce(tables, t, front, p, env, id) && id in after && after[id] == t[id] && !ListedIn(turn.orders, id)
    ensures ActedOnce(tables, after, front + [turn], p, env, id)
  {
    var longer := front + [turn];
    assert forall i :: 0 <= i < |front| ==> longer[i] == front[i];
    assert longer[|front|] == turn;
  }

  lemma OwnBindingActsOnce(tables: Tables, turn: Turn, p: Policy, now: int, env: StaleUnit -> Env, id: UnitId)
    requires Calm(p, now, env) && OrdersFit(tables, turn.binding, turn.orders, p, now, env)
    requires id in tables && id.stage == turn.binding.stage && JoinMissed(tables[id], p.staleAfter, now)
    ensures var after := PassBinding(tables, turn.binding, turn.orders, p, env).0;
            id in after && OneAction(tables[id], after[id], turn, p, env, id)
  {
    FinishedFanOutGetsOneAction(tables, turn.binding, turn.orders, p, now, env, id);
  }

  ghost predicate OneAction(u: Unit, u': Unit, turn: Turn, p: Policy, env: StaleUnit -> Env, id: UnitId) {
    && !Within(turn.orders.scans.owned, id) && !Within(turn.orders.scans.delegated, id)
    && (u.status == InProgress ==>
          && StaleUnit(id, OfStage) in turn.orders.scans.stages && id !in turn.orders.joins
          && u' == ReconcileStage(u, p.staleAfter, p.ceiling, env(StaleUnit(id, OfStage)).now).0
          && u'.status == (if u.attempts < p.ceiling then InProgress else Failed))
    && (u.status == Pending ==>
          && StaleUnit(id, OfStage) !in turn.orders.scans.stages
          && (id in turn.orders.joins <==> turn.binding.onJoin.Some?)
          && u' == if turn.binding.onJoin.Some? then turn.binding.onJoin.value(u).0 else u)
  }
}
