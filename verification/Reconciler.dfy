/** One reconciler pass: scan, re-check under the lock, age or dead-letter, re-drive, heal missed joins. */
module Reconciler {
  import opened Common
  import opened Spine
  import opened Database
  import opened Folds
  import opened SpineEffects
  import DeadLetter

  datatype StaleUnit = StaleUnit(id: UnitId, target: Target)

  /** A unit's transaction can throw (and roll back), or its re-drive can throw after the commit. */
  datatype Fault = NoFault | TransactionFails | RedriveFails

  /** What one unit's handling meets: its transaction's clock and its fault. */
  datatype Env = Env(now: int, fault: Fault)

  datatype Policy = Policy(staleAfter: int, ceiling: nat)

  datatype Report = Report(redriven: nat, healed: nat, deadLettered: nat, failed: nat)

  const NOTHING: Report := Report(0, 0, 0, 0)

  function Plus(a: Report, b: Report): Report {
    Report(a.redriven + b.redriven, a.healed + b.healed, a.deadLettered + b.deadLettered, a.failed + b.failed)
  }

  /** The tables and what was counted on the way. */
  type PassState = (Tables, Report)

  // ---------------------------------------------------------------------------------------------
  // The re-drive / dead-letter protocol
  // ---------------------------------------------------------------------------------------------

  function ReconcileOne(tables: Tables, s: StaleUnit, p: Policy, redrives: bool, e: Env): (Tables, Report) {
    if e.fault == TransactionFails then (tables, NOTHING.(failed := 1))
    else if s.id !in tables then (tables, NOTHING)
    else
      var (u, outcome) := Reconcile(tables[s.id], s.target, p.staleAfter, p.ceiling, e.now);
      (tables[s.id := u],
       if outcome == DeadLettered then NOTHING.(deadLettered := 1)
       else if outcome == Aged && redrives then
         if e.fault == RedriveFails then NOTHING.(failed := 1) else NOTHING.(redriven := 1)
       else NOTHING)
  }

  function ReconcileAll(tables: Tables, units: seq<StaleUnit>, p: Policy, redrives: bool, env: StaleUnit -> Env)
    : (Tables, Report)
  {
    if units == [] then (tables, NOTHING)
    else
      var last := units[|units| - 1];
      var (before, report) := ReconcileAll(tables, units[..|units| - 1], p, redrives, env);
      var (after, one) := ReconcileOne(before, last, p, redrives, env(last));
      (after, Plus(report, one))
  }

  /** The shared transaction body, re-checking existence, status and staleness under the lock: whatever moved since the
    * scan, only a unit open and stale AT LOCK TIME is aged or dead-lettered, at the ceiling and not before. */
  method ReconcileUnderLock(db: Db, s: StaleUnit, p: Policy, now: int) returns (outcome: ReconcileOutcome)
    modifies db`units, db`strayLetters
    ensures db.strayLetters == old(db.strayLetters)
    ensures s.id !in old(db.units) ==> outcome == Gone && db.units == old(db.units)
    ensures s.id in old(db.units) ==>
              var (u, o) := Reconcile(old(db.units)[s.id], s.target, p.staleAfter, p.ceiling, now);
              outcome == o && db.units == old(db.units)[s.id := u]
    ensures s.id in old(db.units) ==>
              var u := old(db.units)[s.id];
              var due := IsOpen(u, s.target) && UpdatedAt(u, s.target) + p.staleAfter < now;
              && (outcome == DeadLettered <==> due && AttemptsOf(u, s.target) >= p.ceiling)
              && (outcome == Aged <==> due && AttemptsOf(u, s.target) < p.ceiling)
              && (outcome == ReclaimedElsewhere <==>
                    IsOpen(u, s.target) && now <= UpdatedAt(u, s.target) + p.staleAfter)
              && (!due ==> db.units == old(db.units))
  {
    if s.id in db.units {
      ReconcileActsOnOpenStaleUnits(db.units[s.id], s.target, p.staleAfter, p.ceiling, now);
    }
    if s.id !in db.units || (s.target.OfBranch? && s.target.key !in db.units[s.id].branches) {
      return Gone;
    }
    var u := db.units[s.id];
    if !IsOpen(u, s.target) {
      return AlreadyMoved;
    }
    if !IsStale(UpdatedAt(u, s.target), p.staleAfter, now) {
      return ReclaimedElsewhere;
    }
    var attempts := AttemptsOf(u, s.target);
    if AttemptsExhausted(attempts, p.ceiling) {
      DeadLetter.WriteDeadLetter(db, s.id, LetterKey(s.target), attempts, now);
      return DeadLettered;
    }
    match s.target {
      case OfStage =>
        db.units := db.units[s.id := u.(attempts := attempts + 1, updatedAt := now)];
      case OfBranch(k) =>
        var row := u.branches[k];
        db.units := db.units[s.id := u.(branches := u.branches[k := row.(attempts := attempts + 1, updatedAt := now)])];
    }
    return Aged;
  }

  lemma ReconcileAllSnoc(
    tables: Tables, units: seq<StaleUnit>, i: nat, p: Policy, redrives: bool, env: StaleUnit -> Env)
    requires i < |units|
    ensures var (before, report) := ReconcileAll(tables, units[..i], p, redrives, env);
            var (after, one) := ReconcileOne(before, units[i], p, redrives, env(units[i]));
            ReconcileAll(tables, units[..i + 1], p, redrives, env) == (after, Plus(report, one))
  {
    assert units[..i + 1][..i] == units[..i];
  }

  /** One stale unit: its transaction, the re-drive behind an aging, and the counter it ends in. */
  method ReconcileStaleUnit(
    db: Db, s: StaleUnit, p: Policy, redrives: bool, e: Env, report: Report)
    returns (counted: Report)
    modifies db`units, db`strayLetters
    ensures db.strayLetters == old(db.strayLetters)
    ensures var (after, one) := ReconcileOne(old(db.units), s, p, redrives, e);
            db.units == after && counted == Plus(report, one)
  {
    if e.fault == TransactionFails {
      return report.(failed := report.failed + 1);
    }
    var outcome := ReconcileUnderLock(db, s, p, e.now);
    if outcome == DeadLettered {
      return report.(deadLettered := report.deadLettered + 1);
    }
    if outcome == Aged && redrives {
      if e.fault == RedriveFails {
        return report.(failed := report.failed + 1);
      }
      return report.(redriven := report.redriven + 1);
    }
    return report;
  }

  /** The units are independent, so the bounded pool is one arbitrary order: the order of `units`. */
  method ReconcileStaleUnits(db: Db, units: seq<StaleUnit>, p: Policy, redrives: bool, env: StaleUnit -> Env)
    returns (report: Report)
    modifies db`units, db`strayLetters
    ensures db.strayLetters == old(db.strayLetters)
    ensures (db.units, report) == ReconcileAll(old(db.units), units, p, redrives, env)
  {
    report := NOTHING;
    for i := 0 to |units|
      invariant (db.units, report) == ReconcileAll(old(db.units), units[..i], p, redrives, env)
      invariant db.strayLetters == old(db.strayLetters)
    {
      ReconcileAllSnoc(old(db.units), units, i, p, redrives, env);
      report := ReconcileStaleUnit(db, units[i], p, redrives, env(units[i]), report);
    }
    assert units[..|units|] == units;
  }

  // ---------------------------------------------------------------------------------------------
  // Scans
  // ---------------------------------------------------------------------------------------------

  function StaleStages(tables: Tables, stage: string, staleAfter: int, now: int): set<StaleUnit> {
    set id | id in tables && id.stage == stage && tables[id].status == InProgress
             && IsStale(tables[id].updatedAt, staleAfter, now) :: StaleUnit(id, OfStage)
  }

  function StaleBranches(tables: Tables, stage: string, kind: BranchKind, staleAfter: int, now: int): set<StaleUnit> {
    set id, k | id in tables && id.stage == stage && k in tables[id].branches
                && tables[id].branches[k].kind == kind && tables[id].branches[k].status == BranchPending
                && IsStale(tables[id].branches[k].updatedAt, staleAfter, now) :: StaleUnit(id, OfBranch(k))
  }

  function MissedJoins(tables: Tables, stage: string, staleAfter: int, now: int): set<UnitId> {
    set id | id in tables && id.stage == stage && JoinMissed(tables[id], staleAfter, now)
  }

  /** A result set's rows in some order. */
  ghost predicate Lists<T(!new)>(rows: seq<T>, s: set<T>) {
    && (forall x :: x in rows <==> x in s)
    && (forall i, j :: 0 <= i < j < |rows| ==> rows[i] != rows[j])
  }

  method RowsOf<T(==, !new)>(s: set<T>) returns (rows: seq<T>)
    ensures Lists(rows, s)
  {
    rows := [];
    var left := s;
    while left != {}
      invariant left <= s && Lists(rows, s - left)
      decreases left
    {
      var x :| x in left;
      rows, left := rows + [x], left - {x};
    }
    assert s - left == s;
  }

  // ---------------------------------------------------------------------------------------------
  // Missed-join heal
  // ---------------------------------------------------------------------------------------------

  /** The caller's continuation on one unit: what it leaves, and whether it threw. */
  type Continuation = Unit -> (Unit, bool)

  function HealAll(tables: Tables, ids: seq<UnitId>, onJoin: Continuation): (Tables, Report) {
    if ids == [] then (tables, NOTHING)
    else
      var id := ids[|ids| - 1];
      var (before, report) := HealAll(tables, ids[..|ids| - 1], onJoin);
      if id !in before then (before, report)
      else
        var (u, threw) := onJoin(before[id]);
        (before[id := u], Plus(report, if threw then NOTHING.(failed := 1) else NOTHING.(healed := 1)))
  }

  /** What a heal leaves: nothing without a continuation, else its effect on every unit the scan lists, once each. */
  ghost predicate Healed(
    tables: Tables, stage: string, onJoin: Option<Continuation>, ids: seq<UnitId>, p: Policy, now: int,
    after: PassState)
  {
    if onJoin.None? then ids == [] && after == (tables, NOTHING)
    else Lists(ids, MissedJoins(tables, stage, p.staleAfter, now)) && after == HealAll(tables, ids, onJoin.value)
  }

  method HealMissedJoins(db: Db, stage: string, onJoin: Option<Continuation>, p: Policy, now: int)
    returns (report: Report, ids: seq<UnitId>)
    modifies db`units
    ensures Healed(old(db.units), stage, onJoin, ids, p, now, (db.units, report))
  {
    report, ids := NOTHING, [];
    if onJoin.None? {
      return;
    }
    ids := RowsOf(MissedJoins(db.units, stage, p.staleAfter, now));
    for i := 0 to |ids|
      invariant db.units.Keys == old(db.units).Keys
      invariant (db.units, report) == HealAll(old(db.units), ids[..i], onJoin.value)
    {
      var id := ids[i];
      assert id in ids && ids[..i + 1][..i] == ids[..i];
      var (u, threw) := onJoin.value(db.units[id]);
      db.units := db.units[id := u];
      if threw {
        report := report.(failed := report.failed + 1);
      } else {
        report := report.(healed := report.healed + 1);
      }
    }
    assert ids[..|ids|] == ids;
  }

  // ---------------------------------------------------------------------------------------------
  // The whole pass
  // ---------------------------------------------------------------------------------------------

  datatype Binding = Binding(stage: string, onJoin: Option<Continuation>)

  /** The orders in which the rows of one binding's three scans for stale units were handled, and those of its heal. */
  datatype Scans = Scans(stages: seq<StaleUnit>, owned: seq<StaleUnit>, delegated: seq<StaleUnit>)

  datatype Orders = Orders(scans: Scans, joins: seq<UnitId>)

  function AfterStages(tables: Tables, o: Scans, p: Policy, env: StaleUnit -> Env): PassState {
    ReconcileAll(tables, o.stages, p, true, env)
  }

  function AfterOwned(tables: Tables, o: Scans, p: Policy, env: StaleUnit -> Env): PassState {
    var (t, report) := AfterStages(tables, o, p, env);
    var (t', one) := ReconcileAll(t, o.owned, p, true, env);
    (t', Plus(report, one))
  }

  function AfterScans(tables: Tables, o: Scans, p: Policy, env: StaleUnit -> Env): PassState {
    var (t, report) := AfterOwned(tables, o, p, env);
    var (t', one) := ReconcileAll(t, o.delegated, p, false, env);
    (t', Plus(report, one))
  }

  function AfterHeal(st: PassState, b: Binding, joins: seq<UnitId>): PassState {
    if b.onJoin.None? then st
    else
      var (t, one) := HealAll(st.0, joins, b.onJoin.value);
      (t, Plus(st.1, one))
  }

  function PassBinding(tables: Tables, b: Binding, o: Orders, p: Policy, env: StaleUnit -> Env): PassState {
    AfterHeal(AfterScans(tables, o.scans, p, env), b, o.joins)
  }

  /** Each order lists what its scan saw when it ran. */
  ghost predicate ScansFit(tables: Tables, b: Binding, o: Scans, p: Policy, now: int, env: StaleUnit -> Env) {
    && Lists(o.stages, StaleStages(tables, b.stage, p.staleAfter, now))
    && Lists(o.owned, StaleBranches(AfterStages(tables, o, p, env).0, b.stage, Owned, p.staleAfter, now))
    && Lists(o.delegated, StaleBranches(AfterOwned(tables, o, p, env).0, b.stage, Delegated, p.staleAfter, now))
  }

  ghost predicate OrdersFit(tables: Tables, b: Binding, o: Orders, p: Policy, now: int, env: StaleUnit -> Env) {
    && ScansFit(tables, b, o.scans, p, now, env)
    && (if b.onJoin.None? then o.joins == []
        else Lists(o.joins, MissedJoins(AfterScans(tables, o.scans, p, env).0, b.stage, p.staleAfter, now)))
  }

  /** One binding's turn in a pass. */
  datatype Turn = Turn(binding: Binding, orders: Orders)

  function TakeTurn(p: Policy, env: StaleUnit -> Env): (PassState, Turn) -> PassState {
    (st: PassState, turn: Turn) =>
      var (t, one) := PassBinding(st.0, turn.binding, turn.orders, p, env);
      (t, Plus(st.1, one))
  }

  function PassAll(tables: Tables, turns: seq<Turn>, p: Policy, env: StaleUnit -> Env): PassState {
    Fold((tables, NOTHING), turns, TakeTurn(p, env))
  }

  ghost function TurnFits(p: Policy, now: int, env: StaleUnit -> Env): (PassState, Turn) -> bool {
    (st: PassState, turn: Turn) => OrdersFit(st.0, turn.binding, turn.orders, p, now, env)
  }

  /** The turns are those of `bindings`, in order. */
  ghost predicate TurnsOf(turns: seq<Turn>, bindings: seq<Binding>) {
    |turns| == |bindings| && forall i :: 0 <= i < |turns| ==> turns[i].binding == bindings[i]
  }

  /** The three scans for stale units, each reading what the handlers before it left. */
  method ReconcileScans(db: Db, b: Binding, p: Policy, now: int, env: StaleUnit -> Env)
    returns (report: Report, o: Scans)
    modifies db`units, db`strayLetters
    ensures db.strayLetters == old(db.strayLetters)
    ensures (db.units, report) == AfterScans(old(db.units), o, p, env)
    ensures ScansFit(old(db.units), b, o, p, now, env)
  {
    var stages := RowsOf(StaleStages(db.units, b.stage, p.staleAfter, now));
    var stale := ReconcileStaleUnits(db, stages, p, true, env);
    var owned := RowsOf(StaleBranches(db.units, b.stage, Owned, p.staleAfter, now));
    var ownedReport := ReconcileStaleUnits(db, owned, p, true, env);
    var delegated := RowsOf(StaleBranches(db.units, b.stage, Delegated, p.staleAfter, now));
    var delegatedReport := ReconcileStaleUnits(db, delegated, p, false, env);
    report := Plus(Plus(stale, ownedReport), delegatedReport);
    o := Scans(stages, owned, delegated);
  }

  lemma HealedIsAfterHeal(st: PassState, b: Binding, joins: seq<UnitId>, p: Policy, now: int, healed: PassState)
    requires Healed(st.0, b.stage, b.onJoin, joins, p, now, healed)
    ensures AfterHeal(st, b, joins) == (healed.0, Plus(st.1, healed.1))
    ensures if b.onJoin.None? then joins == [] else Lists(joins, MissedJoins(st.0, b.stage, p.staleAfter, now))
  {
  }

  method ReconcileBinding(db: Db, b: Binding, p: Policy, now: int, env: StaleUnit -> Env)
    returns (report: Report, orders: Orders)
    modifies db`units, db`strayLetters
    ensures db.strayLetters == old(db.strayLetters)
    ensures (db.units, report) == PassBinding(old(db.units), b, orders, p, env)
    ensures OrdersFit(old(db.units), b, orders, p, now, env)
  {
    var scanReport, scans := ReconcileScans(db, b, p, now, env);
    ghost var scanned := (db.units, scanReport);
    var joinReport, joins := HealMissedJoins(db, b.stage, b.onJoin, p, now);
    HealedIsAfterHeal(scanned, b, joins, p, now, (db.units, joinReport));
    report := Plus(scanReport, joinReport);
    orders := Orders(scans, joins);
  }

  /** Each binding's scans ran against the tables the bindings before it left. */
  ghost predicate AllOrdersFit(tables: Tables, turns: seq<Turn>, p: Policy, now: int, env: StaleUnit -> Env) {
    EachFits((tables, NOTHING), turns, TakeTurn(p, env), TurnFits(p, now, env))
  }

  lemma TurnsOfSnoc(turns: seq<Turn>, bindings: seq<Binding>, i: nat, o: Orders)
    requires i < |bindings| && TurnsOf(turns, bindings[..i])
    ensures TurnsOf(turns + [Turn(bindings[i], o)], bindings[..i + 1])
  {
  }

  method ReconcilePipeline(db: Db, bindings: seq<Binding>, p: Policy, now: int, env: StaleUnit -> Env)
    returns (report: Report, turns: seq<Turn>)
    modifies db`units, db`strayLetters
    ensures db.strayLetters == old(db.strayLetters)
    ensures TurnsOf(turns, bindings)
    ensures (db.units, report) == PassAll(old(db.units), turns, p, env)
    ensures AllOrdersFit(old(db.units), turns, p, now, env)
  {
    report, turns := NOTHING, [];
    for i := 0 to |bindings|
      invariant TurnsOf(turns, bindings[..i]) && db.strayLetters == old(db.strayLetters)
      invariant (db.units, report) == PassAll(old(db.units), turns, p, env)
      invariant AllOrdersFit(old(db.units), turns, p, now, env)
    {
      var one, o := ReconcileBinding(db, bindings[i], p, now, env);
      FoldSnoc((old(db.units), NOTHING), turns, Turn(bindings[i], o), TakeTurn(p, env), TurnFits(p, now, env));
      TurnsOfSnoc(turns, bindings, i, o);
      report := Plus(report, one);
      turns := turns + [Turn(bindings[i], o)];
    }
    assert bindings[..|bindings|] == bindings;
  }
}
