/** What a reconciler pass reports, counted against the tables it found (Reconciler.dfy). */
module ReconcilerReports {
  import opened Common
  import opened Spine
  import opened SpineEffects
  import opened Database
  import opened Folds
  import opened Reconciler
  import opened ReconcilerProofs
  import opened ReconcilerPasses

  // ---------------------------------------------------------------------------------------------
  // Counting
  // ---------------------------------------------------------------------------------------------

  lemma ListingExists<T(!new)>(s: set<T>)
    ensures exists q: seq<T> :: Lists(q, s)
  {
    if s == {} {
      assert Lists<T>([], s);
    } else {
      var x :| x in s;
      ListingExists(s - {x});
      var q: seq<T> :| Lists(q, s - {x});
      assert Lists(q + [x], s);
    }
  }

  ghost function Listing<T(!new)>(s: set<T>): (q: seq<T>)
    ensures Lists(q, s)
  {
    ListingExists(s);
    var q: seq<T> :| Lists(q, s);
    q
  }

  ghost function Count<T(!new)>(q: seq<T>, f: T -> bool): nat {
    if q == [] then 0
    else Count(q[..|q| - 1], f) + if f(q[|q| - 1]) then 1 else 0
  }

  /** How many elements of `s` satisfy `f`. */
  ghost function Tally<T(!new)>(s: set<T>, f: T -> bool): nat {
    Count(Listing(s), f)
  }

  lemma ChosenGrow<T(!new)>(front: seq<T>, last: T, f: T -> bool)
    requires last !in front
    ensures var fewer, chosen := (set x | x in front && f(x)), (set x | x in front + [last] && f(x));
            if f(last) then |chosen| == |fewer| + 1 else chosen == fewer
  {
    var fewer := set x | x in front && f(x);
    if f(last) {
      assert (set x | x in front + [last] && f(x)) == fewer + {last};
    }
  }

  lemma {:induction false} CountIsTheSize<T(!new)>(q: seq<T>, f: T -> bool)
    requires forall i, j :: 0 <= i < j < |q| ==> q[i] != q[j]
    ensures Count(q, f) == |set x | x in q && f(x)|
  {
    if q == [] {
      assert (set x | x in q && f(x)) == {};
    } else {
      var front, last := q[..|q| - 1], q[|q| - 1];
      assert q == front + [last] && last !in front;
      CountIsTheSize(front, f);
      ChosenGrow(front, last, f);
    }
  }

  lemma TallyIsTheSize<T(!new)>(s: set<T>, f: T -> bool)
    ensures Tally(s, f) == |set x | x in s && f(x)|
  {
    CountIsTheSize(Listing(s), f);
    assert (set x | x in Listing(s) && f(x)) == (set x | x in s && f(x));
  }

  lemma TallyGrows<T(!new)>(s: set<T>, x: T, f: T -> bool)
    requires x !in s
    ensures f(x) ==> Tally(s + {x}, f) == Tally(s, f) + 1
    ensures !f(x) ==> Tally(s + {x}, f) == Tally(s, f)
  {
    hide Tally;
    TallyIsTheSize(s, f);
    TallyIsTheSize(s + {x}, f);
    var before := set y | y in s && f(y);
    assert (set y | y in s + {x} && f(y)) == if f(x) then before + {x} else before;
  }

  lemma TallyAgrees<T(!new)>(s: set<T>, f: T -> bool, g: T -> bool)
    requires forall x <- s :: f(x) == g(x)
    ensures Tally(s, f) == Tally(s, g)
  {
    hide Tally;
    TallyIsTheSize(s, f);
    TallyIsTheSize(s, g);
    assert (set x | x in s && f(x)) == (set x | x in s && g(x));
  }

  lemma TallyJoins<T(!new)>(a: set<T>, b: set<T>, f: T -> bool)
    requires a !! b
    ensures Tally(a + b, f) == Tally(a, f) + Tally(b, f)
  {
    hide Tally;
    TallyIsTheSize(a, f);
    TallyIsTheSize(b, f);
    TallyIsTheSize(a + b, f);
    var fa, fb := (set x | x in a && f(x)), (set x | x in b && f(x));
    assert (set x | x in a + b && f(x)) == fa + fb;
  }

  lemma TallyNone<T(!new)>(f: T -> bool)
    ensures Tally({}, f) == 0
  {
    hide Tally;
    TallyIsTheSize({}, f);
    assert (set x | x in {} && f(x)) == {};
  }

  ghost function Elements<T(!new)>(xs: seq<T>): set<T> {
    set x | x in xs
  }

  lemma ElementsSnoc<T(!new)>(front: seq<T>, last: T)
    ensures Elements(front + [last]) == Elements(front) + {last}
  {
  }

  // ---------------------------------------------------------------------------------------------
  // One heal
  // ---------------------------------------------------------------------------------------------

  ghost function Throws(tables: Tables, onJoin: Continuation): UnitId -> bool {
    (id: UnitId) => id in tables && onJoin(tables[id]).1
  }

  ghost function Returns(tables: Tables, onJoin: Continuation): UnitId -> bool {
    (id: UnitId) => id in tables && !onJoin(tables[id]).1
  }

  ghost predicate Distinct<T(!new)>(xs: seq<T>) {
    forall i, j :: 0 <= i < j < |xs| ==> xs[i] != xs[j]
  }

  lemma DistinctSnoc<T(!new)>(xs: seq<T>)
    requires Distinct(xs) && xs != []
    ensures var front, last := xs[..|xs| - 1], xs[|xs| - 1];
            && Distinct(front) && last !in front && Elements(xs) == Elements(front) + {last}
  {
    assert xs == xs[..|xs| - 1] + [xs[|xs| - 1]];
  }

  lemma HealStep(tables: Tables, ids: seq<UnitId>, onJoin: Continuation)
    requires Distinct(ids) && ids != [] && ids[|ids| - 1] in tables
    ensures HealAll(tables, ids, onJoin).1
            == Plus(HealAll(tables, ids[..|ids| - 1], onJoin).1,
                    if onJoin(tables[ids[|ids| - 1]]).1 then Report(0, 0, 0, 1) else Report(0, 1, 0, 0))
  {
    DistinctSnoc(ids);
    HealTouchesOnlyItsCandidates(tables, ids[..|ids| - 1], onJoin, ids[|ids| - 1]);
  }

  ghost function HealTally(tables: Tables, ids: set<UnitId>, onJoin: Continuation): Report {
    Report(0, Tally(ids, Returns(tables, onJoin)), 0, Tally(ids, Throws(tables, onJoin)))
  }

  /** Each listed unit counts once: healed if its continuation returned, failed if it threw. */
  lemma {:induction false} HealCountsEveryContinuation(tables: Tables, ids: seq<UnitId>, onJoin: Continuation)
    requires Distinct(ids) && forall id <- ids :: id in tables
    ensures HealAll(tables, ids, onJoin).1 == HealTally(tables, Elements(ids), onJoin)
  {
    hide Tally;
    if ids == [] {
      assert Elements(ids) == {};
      TallyNone(Returns(tables, onJoin));
      TallyNone(Throws(tables, onJoin));
    } else {
      var front, last := ids[..|ids| - 1], ids[|ids| - 1];
      DistinctSnoc(ids);
      HealCountsEveryContinuation(tables, front, onJoin);
      HealStep(tables, ids, onJoin);
      TallyGrows(Elements(front), last, Returns(tables, onJoin));
      TallyGrows(Elements(front), last, Throws(tables, onJoin));
    }
  }

  // ---------------------------------------------------------------------------------------------
  // One batch
  // ---------------------------------------------------------------------------------------------

  ghost predicate DueIn(tables: Tables, s: StaleUnit, p: Policy, now: int) {
    s.id in tables && Due(tables[s.id], s.target, p, now)
  }

  ghost predicate Runs(env: StaleUnit -> Env, s: StaleUnit) {
    env(s).fault != TransactionFails
  }

  /** `s` has no attempts left, and its transaction gets through. */
  ghost predicate Spent(tables: Tables, s: StaleUnit, p: Policy, env: StaleUnit -> Env) {
    s.id in tables && AttemptsOf(tables[s.id], s.target) >= p.ceiling && Runs(env, s)
  }

  /** The units with a spent row among `done`. */
  ghost function StruckBy(tables: Tables, done: set<StaleUnit>, p: Policy, env: StaleUnit -> Env): set<UnitId> {
    set s | s in done && Spent(tables, s, p, env) :: s.id
  }

  ghost function HitsOn(done: set<StaleUnit>, env: StaleUnit -> Env, id: UnitId): set<Target> {
    set s | s in done && s.id == id && Runs(env, s) :: s.target
  }

  ghost predicate ClosedOff(u: Unit) {
    u.status == Failed && forall t :: !IsOpen(u, t)
  }

  /** Same statuses and kinds everywhere; the rows of `hit` have a clock not before `now`, all others are as they
    * were. */
  ghost predicate AgedOnly(u: Unit, u': Unit, hit: set<Target>, now: int) {
    && u'.status == u.status && u'.branches.Keys == u.branches.Keys && (hit == {} ==> u' == u)
    && (forall k <- u.branches ::
          u'.branches[k].status == u.branches[k].status && u'.branches[k].kind == u.branches[k].kind)
    && (forall t :: if t in hit then UpdatedAt(u', t) >= now
                    else AttemptsOf(u', t) == AttemptsOf(u, t) && UpdatedAt(u', t) == UpdatedAt(u, t))
  }

  /** What handling `done` has made of every unit: closed off if a spent row was among them, else only aged. */
  ghost predicate LeftBy(
    tables: Tables, after: Tables, done: set<StaleUnit>, p: Policy, now: int, env: StaleUnit -> Env) {
    && after.Keys == tables.Keys
    && forall id <- tables ::
         if id in StruckBy(tables, done, p, env) then ClosedOff(after[id])
         else AgedOnly(tables[id], after[id], HitsOn(done, env, id), now)
  }

  ghost predicate OnTime(p: Policy, now: int, env: StaleUnit -> Env) {
    p.staleAfter >= 0 && forall x :: env(x).now >= now
  }

  /** The re-drive goes out. */
  ghost function Redrives(redrives: bool, env: StaleUnit -> Env): StaleUnit -> bool {
    (s: StaleUnit) => redrives && env(s).fault == NoFault
  }

  /** The transaction or the re-drive throws. */
  ghost function Fails(redrives: bool, env: StaleUnit -> Env): StaleUnit -> bool {
    (s: StaleUnit) => env(s).fault == TransactionFails || (redrives && env(s).fault == RedriveFails)
  }

  lemma AgingAddsAHit(u: Unit, v: Unit, hit: set<Target>, t: Target, p: Policy, now: int, at: int)
    requires AgedOnly(u, v, hit, now) && t !in hit && at >= now
    requires Due(u, t, p, now)
    ensures var (v', outcome) := Reconcile(v, t, p.staleAfter, p.ceiling, at);
            && outcome == (if AttemptsOf(u, t) >= p.ceiling then DeadLettered else Aged)
            && if AttemptsOf(u, t) >= p.ceiling then ClosedOff(v') else AgedOnly(u, v', hit + {t}, now)
  {
    ReconcileActsOnOpenStaleUnits(v, t, p.staleAfter, p.ceiling, at);
    assert IsOpen(v, t) && UpdatedAt(v, t) == UpdatedAt(u, t);
  }

  lemma ClosedStaysClosed(v: Unit, t: Target, p: Policy, at: int)
    requires ClosedOff(v)
    ensures var (v', outcome) := Reconcile(v, t, p.staleAfter, p.ceiling, at);
            v' == v && outcome != DeadLettered && outcome != Aged
  {
    ReconcileActsOnOpenStaleUnits(v, t, p.staleAfter, p.ceiling, at);
  }

  lemma HandledGrows(tables: Tables, done: set<StaleUnit>, s: StaleUnit, p: Policy, env: StaleUnit -> Env)
    requires s.id in tables && s !in done
    ensures StruckBy(tables, done + {s}, p, env)
            == StruckBy(tables, done, p, env) + if Spent(tables, s, p, env) then {s.id} else {}
    ensures forall id ::
              HitsOn(done + {s}, env, id)
              == HitsOn(done, env, id) + if s.id == id && Runs(env, s) then {s.target} else {}
    ensures s.target !in HitsOn(done, env, s.id)
  {
  }

  /** The unit of `s`, where it is handled. */
  lemma OwnUnitAfterOne(
    tables: Tables, before: Tables, done: set<StaleUnit>, s: StaleUnit, p: Policy, now: int, redrives: bool,
    env: StaleUnit -> Env)
    requires OnTime(p, now, env) && LeftBy(tables, before, done, p, now, env)
    requires s !in done && DueIn(tables, s, p, now)
    ensures var (after, one) := ReconcileOne(before, s, p, redrives, env(s));
            var struck := s.id in StruckBy(tables, done, p, env);
            var hit := HitsOn(done, env, s.id) + if Runs(env, s) then {s.target} else {};
            && after.Keys == before.Keys
            && (if struck || Spent(tables, s, p, env) then ClosedOff(after[s.id])
                else AgedOnly(tables[s.id], after[s.id], hit, now))
            && one.healed == 0
            && one.deadLettered == (if Spent(tables, s, p, env) && !struck then 1 else 0)
            && (!struck && !Spent(tables, s, p, env) ==>
                  && one.redriven == (if Redrives(redrives, env)(s) then 1 else 0)
                  && one.failed == (if Fails(redrives, env)(s) then 1 else 0))
  {
    HandledGrows(tables, done, s, p, env);
    if Runs(env, s) {
      if s.id in StruckBy(tables, done, p, env) {
        ClosedStaysClosed(before[s.id], s.target, p, env(s).now);
      } else {
        AgingAddsAHit(tables[s.id], before[s.id], HitsOn(done, env, s.id), s.target, p, now, env(s).now);
      }
    }
  }

  lemma OtherUnitAfterOne(
    tables: Tables, before: Tables, done: set<StaleUnit>, s: StaleUnit, p: Policy, now: int, redrives: bool,
    env: StaleUnit -> Env, id: UnitId)
    requires LeftBy(tables, before, done, p, now, env) && s.id in tables && s !in done
    requires id in tables && id != s.id
    ensures var after := ReconcileOne(before, s, p, redrives, env(s)).0;
            && id in after
            && if id in StruckBy(tables, done + {s}, p, env) then ClosedOff(after[id])
               else AgedOnly(tables[id], after[id], HitsOn(done + {s}, env, id), now)
  {
    HandledGrows(tables, done, s, p, env);
    assert ReconcileOne(before, s, p, redrives, env(s)).0[id] == before[id];
    assert HitsOn(done + {s}, env, id) == HitsOn(done, env, id);
  }

  lemma OneMoreDone(
    tables: Tables, before: Tables, done: set<StaleUnit>, s: StaleUnit, p: Policy, now: int, redrives: bool,
    env: StaleUnit -> Env)
    requires OnTime(p, now, env) && LeftBy(tables, before, done, p, now, env)
    requires s !in done && DueIn(tables, s, p, now)
    ensures LeftBy(tables, ReconcileOne(before, s, p, redrives, env(s)).0, done + {s}, p, now, env)
  {
    var after := ReconcileOne(before, s, p, redrives, env(s)).0;
    HandledGrows(tables, done, s, p, env);
    OwnUnitAfterOne(tables, before, done, s, p, now, redrives, env);
    forall id | id in tables && id != s.id
      ensures if id in StruckBy(tables, done + {s}, p, env) then ClosedOff(after[id])
              else AgedOnly(tables[id], after[id], HitsOn(done + {s}, env, id), now)
    {
      OtherUnitAfterOne(tables, before, done, s, p, now, redrives, env, id);
    }
  }

  // What a batch counts, handling `units` after `done`

  ghost predicate BatchCounts(
    tables: Tables, done: set<StaleUnit>, units: set<StaleUnit>, p: Policy, redrives: bool, env: StaleUnit -> Env,
    report: Report)
  {
    var struck := StruckBy(tables, done + units, p, env);
    && report.healed == 0
    && report.deadLettered == |struck| - |StruckBy(tables, done, p, env)|
    && (struck == {} ==>
          && report.redriven == Tally(units, Redrives(redrives, env))
          && report.failed == Tally(units, Fails(redrives, env)))
  }

  lemma CountsGrow(
    tables: Tables, done: set<StaleUnit>, units: set<StaleUnit>, s: StaleUnit, p: Policy, redrives: bool,
    env: StaleUnit -> Env, report: Report, one: Report)
    requires s.id in tables && s !in done + units && BatchCounts(tables, done, units, p, redrives, env, report)
    requires var struck := s.id in StruckBy(tables, done + units, p, env);
             && one.healed == 0
             && one.deadLettered == (if Spent(tables, s, p, env) && !struck then 1 else 0)
             && (!struck && !Spent(tables, s, p, env) ==>
                   && one.redriven == (if Redrives(redrives, env)(s) then 1 else 0)
                   && one.failed == (if Fails(redrives, env)(s) then 1 else 0))
    ensures BatchCounts(tables, done, units + {s}, p, redrives, env, Plus(report, one))
  {
    hide Tally, Redrives, Fails, Spent, StruckBy;
    HandledGrows(tables, done + units, s, p, env);
    assert done + units + {s} == done + (units + {s});
    TallyGrows(units, s, Redrives(redrives, env));
    TallyGrows(units, s, Fails(redrives, env));
  }

  lemma BatchStep(
    tables: Tables, t: Tables, done: set<StaleUnit>, units: set<StaleUnit>, s: StaleUnit, p: Policy, now: int,
    redrives: bool, env: StaleUnit -> Env, report: Report)
    requires OnTime(p, now, env) && LeftBy(tables, t, done + units, p, now, env)
    requires BatchCounts(tables, done, units, p, redrives, env, report)
    requires s !in done + units && DueIn(tables, s, p, now)
    ensures var (after, one) := ReconcileOne(t, s, p, redrives, env(s));
            && LeftBy(tables, after, done + (units + {s}), p, now, env)
            && BatchCounts(tables, done, units + {s}, p, redrives, env, Plus(report, one))
  {
    hide Tally;
    OneMoreDone(tables, t, done + units, s, p, now, redrives, env);
    OwnUnitAfterOne(tables, t, done + units, s, p, now, redrives, env);
    CountsGrow(tables, done, units, s, p, redrives, env, report, ReconcileOne(t, s, p, redrives, env(s)).1);
    assert done + units + {s} == done + (units + {s});
  }

  /** Distinct units, none handled before, each due in the tables the pass found. */
  ghost predicate Batch(tables: Tables, done: set<StaleUnit>, units: seq<StaleUnit>, p: Policy, now: int) {
    && (forall i, j :: 0 <= i < j < |units| ==> units[i] != units[j])
    && (forall s <- units :: s !in done && DueIn(tables, s, p, now))
  }

  lemma BatchSnoc(tables: Tables, done: set<StaleUnit>, front: seq<StaleUnit>, last: StaleUnit, p: Policy, now: int)
    requires Batch(tables, done, front + [last], p, now)
    ensures Batch(tables, done, front, p, now) && last !in done + Elements(front) && DueIn(tables, last, p, now)
  {
    var all := front + [last];
    assert forall i :: 0 <= i < |front| ==> all[i] == front[i];
    assert all[|front|] == last && last in all;
    assert forall s <- front :: s in all;
  }

  lemma AllSnoc(
    before: Tables, units: seq<StaleUnit>, last: StaleUnit, p: Policy, redrives: bool, env: StaleUnit -> Env)
    ensures var (t, report) := ReconcileAll(before, units, p, redrives, env);
            var (after, one) := ReconcileOne(t, last, p, redrives, env(last));
            ReconcileAll(before, units + [last], p, redrives, env) == (after, Plus(report, one))
  {
    ReconcileAllSnoc(before, units + [last], |units|, p, redrives, env);
    assert (units + [last])[..|units|] == units && (units + [last])[..|units| + 1] == units + [last];
  }

  /** A batch of due units, in any order, after `done`: where it leaves every unit, and what it counts. */
  lemma {:induction false} BatchIsCounted(
    tables: Tables, before: Tables, done: set<StaleUnit>, units: seq<StaleUnit>, p: Policy, now: int, redrives: bool,
    env: StaleUnit -> Env)
    requires OnTime(p, now, env) && LeftBy(tables, before, done, p, now, env) && Batch(tables, done, units, p, now)
    ensures var (after, report) := ReconcileAll(before, units, p, redrives, env);
            && LeftBy(tables, after, done + Elements(units), p, now, env)
            && BatchCounts(tables, done, Elements(units), p, redrives, env, report)
  {
    if units == [] {
      assert Elements(units) == {} && done + {} == done;
      TallyNone(Redrives(redrives, env));
      TallyNone(Fails(redrives, env));
    } else {
      var front, last := units[..|units| - 1], units[|units| - 1];
      assert units == front + [last];
      BatchSnoc(tables, done, front, last, p, now);
      BatchIsCounted(tables, before, done, front, p, now, redrives, env);
      var (t, report) := ReconcileAll(before, front, p, redrives, env);
      BatchStep(tables, t, done, Elements(front), last, p, now, redrives, env, report);
      ElementsSnoc(front, last);
      AllSnoc(before, front, last, p, redrives, env);
    }
  }

  // ---------------------------------------------------------------------------------------------
  // One binding
  // ---------------------------------------------------------------------------------------------

  /** The stage's rows that are open and stale: its stages, its owned and its delegated branches. */
  ghost function DueUnits(tables: Tables, stage: string, p: Policy, now: int): set<StaleUnit> {
    StaleStages(tables, stage, p.staleAfter, now) + StaleBranches(tables, stage, Owned, p.staleAfter, now)
    + StaleBranches(tables, stage, Delegated, p.staleAfter, now)
  }

  lemma DueUnitsAreDue(tables: Tables, stage: string, p: Policy, now: int, s: StaleUnit)
    ensures s in DueUnits(tables, stage, p, now) <==> s.id.stage == stage && DueIn(tables, s, p, now)
  {
    if s.id.stage == stage && DueIn(tables, s, p, now) && s.target.OfBranch? {
      match tables[s.id].branches[s.target.key].kind
      case Owned =>
      case Delegated =>
    }
  }

  /** What is due later was due from the start, and nothing of its unit's was struck. */
  lemma DueLater(
    tables: Tables, t: Tables, done: set<StaleUnit>, s: StaleUnit, p: Policy, now: int, env: StaleUnit -> Env)
    requires OnTime(p, now, env) && LeftBy(tables, t, done, p, now, env) && DueIn(t, s, p, now)
    ensures DueIn(tables, s, p, now) && s.id !in StruckBy(tables, done, p, env)
    ensures KindOf(tables[s.id], s.target) == KindOf(t[s.id], s.target)
  {
    assert s.id !in StruckBy(tables, done, p, env);
    assert AgedOnly(tables[s.id], t[s.id], HitsOn(done, env, s.id), now);
  }

  /** What was due from the start and has not had its turn is due still, unless its unit was struck. */
  lemma DueStill(
    tables: Tables, t: Tables, done: set<StaleUnit>, s: StaleUnit, p: Policy, now: int, env: StaleUnit -> Env)
    requires LeftBy(tables, t, done, p, now, env) && DueIn(tables, s, p, now) && s !in done
    requires s.id !in StruckBy(tables, done, p, env)
    ensures DueIn(t, s, p, now) && KindOf(tables[s.id], s.target) == KindOf(t[s.id], s.target)
  {
    assert AgedOnly(tables[s.id], t[s.id], HitsOn(done, env, s.id), now);
    assert s.target !in HitsOn(done, env, s.id);
  }

  /** The row has a queue job of its own to send again: a stage, or an owned branch. */
  ghost function RedriveGoesOut(tables: Tables, env: StaleUnit -> Env): StaleUnit -> bool {
    (s: StaleUnit) =>
      s.id in tables && KindOf(tables[s.id], s.target) != Some(Delegated) && env(s).fault == NoFault
  }

  /** Its transaction throws, or the re-drive behind it. */
  ghost function UnitFails(tables: Tables, env: StaleUnit -> Env): StaleUnit -> bool {
    (s: StaleUnit) =>
      && s.id in tables
      && (env(s).fault == TransactionFails
          || (KindOf(tables[s.id], s.target) != Some(Delegated) && env(s).fault == RedriveFails))
  }

  /** The counters of having handled `done`: dead letters exactly, one for each unit struck; and if none was, every
    * re-drive and every fault. */
  ghost predicate Counts(
    tables: Tables, done: set<StaleUnit>, p: Policy, env: StaleUnit -> Env, report: Report)
  {
    && report.healed == 0
    && report.deadLettered == |StruckBy(tables, done, p, env)|
    && (StruckBy(tables, done, p, env) == {} ==>
          && report.redriven == Tally(done, RedriveGoesOut(tables, env))
          && report.failed == Tally(done, UnitFails(tables, env)))
  }

  ghost predicate AllOfKind(tables: Tables, units: set<StaleUnit>, kind: Option<BranchKind>) {
    forall s <- units :: s.id in tables && KindOf(tables[s.id], s.target) == kind
  }

  lemma NothingDone(tables: Tables, p: Policy, now: int, env: StaleUnit -> Env)
    ensures LeftBy(tables, tables, {}, p, now, env) && StruckBy(tables, {}, p, env) == {}
  {
    assert forall id :: HitsOn({}, env, id) == {};
  }

  lemma StruckByMore(tables: Tables, done: set<StaleUnit>, more: set<StaleUnit>, p: Policy, env: StaleUnit -> Env)
    ensures StruckBy(tables, done, p, env) <= StruckBy(tables, done + more, p, env)
  {
  }

  lemma KindTallies(tables: Tables, e: set<StaleUnit>, kind: Option<BranchKind>, redrives: bool, env: StaleUnit -> Env)
    requires AllOfKind(tables, e, kind) && redrives == (kind != Some(Delegated))
    ensures Tally(e, Redrives(redrives, env)) == Tally(e, RedriveGoesOut(tables, env))
    ensures Tally(e, Fails(redrives, env)) == Tally(e, UnitFails(tables, env))
  {
    hide Tally;
    TallyAgrees(e, Redrives(redrives, env), RedriveGoesOut(tables, env));
    TallyAgrees(e, Fails(redrives, env), UnitFails(tables, env));
  }

  lemma TalliesJoin(
    tables: Tables, done: set<StaleUnit>, units: set<StaleUnit>, kind: Option<BranchKind>, redrives: bool,
    env: StaleUnit -> Env)
    requires done !! units && AllOfKind(tables, units, kind) && redrives == (kind != Some(Delegated))
    ensures Tally(done + units, RedriveGoesOut(tables, env))
            == Tally(done, RedriveGoesOut(tables, env)) + Tally(units, Redrives(redrives, env))
    ensures Tally(done + units, UnitFails(tables, env))
            == Tally(done, UnitFails(tables, env)) + Tally(units, Fails(redrives, env))
  {
    hide Tally;
    KindTallies(tables, units, kind, redrives, env);
    TallyJoins(done, units, RedriveGoesOut(tables, env));
    TallyJoins(done, units, UnitFails(tables, env));
  }

  /** Having handled `done`, the due rows of `kinds` (a stage has no kind): where that left every unit, and what it
    * counted. What is due of those kinds and was not handled belongs to a struck unit. */
  ghost predicate Through(
    tables: Tables, st: PassState, done: set<StaleUnit>, stage: string, kinds: set<Option<BranchKind>>, p: Policy,
    now: int, env: StaleUnit -> Env)
  {
    && LeftBy(tables, st.0, done, p, now, env) && Counts(tables, done, p, env, st.1)
    && (forall s <- done ::
          s.id.stage == stage && DueIn(tables, s, p, now) && KindOf(tables[s.id], s.target) in kinds)
    && (forall s: StaleUnit ::
          s.id.stage == stage && DueIn(tables, s, p, now) && KindOf(tables[s.id], s.target) in kinds ==>
            s in done || s.id in StruckBy(tables, done, p, env))
  }

  /** `units` lists what is due of one kind. */
  ghost predicate ScanOf(
    t: Tables, units: seq<StaleUnit>, stage: string, kind: Option<BranchKind>, p: Policy, now: int)
  {
    && (forall i, j :: 0 <= i < j < |units| ==> units[i] != units[j])
    && (forall s: StaleUnit ::
          s in units <==> s.id.stage == stage && DueIn(t, s, p, now) && KindOf(t[s.id], s.target) == kind)
  }

  lemma ScanIsABatch(
    tables: Tables, st: PassState, done: set<StaleUnit>, units: seq<StaleUnit>, stage: string,
    kinds: set<Option<BranchKind>>, kind: Option<BranchKind>, p: Policy, now: int, env: StaleUnit -> Env)
    requires OnTime(p, now, env) && Through(tables, st, done, stage, kinds, p, now, env) && kind !in kinds
    requires ScanOf(st.0, units, stage, kind, p, now)
    ensures Batch(tables, done, units, p, now) && AllOfKind(tables, Elements(units), kind) && done !! Elements(units)
  {
    forall s <- units
      ensures s !in done && DueIn(tables, s, p, now) && KindOf(tables[s.id], s.target) == kind
    {
      DueLater(tables, st.0, done, s, p, now, env);
    }
  }

  /** What is due of the scan's kind is on its list, or belongs to a unit struck before. */
  lemma ScanCovers(
    tables: Tables, st: PassState, done: set<StaleUnit>, units: seq<StaleUnit>, stage: string,
    kinds: set<Option<BranchKind>>, kind: Option<BranchKind>, p: Policy, now: int, env: StaleUnit -> Env, s: StaleUnit)
    requires Through(tables, st, done, stage, kinds, p, now, env) && kind !in kinds
    requires ScanOf(st.0, units, stage, kind, p, now)
    requires s.id.stage == stage && DueIn(tables, s, p, now) && KindOf(tables[s.id], s.target) in kinds + {kind}
    ensures s in done + Elements(units) || s.id in StruckBy(tables, done + Elements(units), p, env)
  {
    StruckByMore(tables, done, Elements(units), p, env);
    if s !in done && s.id !in StruckBy(tables, done, p, env) {
      DueStill(tables, st.0, done, s, p, now, env);
    }
  }

  lemma ScanCounts(
    tables: Tables, st: PassState, done: set<StaleUnit>, units: seq<StaleUnit>, kind: Option<BranchKind>, p: Policy,
    now: int, redrives: bool, env: StaleUnit -> Env)
    requires OnTime(p, now, env) && LeftBy(tables, st.0, done, p, now, env) && Counts(tables, done, p, env, st.1)
    requires Batch(tables, done, units, p, now) && AllOfKind(tables, Elements(units), kind) && done !! Elements(units)
    requires redrives == (kind != Some(Delegated))
    ensures var (after, one) := ReconcileAll(st.0, units, p, redrives, env);
            && LeftBy(tables, after, done + Elements(units), p, now, env)
            && Counts(tables, done + Elements(units), p, env, Plus(st.1, one))
  {
    hide Tally, LeftBy;
    BatchIsCounted(tables, st.0, done, units, p, now, redrives, env);
    StruckByMore(tables, done, Elements(units), p, env);
    TalliesJoin(tables, done, Elements(units), kind, redrives, env);
  }

  /** One more scan. */
  lemma NextScan(
    tables: Tables, st: PassState, done: set<StaleUnit>, units: seq<StaleUnit>, stage: string,
    kinds: set<Option<BranchKind>>, kind: Option<BranchKind>, p: Policy, now: int, redrives: bool,
    env: StaleUnit -> Env)
    requires OnTime(p, now, env) && Through(tables, st, done, stage, kinds, p, now, env) && kind !in kinds
    requires ScanOf(st.0, units, stage, kind, p, now) && redrives == (kind != Some(Delegated))
    ensures var (after, one) := ReconcileAll(st.0, units, p, redrives, env);
            Through(tables, (after, Plus(st.1, one)), done + Elements(units), stage, kinds + {kind}, p, now, env)
  {
    ScanIsABatch(tables, st, done, units, stage, kinds, kind, p, now, env);
    ScanCounts(tables, st, done, units, kind, p, now, redrives, env);
    forall s: StaleUnit |
      s.id.stage == stage && DueIn(tables, s, p, now) && KindOf(tables[s.id], s.target) in kinds + {kind}
      ensures s in done + Elements(units) || s.id in StruckBy(tables, done + Elements(units), p, env)
    {
      ScanCovers(tables, st, done, units, stage, kinds, kind, p, now, env, s);
    }
    forall s <- done + Elements(units)
      ensures s.id.stage == stage && DueIn(tables, s, p, now) && KindOf(tables[s.id], s.target) in kinds + {kind}
    {
    }
  }

  lemma StagesAreAScan(t: Tables, units: seq<StaleUnit>, stage: string, p: Policy, now: int)
    requires Lists(units, StaleStages(t, stage, p.staleAfter, now))
    ensures ScanOf(t, units, stage, None, p, now)
  {
  }

  lemma BranchesAreAScan(t: Tables, units: seq<StaleUnit>, stage: string, kind: BranchKind, p: Policy, now: int)
    requires Lists(units, StaleBranches(t, stage, kind, p.staleAfter, now))
    ensures ScanOf(t, units, stage, Some(kind), p, now)
  {
  }

  lemma ThroughNothing(tables: Tables, stage: string, p: Policy, now: int, env: StaleUnit -> Env)
    ensures Through(tables, (tables, NOTHING), {}, stage, {}, p, now, env)
  {
    NothingDone(tables, p, now, env);
    TallyNone(RedriveGoesOut(tables, env));
    TallyNone(UnitFails(tables, env));
  }

  lemma ThroughStages(tables: Tables, b: Binding, o: Scans, p: Policy, now: int, env: StaleUnit -> Env)
    requires OnTime(p, now, env) && Lists(o.stages, StaleStages(tables, b.stage, p.staleAfter, now))
    ensures Through(tables, AfterStages(tables, o, p, env), Elements(o.stages), b.stage, {None}, p, now, env)
  {
    hide Through;
    var noKind: set<Option<BranchKind>>, none: set<StaleUnit> := {}, {};
    var (t, one) := AfterStages(tables, o, p, env);
    ThroughNothing(tables, b.stage, p, now, env);
    StagesAreAScan(tables, o.stages, b.stage, p, now);
    NextScan(tables, (tables, NOTHING), none, o.stages, b.stage, noKind, None, p, now, true, env);
    assert Plus(NOTHING, one) == one;
    assert none + Elements(o.stages) == Elements(o.stages) && noKind + {None} == {None};
  }

  lemma ThroughOwned(tables: Tables, b: Binding, o: Scans, p: Policy, now: int, env: StaleUnit -> Env)
    requires OnTime(p, now, env)
    requires Through(tables, AfterStages(tables, o, p, env), Elements(o.stages), b.stage, {None}, p, now, env)
    requires Lists(o.owned, StaleBranches(AfterStages(tables, o, p, env).0, b.stage, Owned, p.staleAfter, now))
    ensures Through(tables, AfterOwned(tables, o, p, env), Elements(o.stages) + Elements(o.owned), b.stage,
                    {None} + {Some(Owned)}, p, now, env)
  {
    hide Through;
    var st := AfterStages(tables, o, p, env);
    BranchesAreAScan(st.0, o.owned, b.stage, Owned, p, now);
    NextScan(tables, st, Elements(o.stages), o.owned, b.stage, {None}, Some(Owned), p, now, true, env);
  }

  lemma ThroughDelegated(tables: Tables, b: Binding, o: Scans, p: Policy, now: int, env: StaleUnit -> Env)
    requires OnTime(p, now, env)
    requires Through(tables, AfterOwned(tables, o, p, env), Elements(o.stages) + Elements(o.owned), b.stage,
                     {None} + {Some(Owned)}, p, now, env)
    requires Lists(o.delegated, StaleBranches(AfterOwned(tables, o, p, env).0, b.stage, Delegated, p.staleAfter, now))
    ensures Through(tables, AfterScans(tables, o, p, env),
                    Elements(o.stages) + Elements(o.owned) + Elements(o.delegated), b.stage,
                    {None} + {Some(Owned)} + {Some(Delegated)}, p, now, env)
  {
    hide Through;
    var st := AfterOwned(tables, o, p, env);
    BranchesAreAScan(st.0, o.delegated, b.stage, Delegated, p, now);
    NextScan(tables, st, Elements(o.stages) + Elements(o.owned), o.delegated, b.stage, {None} + {Some(Owned)},
      Some(Delegated), p, now, false, env);
  }

  /** Once every kind had its scan, the units struck are those with a due, spent row; and if there are none, everything
    * due was handled. */
  lemma ThroughAll(
    tables: Tables, st: PassState, done: set<StaleUnit>, stage: string, p: Policy, now: int, env: StaleUnit -> Env)
    requires Through(tables, st, done, stage, {None} + {Some(Owned)} + {Some(Delegated)}, p, now, env)
    ensures var due := DueUnits(tables, stage, p, now);
            && StruckBy(tables, done, p, env) == StruckBy(tables, due, p, env)
            && (StruckBy(tables, done, p, env) == {} ==> done == due)
  {
    var due := DueUnits(tables, stage, p, now);
    forall s: StaleUnit
      ensures s in due <==> s.id.stage == stage && DueIn(tables, s, p, now)
      ensures s in done ==> s in due
      ensures s in due ==> s in done || s.id in StruckBy(tables, done, p, env)
    {
      DueUnitsAreDue(tables, stage, p, now, s);
      KindsAreThree(if s.id in tables then KindOf(tables[s.id], s.target) else None);
    }
    assert StruckBy(tables, done, p, env) <= StruckBy(tables, due, p, env);
    forall id | id in StruckBy(tables, due, p, env)
      ensures id in StruckBy(tables, done, p, env)
    {
      var s :| s in due && Spent(tables, s, p, env) && s.id == id;
    }
  }

  lemma KindsAreThree(kind: Option<BranchKind>)
    ensures kind in {None} + {Some(Owned)} + {Some(Delegated)}
  {
    match kind
    case None =>
    case Some(Owned) =>
    case Some(Delegated) =>
  }

  /** The three scans of a binding count what was due when it began. */
  lemma ScansAreCounted(tables: Tables, b: Binding, o: Scans, p: Policy, now: int, env: StaleUnit -> Env)
    requires OnTime(p, now, env) && ScansFit(tables, b, o, p, now, env)
    ensures var (after, report) := AfterScans(tables, o, p, env);
            var due := DueUnits(tables, b.stage, p, now);
            && after.Keys == tables.Keys
            && Counts(tables, due, p, env, report)
            && (StruckBy(tables, due, p, env) == {} ==> LeftBy(tables, after, due, p, now, env))
  {
    ThroughStages(tables, b, o, p, now, env);
    ThroughOwned(tables, b, o, p, now, env);
    ThroughDelegated(tables, b, o, p, now, env);
    ThroughAll(tables, AfterScans(tables, o, p, env), Elements(o.stages) + Elements(o.owned) + Elements(o.delegated),
      b.stage, p, now, env);
  }

  // ---------------------------------------------------------------------------------------------
  // The heal behind the scans
  // ---------------------------------------------------------------------------------------------

  /** The missed joins of the stage that the scans do not age first: Pending ones, and those whose transaction
    * throws. */
  ghost function HealsDue(tables: Tables, stage: string, p: Policy, now: int, env: StaleUnit -> Env): set<UnitId> {
    set id | id in tables && id.stage == stage && LeftUnjoined(tables[id], p, now)
             && (tables[id].status == Pending || !Runs(env, StaleUnit(id, OfStage)))
  }

  /** A unit whose branches have all completed is hit on its stage row at most. */
  lemma FinishedIsHitOnItsStage(
    tables: Tables, after: Tables, stage: string, p: Policy, now: int, env: StaleUnit -> Env, id: UnitId)
    requires OnTime(p, now, env) && LeftBy(tables, after, DueUnits(tables, stage, p, now), p, now, env)
    requires StruckBy(tables, DueUnits(tables, stage, p, now), p, env) == {}
    requires id in tables && id.stage == stage
    ensures JoinMissed(after[id], p.staleAfter, now) <==> id in HealsDue(tables, stage, p, now, env)
    ensures id in HealsDue(tables, stage, p, now, env) ==> after[id] == tables[id]
  {
    var hit := HitsOn(DueUnits(tables, stage, p, now), env, id);
    assert AgedOnly(tables[id], after[id], hit, now);
    MissedJoinsAreLeftUnjoined(tables[id], p, now);
    if AllBranchesCompleted(tables[id]) {
      forall t | t in hit
        ensures t == OfStage && tables[id].status == InProgress && Runs(env, StaleUnit(id, OfStage))
      {
        DueUnitsAreDue(tables, stage, p, now, StaleUnit(id, t));
      }
      if tables[id].status == InProgress && IsStale(tables[id].updatedAt, p.staleAfter, now)
         && Runs(env, StaleUnit(id, OfStage)) {
        DueUnitsAreDue(tables, stage, p, now, StaleUnit(id, OfStage));
        assert StaleUnit(id, OfStage) in DueUnits(tables, stage, p, now);
        assert UpdatedAt(after[id], OfStage) >= now;
      }
    } else {
      assert !AllBranchesCompleted(after[id]);
    }
  }

  /** With nothing struck, the heal's scan lists exactly the heals due, as the pass found them. */
  lemma HealScanListsWhatIsDue(
    tables: Tables, after: Tables, stage: string, p: Policy, now: int, env: StaleUnit -> Env)
    requires OnTime(p, now, env) && LeftBy(tables, after, DueUnits(tables, stage, p, now), p, now, env)
    requires StruckBy(tables, DueUnits(tables, stage, p, now), p, env) == {}
    ensures MissedJoins(after, stage, p.staleAfter, now) == HealsDue(tables, stage, p, now, env)
    ensures forall id <- HealsDue(tables, stage, p, now, env) :: id in after && after[id] == tables[id]
  {
    forall id | id in tables && id.stage == stage
      ensures JoinMissed(after[id], p.staleAfter, now) <==> id in HealsDue(tables, stage, p, now, env)
      ensures id in HealsDue(tables, stage, p, now, env) ==> after[id] == tables[id]
    {
      FinishedIsHitOnItsStage(tables, after, stage, p, now, env, id);
    }
  }

  // ---------------------------------------------------------------------------------------------
  // A whole pass
  // ---------------------------------------------------------------------------------------------

  /** What one binding should report, judged on the tables the pass found: a re-drive for every due stage and owned
    * branch, a heal for every missed join, a failure for everything that throws, and a dead letter for every unit
    * with a due row that has no attempts left. */
  ghost function Expected(tables: Tables, b: Binding, p: Policy, now: int, env: StaleUnit -> Env): Report {
    var due, heals := DueUnits(tables, b.stage, p, now), HealsDue(tables, b.stage, p, now, env);
    Report(Tally(due, RedriveGoesOut(tables, env)),
           if b.onJoin.None? then 0 else Tally(heals, Returns(tables, b.onJoin.value)),
           |StruckBy(tables, due, p, env)|,
           Tally(due, UnitFails(tables, env))
           + if b.onJoin.None? then 0 else Tally(heals, Throws(tables, b.onJoin.value)))
  }

  ghost function ExpectedOfAll(tables: Tables, turns: seq<Turn>, p: Policy, now: int, env: StaleUnit -> Env): Report {
    if turns == [] then NOTHING
    else
      Plus(ExpectedOfAll(tables, turns[..|turns| - 1], p, now, env),
           Expected(tables, turns[|turns| - 1].binding, p, now, env))
  }

  /** Dead letters are as expected; and where none is, everything is. */
  ghost predicate Meets(report: Report, expected: Report) {
    report.deadLettered == expected.deadLettered && (expected.deadLettered == 0 ==> report == expected)
  }

  lemma EmptyIffNone(s: set<UnitId>)
    ensures |s| == 0 <==> s == {}
  {
  }

  lemma HealIsCounted(
    tables: Tables, t: Tables, stage: string, joins: seq<UnitId>, onJoin: Continuation, p: Policy, now: int,
    env: StaleUnit -> Env)
    requires OnTime(p, now, env) && Lists(joins, MissedJoins(t, stage, p.staleAfter, now))
    ensures HealAll(t, joins, onJoin).1.deadLettered == 0
    ensures LeftBy(tables, t, DueUnits(tables, stage, p, now), p, now, env)
            && StruckBy(tables, DueUnits(tables, stage, p, now), p, env) == {} ==>
              HealAll(t, joins, onJoin).1
              == Report(0, Tally(HealsDue(tables, stage, p, now, env), Returns(tables, onJoin)),
                        0, Tally(HealsDue(tables, stage, p, now, env), Throws(tables, onJoin)))
  {
    hide Tally;
    HealCountsEveryContinuation(t, joins, onJoin);
    if LeftBy(tables, t, DueUnits(tables, stage, p, now), p, now, env)
       && StruckBy(tables, DueUnits(tables, stage, p, now), p, env) == {} {
      var heals := HealsDue(tables, stage, p, now, env);
      HealScanListsWhatIsDue(tables, t, stage, p, now, env);
      assert Elements(joins) == heals;
      TallyAgrees(heals, Returns(t, onJoin), Returns(tables, onJoin));
      TallyAgrees(heals, Throws(t, onJoin), Throws(tables, onJoin));
    }
  }

  ghost function HealReport(t: Tables, b: Binding, joins: seq<UnitId>): Report {
    if b.onJoin.None? then NOTHING else HealAll(t, joins, b.onJoin.value).1
  }

  lemma SumMeets(scanned: Report, heal: Report, expected: Report)
    requires scanned.deadLettered == expected.deadLettered && heal.deadLettered == 0
    requires expected.deadLettered == 0 ==> Plus(scanned, heal) == expected
    ensures Meets(Plus(scanned, heal), expected)
  {
  }

  lemma HealMeets(
    tables: Tables, t: Tables, b: Binding, joins: seq<UnitId>, p: Policy, now: int, env: StaleUnit -> Env,
    scanned: Report)
    requires OnTime(p, now, env) && Counts(tables, DueUnits(tables, b.stage, p, now), p, env, scanned)
    requires StruckBy(tables, DueUnits(tables, b.stage, p, now), p, env) == {} ==>
               LeftBy(tables, t, DueUnits(tables, b.stage, p, now), p, now, env)
    requires b.onJoin.Some? ==> Lists(joins, MissedJoins(t, b.stage, p.staleAfter, now))
    ensures Meets(Plus(scanned, HealReport(t, b, joins)), Expected(tables, b, p, now, env))
  {
    hide Tally;
    if b.onJoin.Some? {
      HealIsCounted(tables, t, b.stage, joins, b.onJoin.value, p, now, env);
    }
    EmptyIffNone(StruckBy(tables, DueUnits(tables, b.stage, p, now), p, env));
    SumMeets(scanned, HealReport(t, b, joins), Expected(tables, b, p, now, env));
  }

  lemma AfterHealReports(st: PassState, b: Binding, joins: seq<UnitId>)
    ensures AfterHeal(st, b, joins).1 == Plus(st.1, HealReport(st.0, b, joins))
  {
  }

  lemma BindingIsCounted(tables: Tables, b: Binding, o: Orders, p: Policy, now: int, env: StaleUnit -> Env)
    requires OnTime(p, now, env) && OrdersFit(tables, b, o, p, now, env)
    ensures Meets(PassBinding(tables, b, o, p, env).1, Expected(tables, b, p, now, env))
  {
    var st := AfterScans(tables, o.scans, p, env);
    AfterHealReports(st, b, o.joins);
    ScansAreCounted(tables, b, o.scans, p, now, env);
    HealMeets(tables, st.0, b, o.joins, p, now, env, st.1);
  }

  lemma BindingKeepsTheKeys(tables: Tables, b: Binding, o: Orders, p: Policy, now: int, env: StaleUnit -> Env)
    requires OnTime(p, now, env) && OrdersFit(tables, b, o, p, now, env)
    ensures PassBinding(tables, b, o, p, env).0.Keys == tables.Keys
  {
    ScansAreCounted(tables, b, o.scans, p, now, env);
    if b.onJoin.Some? {
      HealTouchesOnlyItsCandidates(
        AfterScans(tables, o.scans, p, env).0, o.joins, b.onJoin.value, UnitId("", b.stage));
    }
  }

  ghost predicate AgreeOn(t: Tables, tables: Tables, stage: string) {
    t.Keys == tables.Keys && forall id <- tables :: id.stage == stage ==> t[id] == tables[id]
  }

  /** The expectation looks at the binding's own stage only. */
  lemma ExpectedAgrees(t: Tables, tables: Tables, b: Binding, p: Policy, now: int, env: StaleUnit -> Env)
    requires AgreeOn(t, tables, b.stage)
    ensures Expected(t, b, p, now, env) == Expected(tables, b, p, now, env)
  {
    hide Tally;
    var due, heals := DueUnits(tables, b.stage, p, now), HealsDue(tables, b.stage, p, now, env);
    forall s: StaleUnit
      ensures s in DueUnits(t, b.stage, p, now) <==> s in due
    {
      DueUnitsAreDue(t, b.stage, p, now, s);
      DueUnitsAreDue(tables, b.stage, p, now, s);
    }
    assert DueUnits(t, b.stage, p, now) == due;
    assert HealsDue(t, b.stage, p, now, env) == heals;
    forall s <- due ensures s.id in tables && t[s.id] == tables[s.id] {
      DueUnitsAreDue(tables, b.stage, p, now, s);
    }
    assert StruckBy(t, due, p, env) == StruckBy(tables, due, p, env);
    TallyAgrees(due, RedriveGoesOut(t, env), RedriveGoesOut(tables, env));
    TallyAgrees(due, UnitFails(t, env), UnitFails(tables, env));
    if b.onJoin.Some? {
      TallyAgrees(heals, Returns(t, b.onJoin.value), Returns(tables, b.onJoin.value));
      TallyAgrees(heals, Throws(t, b.onJoin.value), Throws(tables, b.onJoin.value));
    }
  }

  /** The stages that have had no turn yet are as the pass found them. */
  ghost predicate OthersAsFound(tables: Tables, t: Tables, turns: seq<Turn>) {
    && t.Keys == tables.Keys
    && forall id <- tables :: !Bound(turns, id.stage) ==> t[id] == tables[id]
  }

  lemma TurnLeavesOthers(
    tables: Tables, t: Tables, front: seq<Turn>, turn: Turn, p: Policy, now: int, env: StaleUnit -> Env)
    requires OnTime(p, now, env) && OrdersFit(t, turn.binding, turn.orders, p, now, env)
    requires OthersAsFound(tables, t, front)
    ensures OthersAsFound(tables, PassBinding(t, turn.binding, turn.orders, p, env).0, front + [turn])
  {
    BindingKeepsTheKeys(t, turn.binding, turn.orders, p, now, env);
    forall id <- tables | !Bound(front + [turn], id.stage)
      ensures PassBinding(t, turn.binding, turn.orders, p, env).0[id] == tables[id]
    {
      BoundStep(front, turn, id.stage);
      OtherBindingsLeaveTheUnit(t, turn, p, now, env, id);
    }
  }

  lemma ExpectedSnoc(tables: Tables, front: seq<Turn>, turn: Turn, p: Policy, now: int, env: StaleUnit -> Env)
    ensures ExpectedOfAll(tables, front + [turn], p, now, env)
            == Plus(ExpectedOfAll(tables, front, p, now, env), Expected(tables, turn.binding, p, now, env))
  {
    hide Expected, Plus;
    assert (front + [turn])[..|front|] == front;
  }

  lemma MeetingsAdd(report: Report, one: Report, expected: Report, more: Report)
    requires Meets(report, expected) && Meets(one, more)
    ensures Meets(Plus(report, one), Plus(expected, more))
  {
  }

  lemma TurnAddsItsReport(
    tables: Tables, t: Tables, report: Report, front: seq<Turn>, turn: Turn, p: Policy, now: int,
    env: StaleUnit -> Env)
    requires OnTime(p, now, env) && OrdersFit(t, turn.binding, turn.orders, p, now, env)
    requires OthersAsFound(tables, t, front) && !Bound(front, turn.binding.stage)
    requires Meets(report, ExpectedOfAll(tables, front, p, now, env))
    ensures Meets(Plus(report, PassBinding(t, turn.binding, turn.orders, p, env).1),
                  ExpectedOfAll(tables, front + [turn], p, now, env))
  {
    hide Expected, ExpectedOfAll, Meets, PassBinding, OrdersFit, Plus;
    BindingIsCounted(t, turn.binding, turn.orders, p, now, env);
    assert AgreeOn(t, tables, turn.binding.stage);
    ExpectedAgrees(t, tables, turn.binding, p, now, env);
    ExpectedSnoc(tables, front, turn, p, now, env);
    MeetingsAdd(report, PassBinding(t, turn.binding, turn.orders, p, env).1,
      ExpectedOfAll(tables, front, p, now, env), Expected(tables, turn.binding, p, now, env));
  }

  ghost predicate CountedSoFar(
    tables: Tables, st: PassState, turns: seq<Turn>, p: Policy, now: int, env: StaleUnit -> Env)
  {
    OneBindingPerStage(turns) ==>
      OthersAsFound(tables, st.0, turns) && Meets(st.1, ExpectedOfAll(tables, turns, p, now, env))
  }

  /** A whole pass, one binding per stage, whatever throws in it: it reports exactly one dead letter for every unit that
    * had a due row without attempts left; and if there is none, exactly one re-drive for every due stage and owned
    * branch that does not throw (a delegated branch is never re-driven), one heal for every missed join, and one
    * failure for everything that throws. All of it is judged on the tables the pass found. */
  lemma PassReportsWhatWasDue(
    tables: Tables, turns: seq<Turn>, p: Policy, now: int, env: StaleUnit -> Env)
    requires OnTime(p, now, env) && AllOrdersFit(tables, turns, p, now, env) && OneBindingPerStage(turns)
    ensures Meets(PassAll(tables, turns, p, env).1, ExpectedOfAll(tables, turns, p, now, env))
  {
    var inv := (front: seq<Turn>, st: PassState) => CountedSoFar(tables, st, front, p, now, env);
    forall front: seq<Turn>, st: PassState, turn: Turn | inv(front, st) && TurnFits(p, now, env)(st, turn)
      ensures inv(front + [turn], TakeTurn(p, env)(st, turn))
    {
      if OneBindingPerStage(front + [turn]) {
        OneBindingPerStagePrefix(front, turn);
        TurnLeavesOthers(tables, st.0, front, turn, p, now, env);
        TurnAddsItsReport(tables, st.0, st.1, front, turn, p, now, env);
      }
    }
    FoldKeeps((tables, NOTHING), turns, TakeTurn(p, env), TurnFits(p, now, env), inv);
  }
}
