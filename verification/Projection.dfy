/** The rating projection never silently disagrees with the reviews it summarises (ReviewRuns.dfy). */
module Projection {
  import opened Outbox
  import opened Reviews
  import opened ReviewRuns

  /** A product without a projection row reads as unrated. */
  function RatingAt(ratings: map<ProductId, Rating>, p: ProductId): Rating {
    if p in ratings then ratings[p] else Rating(0, 0)
  }

  ghost predicate Current(w: World, p: ProductId) {
    RatingAt(w.ratings, p) == RatingOf(w.db.reviews, p)
  }

  ghost predicate AppliedByOpenPass(w: World, r: nat) {
    exists k :: 0 <= k < |w.passes| && w.passes[k].open && AppliedIn(w.passes[k], r)
  }

  /** Row `r` shows that product `p` is owed a recompute: pending or dead, and not already applied by an open pass. */
  ghost predicate Owes(w: World, p: ProductId, r: nat) {
    && r < |w.db.rows| && w.db.rows[r].aggregateId == p && w.db.rows[r].status != RowProcessed
    && !AppliedByOpenPass(w, r)
  }

  /** The projection row was written by a recompute that had started before another one of `p` that landed earlier. */
  ghost predicate Overtaken(w: World, p: ProductId) {
    p in w.lastLanded && exists j :: w.lastLanded[p] < j < |w.recomputes| && LandedFor(w, j, p)
  }

  ghost predicate LandedFor(w: World, j: nat, p: ProductId) {
    j < |w.recomputes| && w.recomputes[j].product == p && w.recomputes[j].fate == Landed
  }

  // ---------------------------------------------------------------------------------------------
  // Open passes hold their rows
  // ---------------------------------------------------------------------------------------------

  ghost predicate PassFits(w: World, pass: RelayPass) {
    pass.open ==>
      Increasing(pass.claimed) && PendingFrom(w.db.rows, pass.claimed, 0) && |pass.outcomes| <= |pass.claimed|
  }

  ghost predicate Apart(a: RelayPass, b: RelayPass) {
    a.open && b.open ==> forall i :: i in a.claimed ==> i !in b.claimed
  }

  ghost predicate PassesSound(w: World) {
    && (forall k :: 0 <= k < |w.passes| ==> PassFits(w, w.passes[k]))
    && (forall k, k' :: 0 <= k < |w.passes| && 0 <= k' < |w.passes| && k != k' ==> Apart(w.passes[k], w.passes[k']))
  }

  ghost function Outcome(pass: RelayPass): nat -> bool {
    (i: nat) => AppliedIn(pass, i)
  }

  lemma ClaimKeepsPasses(w: World, c: Config, s: Step)
    requires Enabled(w, c, s) && s.Claim? && PassesSound(w)
    ensures PassesSound(Next(w, c, s))
  {
    var w' := Next(w, c, s);
    var rows, held := w.db.rows, HeldBy(w.passes);
    ClaimedIsInOrder(rows, held, s.batchSize, |rows|);
    var new' := w'.passes[|w.passes|];
    forall k | 0 <= k < |w.passes|
      ensures Apart(w.passes[k], new') && Apart(new', w.passes[k])
    {
      forall i | i in new'.claimed ensures i in held ==> false {
        var x :| 0 <= x < |new'.claimed| && new'.claimed[x] == i;
        assert Claimable(rows, held, new'.claimed[x]);
      }
    }
    forall k | 0 <= k < |w.passes| ensures PassFits(w', w'.passes[k]) {
      assert PassFits(w, w.passes[k]);
    }
  }

  /** A commit marks exactly its own claimed rows, each by its own outcome. */
  lemma CommitMarks(w: World, c: Config, s: Step)
    requires Enabled(w, c, s) && s.Commit? && PassesSound(w)
    ensures Next(w, c, s).db
            == w.db.(rows := MarkedRows(w.db.rows, w.passes[s.k].claimed, Outcome(w.passes[s.k]), c.maxAttempts))
  {
    var pass := w.passes[s.k];
    assert PassFits(w, pass);
    PassMarksEachRowOnItsOwn(w.db.rows, w.letters, pass.claimed, (i: nat) => AppliedIn(pass, i), c.maxAttempts);
    var a := MarkedRows(w.db.rows, pass.claimed, Outcome(pass), c.maxAttempts);
    var b := MarkedRows(w.db.rows, pass.claimed, (i: nat) => AppliedIn(pass, i), c.maxAttempts);
    assert a == b;
  }

  lemma CommitKeepsPasses(w: World, c: Config, s: Step)
    requires Enabled(w, c, s) && s.Commit? && PassesSound(w)
    ensures PassesSound(Next(w, c, s))
  {
    var w' := Next(w, c, s);
    CommitMarks(w, c, s);
    forall k | 0 <= k < |w'.passes| ensures PassFits(w', w'.passes[k]) {
      assert PassFits(w, w.passes[k]);
      if w'.passes[k].open {
        assert Apart(w.passes[k], w.passes[s.k]);
        forall x | 0 <= x < |w'.passes[k].claimed|
          ensures w'.passes[k].claimed[x] < |w'.db.rows| && w'.db.rows[w'.passes[k].claimed[x]].status == RowPending
        {
          assert w'.passes[k].claimed[x] in w.passes[k].claimed;
        }
      }
    }
  }

  lemma PassesKept(w: World, c: Config, s: Step)
    requires Enabled(w, c, s) && PassesSound(w)
    ensures PassesSound(Next(w, c, s))
  {
    var w' := Next(w, c, s);
    if s.Claim? {
      ClaimKeepsPasses(w, c, s);
    } else if s.Commit? {
      CommitKeepsPasses(w, c, s);
    } else {
      if s.Finish? {
        TransactEmitsExactlyOnWrite(w.db, w.calls[s.i].request, w.calls[s.i].state.captured, s.token, s.now);
      }
      forall k | 0 <= k < |w'.passes| ensures PassFits(w', w'.passes[k]) {
        assert PassFits(w, w.passes[k]);
      }
      forall k, k' | 0 <= k < |w'.passes| && 0 <= k' < |w'.passes| && k != k'
        ensures Apart(w'.passes[k], w'.passes[k'])
      {
        assert Apart(w.passes[k], w.passes[k']);
      }
    }
  }

  lemma {:induction false} PassesSoundAlways(c: Config, steps: seq<Step>)
    ensures PassesSound(Exec(START, c, steps))
  {
    if steps != [] {
      var front := steps[..|steps| - 1];
      PassesSoundAlways(c, front);
      var before, s := Exec(START, c, front), steps[|steps| - 1];
      if Enabled(before, c, s) {
        PassesKept(before, c, s);
      }
    }
  }

  // ---------------------------------------------------------------------------------------------
  // What every step keeps
  // ---------------------------------------------------------------------------------------------

  ghost predicate RowOf(w: World, r: nat, p: ProductId) {
    r < |w.db.rows| && w.db.rows[r].aggregateId == p
  }

  ghost predicate BornFits(w: World) {
    |w.bornAt| == |w.db.rows| && forall r :: 0 <= r < |w.bornAt| ==> w.bornAt[r] <= |w.recomputes|
  }

  /** An event of `p` was inserted after recompute `j` had started. */
  ghost predicate EventSince(w: World, p: ProductId, j: nat) {
    exists r: nat :: RowOf(w, r, p) && r < |w.bornAt| && w.bornAt[r] > j
  }

  /** What recompute `j` read is what there is, unless an event of its product was inserted since. */
  ghost predicate ReadFits(w: World, j: nat) {
    j < |w.recomputes| ==>
      var r := w.recomputes[j]; r.seen == RatingOf(w.db.reviews, r.product) || EventSince(w, r.product, j)
  }

  ghost predicate UnratedFits(w: World, p: ProductId) {
    RatingOf(w.db.reviews, p) == Rating(0, 0) || exists r: nat :: RowOf(w, r, p)
  }

  /** A recompute of the row's product started after the row was inserted, and landed. */
  ghost predicate Served(w: World, r: nat) {
    r < |w.db.rows| && r < |w.bornAt| && exists j :: w.bornAt[r] <= j && LandedFor(w, j, w.db.rows[r].aggregateId)
  }

  ghost predicate Spent(w: World, r: nat) {
    (r < |w.db.rows| && w.db.rows[r].status == RowProcessed) || AppliedByOpenPass(w, r)
  }

  ghost predicate ServedFits(w: World) {
    forall r: nat :: Spent(w, r) ==> Served(w, r)
  }

  /** The recompute an apply has started is one of its row's product, started after the row was inserted. */
  ghost predicate RunningFits(w: World, pass: RelayPass) {
    pass.open && pass.running.Some? && |pass.outcomes| < |pass.claimed| ==>
      var r, j := NextRow(pass), pass.running.value;
      && r < |w.db.rows| && r < |w.bornAt| && w.bornAt[r] <= j < |w.recomputes|
      && w.recomputes[j].product == w.db.rows[r].aggregateId
  }

  ghost predicate LandedFits(w: World) {
    && w.ratings.Keys == w.lastLanded.Keys
    && (forall p <- w.lastLanded ::
          LandedFor(w, w.lastLanded[p], p) && w.ratings[p] == w.recomputes[w.lastLanded[p]].seen)
    && (forall j ::
       0 <= j < |w.recomputes| && w.recomputes[j].fate == Landed ==> w.recomputes[j].product in w.lastLanded)
  }

  ghost predicate Dated(w: World) {
    && BornFits(w) && LandedFits(w) && ServedFits(w)
    && (forall j :: 0 <= j < |w.recomputes| ==> ReadFits(w, j))
    && (forall p :: UnratedFits(w, p))
    && (forall k :: 0 <= k < |w.passes| ==> RunningFits(w, w.passes[k]))
  }

  lemma TransactLeavesOtherProducts(db: Db, r: Request, c: Captured, minted: Token, now: int, p: ProductId)
    requires p != c.product && minted !in db.reviews
    requires !r.Submit? && r.token in db.reviews ==> db.reviews[r.token].product == c.product
    ensures PublishedRatings(Transact(db, r, c, minted, now).0.reviews, p) == PublishedRatings(db.reviews, p)
  {
    var reviews, reviews' := db.reviews, Transact(db, r, c, minted, now).0.reviews;
    forall t
      ensures t in reviews && reviews[t].product == p <==> t in reviews' && reviews'[t].product == p
      ensures t in reviews && reviews[t].product == p ==> reviews'[t] == reviews[t]
    {
    }
  }

  lemma OtherProductsKeepTheirRating(w: World, c: Config, s: Step, p: ProductId)
    requires Enabled(w, c, s) && s.Finish? && TableSound(w) && p != w.calls[s.i].state.captured.product
    ensures RatingOf(Next(w, c, s).db.reviews, p) == RatingOf(w.db.reviews, p)
  {
    var call := w.calls[s.i];
    assert CallFits(w, call);
    assert s.token !in w.db.reviews;
    TransactLeavesOtherProducts(w.db, call.request, call.state.captured, s.token, s.now, p);
  }

  /** Rows keep their product and birth, and recomputes keep their product, what they read, and having landed. */
  ghost predicate Grows(w: World, w': World) {
    && |w.db.rows| <= |w'.db.rows| && |w.bornAt| <= |w'.bornAt| && |w.recomputes| <= |w'.recomputes|
    && (forall r :: 0 <= r < |w.db.rows| ==> w'.db.rows[r].aggregateId == w.db.rows[r].aggregateId)
    && (forall r :: 0 <= r < |w.bornAt| ==> w'.bornAt[r] == w.bornAt[r])
    && (forall j :: 0 <= j < |w.recomputes| ==>
          && w'.recomputes[j].product == w.recomputes[j].product && w'.recomputes[j].seen == w.recomputes[j].seen
          && (w.recomputes[j].fate == Landed ==> w'.recomputes[j].fate == Landed))
  }

  lemma StepsGrow(w: World, c: Config, s: Step)
    requires Enabled(w, c, s) && PassesSound(w)
    ensures Grows(w, Next(w, c, s))
  {
    if s.Commit? {
      CommitMarks(w, c, s);
    } else if s.Finish? {
      TransactEmitsExactlyOnWrite(w.db, w.calls[s.i].request, w.calls[s.i].state.captured, s.token, s.now);
    }
  }

  lemma BornKept(w: World, c: Config, s: Step)
    requires Enabled(w, c, s) && PassesSound(w) && BornFits(w)
    ensures BornFits(Next(w, c, s))
  {
    if s.Commit? {
      CommitMarks(w, c, s);
    } else if s.Finish? {
      TransactEmitsExactlyOnWrite(w.db, w.calls[s.i].request, w.calls[s.i].state.captured, s.token, s.now);
    }
  }

  /** A transaction that changes a product's rating inserts an event of it. */
  lemma RatingChangesWithAnEvent(w: World, c: Config, s: Step, p: ProductId)
    requires Enabled(w, c, s) && TableSound(w) && PassesSound(w) && BornFits(w)
    ensures var w' := Next(w, c, s);
            RatingOf(w'.db.reviews, p) == RatingOf(w.db.reviews, p)
            || (RowOf(w', |w.db.rows|, p) && |w.db.rows| < |w'.bornAt| && w'.bornAt[|w.db.rows|] == |w.recomputes|)
  {
    if s.Finish? {
      var call := w.calls[s.i];
      TransactEmitsExactlyOnWrite(w.db, call.request, call.state.captured, s.token, s.now);
      if p != call.state.captured.product {
        OtherProductsKeepTheirRating(w, c, s, p);
      }
    } else if s.Commit? {
      CommitMarks(w, c, s);
    }
  }

  lemma ReadsKept(w: World, c: Config, s: Step, j: nat)
    requires Enabled(w, c, s) && TableSound(w) && PassesSound(w) && BornFits(w)
    requires j < |w.recomputes| && ReadFits(w, j)
    ensures ReadFits(Next(w, c, s), j)
  {
    var w', r := Next(w, c, s), w.recomputes[j];
    StepsGrow(w, c, s);
    RatingChangesWithAnEvent(w, c, s, r.product);
    if EventSince(w, r.product, j) {
      var x: nat :| RowOf(w, x, r.product) && x < |w.bornAt| && w.bornAt[x] > j;
      assert RowOf(w', x, r.product);
    }
  }

  /** A recompute that just started has read what there is. */
  lemma NewReadsFit(w: World, c: Config, s: Step, j: nat)
    requires Enabled(w, c, s) && |w.recomputes| <= j < |Next(w, c, s).recomputes|
    ensures ReadFits(Next(w, c, s), j)
  {
  }

  lemma UnratedKept(w: World, c: Config, s: Step, p: ProductId)
    requires Enabled(w, c, s) && TableSound(w) && PassesSound(w) && BornFits(w) && UnratedFits(w, p)
    ensures UnratedFits(Next(w, c, s), p)
  {
    var w' := Next(w, c, s);
    StepsGrow(w, c, s);
    RatingChangesWithAnEvent(w, c, s, p);
    if x: nat :| RowOf(w, x, p) {
      assert RowOf(w', x, p);
    }
  }

  lemma ServedCarries(w: World, w': World, r: nat)
    requires Grows(w, w') && Served(w, r)
    ensures Served(w', r)
  {
    var j :| w.bornAt[r] <= j && LandedFor(w, j, w.db.rows[r].aggregateId);
    assert LandedFor(w', j, w'.db.rows[r].aggregateId);
  }

  /** A row is spent anew only when the apply of it reports success. */
  lemma SpendingIsAnApply(w: World, c: Config, s: Step, r: nat)
    requires Enabled(w, c, s) && PassesSound(w) && Spent(Next(w, c, s), r)
    ensures Spent(w, r) || (s.EndApply? && s.ok && r == NextRow(w.passes[s.k]))
  {
    var w' := Next(w, c, s);
    if s.Commit? {
      CommitMarks(w, c, s);
    } else if s.Finish? {
      TransactEmitsExactlyOnWrite(w.db, w.calls[s.i].request, w.calls[s.i].state.captured, s.token, s.now);
    }
    if AppliedByOpenPass(w', r) {
      var k :| 0 <= k < |w'.passes| && w'.passes[k].open && AppliedIn(w'.passes[k], r);
      assert k < |w.passes| && !(s.EndApply? && k == s.k) ==> w.passes[k].open && AppliedIn(w.passes[k], r);
    }
  }

  lemma ServedKept(w: World, c: Config, s: Step)
    requires Enabled(w, c, s) && PassesSound(w) && BornFits(w) && ServedFits(w)
    requires forall k :: 0 <= k < |w.passes| ==> RunningFits(w, w.passes[k])
    ensures ServedFits(Next(w, c, s))
  {
    var w' := Next(w, c, s);
    StepsGrow(w, c, s);
    forall r: nat | Spent(w', r)
      ensures Served(w', r)
    {
      SpendingIsAnApply(w, c, s, r);
      if !Spent(w, r) {
        assert RunningFits(w, w.passes[s.k]);
        assert LandedFor(w, w.passes[s.k].running.value, w.db.rows[r].aggregateId);
      }
      assert Served(w, r);
      ServedCarries(w, w', r);
    }
  }

  lemma RunningKept(w: World, c: Config, s: Step, k: nat)
    requires Enabled(w, c, s) && PassesSound(w) && BornFits(w)
    requires k < |w.passes| && RunningFits(w, w.passes[k])
    ensures RunningFits(Next(w, c, s), Next(w, c, s).passes[k])
  {
    StepsGrow(w, c, s);
  }

  lemma LandedKept(w: World, c: Config, s: Step)
    requires Enabled(w, c, s) && LandedFits(w)
    ensures LandedFits(Next(w, c, s))
  {
  }

  lemma DatedKept(w: World, c: Config, s: Step)
    requires Enabled(w, c, s) && TableSound(w) && PassesSound(w) && Dated(w)
    ensures Dated(Next(w, c, s))
  {
    var w' := Next(w, c, s);
    BornKept(w, c, s);
    LandedKept(w, c, s);
    ServedKept(w, c, s);
    forall j | 0 <= j < |w'.recomputes|
      ensures ReadFits(w', j)
    {
      if j < |w.recomputes| {
        ReadsKept(w, c, s, j);
      } else {
        NewReadsFit(w, c, s, j);
      }
    }
    forall p
      ensures UnratedFits(w', p)
    {
      UnratedKept(w, c, s, p);
    }
    forall k | 0 <= k < |w'.passes|
      ensures RunningFits(w', w'.passes[k])
    {
      if k < |w.passes| {
        RunningKept(w, c, s, k);
      }
    }
  }

  lemma {:induction false} DatedAlways(c: Config, steps: seq<Step>)
    ensures Dated(Exec(START, c, steps))
  {
    if steps == [] {
      forall p ensures UnratedFits(START, p) {
        assert PublishedRatings(map[], p) == map[];
      }
    } else {
      var front := steps[..|steps| - 1];
      DatedAlways(c, front);
      TableSoundAlways(c, front);
      PassesSoundAlways(c, front);
      var before, s := Exec(START, c, front), steps[|steps| - 1];
      if Enabled(before, c, s) {
        DatedKept(before, c, s);
      }
    }
  }

  // ---------------------------------------------------------------------------------------------
  // Current, visibly owed, or overtaken
  // ---------------------------------------------------------------------------------------------

  /** If no row owes `p`, every event of it was served, so a recompute of it landed that read what there is. */
  lemma UnowedIsServed(w: World, p: ProductId, r: nat)
    requires Dated(w) && RowOf(w, r, p) && !Owes(w, p, r)
    ensures Served(w, r)
  {
    assert Spent(w, r);
  }

  lemma ServedHasLanded(w: World, p: ProductId, r: nat)
    requires LandedFits(w) && RowOf(w, r, p) && Served(w, r)
    ensures p in w.lastLanded && exists j :: w.bornAt[r] <= j && LandedFor(w, j, p)
  {
    var j :| w.bornAt[r] <= j && LandedFor(w, j, p);
  }

  lemma CurrentOwedOrOvertaken(w: World, p: ProductId)
    requires Dated(w)
    ensures Current(w, p) || (exists r :: Owes(w, p, r)) || Overtaken(w, p)
  {
    if forall r :: !Owes(w, p, r) {
      assert UnratedFits(w, p);
      forall r: nat | RowOf(w, r, p)
        ensures Served(w, r) && p in w.lastLanded && exists j :: w.bornAt[r] <= j && LandedFor(w, j, p)
      {
        UnowedIsServed(w, p, r);
        ServedHasLanded(w, p, r);
      }
      if p in w.lastLanded {
        var last := w.lastLanded[p];
        assert ReadFits(w, last);
        if EventSince(w, p, last) {
          var r: nat :| RowOf(w, r, p) && r < |w.bornAt| && w.bornAt[r] > last;
          var j :| w.bornAt[r] <= j && LandedFor(w, j, p);
          assert Overtaken(w, p);
        }
      }
    }
  }

  /** In every interleaving of review writes, relay passes, crashes between apply and mark, rebuilds and overlapping
    * recomputes, each product's projection is the aggregate of its published reviews, or an outbox row shows the
    * recompute it is still owed, or an older recompute landed over a newer one. */
  lemma ProjectionIsCurrentOrOwed(c: Config, steps: seq<Step>, p: ProductId)
    ensures var w := Exec(START, c, steps);
            Current(w, p) || (exists r :: Owes(w, p, r)) || Overtaken(w, p)
  {
    DatedAlways(c, steps);
    CurrentOwedOrOvertaken(Exec(START, c, steps), p);
  }

  /** Once every event is processed, the projection is exact for every product that was not overtaken. */
  lemma DrainedProjectionIsExact(c: Config, steps: seq<Step>)
    requires forall row <- Exec(START, c, steps).db.rows :: row.status == RowProcessed
    ensures var w := Exec(START, c, steps); forall p :: Current(w, p) || Overtaken(w, p)
  {
    var w := Exec(START, c, steps);
    forall p ensures Current(w, p) || Overtaken(w, p) {
      ProjectionIsCurrentOrOwed(c, steps, p);
      assert forall r: nat :: r < |w.db.rows| ==> w.db.rows[r] in w.db.rows;
    }
  }

  // ---------------------------------------------------------------------------------------------
  // When a product can be overtaken
  // ---------------------------------------------------------------------------------------------

  ghost predicate UnderWayFor(w: World, j: nat, p: ProductId) {
    j < |w.recomputes| && w.recomputes[j].product == p && w.recomputes[j].fate == UnderWay
  }

  /** The step starts a recompute of `p`. */
  ghost predicate Starts(w: World, c: Config, s: Step, p: ProductId) {
    Enabled(w, c, s) && |Next(w, c, s).recomputes| > |w.recomputes|
      && Next(w, c, s).recomputes[|w.recomputes|].product == p
  }

  /** No recompute of `p` starts while another one is under way. */
  ghost predicate Serial(c: Config, steps: seq<Step>, p: ProductId) {
    steps == [] ||
    var front, s := steps[..|steps| - 1], steps[|steps| - 1];
    var w := Exec(START, c, front);
    Serial(c, front, p) && (Starts(w, c, s, p) ==> forall j :: !UnderWayFor(w, j, p))
  }

  /** Behind a recompute of `p` under way no later one of `p` is under way or has landed. */
  ghost predicate InOrder(w: World, p: ProductId) {
    forall j, j' :: 0 <= j < j' && UnderWayFor(w, j, p) ==> !UnderWayFor(w, j', p) && !LandedFor(w, j', p)
  }

  lemma InOrderKept(w: World, c: Config, s: Step, p: ProductId)
    requires Enabled(w, c, s) && LandedFits(w) && InOrder(w, p) && !Overtaken(w, p)
    requires Starts(w, c, s, p) ==> forall j :: !UnderWayFor(w, j, p)
    ensures InOrder(Next(w, c, s), p) && !Overtaken(Next(w, c, s), p)
  {
    var w' := Next(w, c, s);
    forall j | UnderWayFor(w', j, p)
      ensures UnderWayFor(w, j, p) || (j == |w.recomputes| && Starts(w, c, s, p))
    {
    }
    forall j | LandedFor(w', j, p)
      ensures LandedFor(w, j, p) || (s == Land(j) && UnderWayFor(w, j, p))
    {
    }
  }

  /** If the recomputes of a product never overlap, it is never overtaken: its projection is always current or owed. */
  lemma {:induction false} SerialRecomputesAreNeverOvertaken(c: Config, steps: seq<Step>, p: ProductId)
    requires Serial(c, steps, p)
    ensures var w := Exec(START, c, steps);
            InOrder(w, p) && !Overtaken(w, p) && (Current(w, p) || exists r :: Owes(w, p, r))
  {
    ProjectionIsCurrentOrOwed(c, steps, p);
    if steps != [] {
      var front := steps[..|steps| - 1];
      SerialRecomputesAreNeverOvertaken(c, front, p);
      DatedAlways(c, front);
      var before, s := Exec(START, c, front), steps[|steps| - 1];
      if Enabled(before, c, s) {
        InOrderKept(before, c, s, p);
      }
    }
  }

  ghost predicate StartsNone(more: seq<Step>) {
    forall s <- more :: !s.StartApply? && !s.StartRecompute?
  }

  lemma {:induction false} InOrderStays(w: World, c: Config, more: seq<Step>, p: ProductId)
    requires LandedFits(w) && InOrder(w, p) && !Overtaken(w, p) && StartsNone(more)
    ensures var w' := Exec(w, c, more); LandedFits(w') && InOrder(w', p) && !Overtaken(w', p)
  {
    if more != [] {
      var front := more[..|more| - 1];
      InOrderStays(w, c, front, p);
      var before, s := Exec(w, c, front), more[|more| - 1];
      assert s in more;
      if Enabled(before, c, s) {
        LandedKept(before, c, s);
        InOrderKept(before, c, s, p);
      }
    }
  }

  lemma {:induction false} LandsLast(w: World, c: Config, more: seq<Step>, j: nat, j': nat, p: ProductId)
    requires var w' := Exec(w, c, more); j < j' && UnderWayFor(w', j, p) && LandedFor(w', j', p)
    ensures Overtaken(Exec(w, c, more + [Land(j)]), p)
  {
    var w' := Exec(w, c, more);
    assert (more + [Land(j)])[..|more|] == more;
    assert LandedFor(Next(w', c, Land(j)), j', p);
  }

  lemma OvertakingRun(w: World, c: Config, j: nat, j': nat, p: ProductId) returns (more: seq<Step>)
    requires j < j' && UnderWayFor(w, j, p) && (UnderWayFor(w, j', p) || LandedFor(w, j', p))
    ensures StartsNone(more) && Overtaken(Exec(w, c, more), p)
  {
    var first: seq<Step> := if LandedFor(w, j', p) then [] else [Land(j')];
    assert [Land(j')][..0] == [];
    LandsLast(w, c, first, j, j', p);
    more := first + [Land(j)];
  }

  /** The condition is exact: from any reachable state in which `p` is not overtaken, it can be overtaken without a
    * further recompute being started, if and only if one of its recomputes under way has a later one under way or
    * landed. */
  lemma CanBeOvertakenIff(c: Config, steps: seq<Step>, p: ProductId)
    requires !Overtaken(Exec(START, c, steps), p)
    ensures var w := Exec(START, c, steps);
            (exists more :: StartsNone(more) && Overtaken(Exec(w, c, more), p)) <==> !InOrder(w, p)
  {
    var w := Exec(START, c, steps);
    DatedAlways(c, steps);
    if InOrder(w, p) {
      forall more | StartsNone(more) ensures !Overtaken(Exec(w, c, more), p) {
        InOrderStays(w, c, more, p);
      }
    } else {
      var j, j' :| 0 <= j < j' && UnderWayFor(w, j, p) && (UnderWayFor(w, j', p) || LandedFor(w, j', p));
      var more := OvertakingRun(w, c, j, j', p);
    }
  }

  // ---------------------------------------------------------------------------------------------
  // When a current projection can go stale with no further write
  // ---------------------------------------------------------------------------------------------

  /** No review is written and no recompute is started. */
  ghost predicate Settling(more: seq<Step>) {
    StartsNone(more) && forall s <- more :: !s.Finish?
  }

  /** A recompute of `p` under way has read something else than what there is. */
  ghost predicate StaleUnderWay(w: World, p: ProductId) {
    exists j: nat :: UnderWayFor(w, j, p) && w.recomputes[j].seen != RatingOf(w.db.reviews, p)
  }

  lemma {:induction false} SettlingKeepsCurrent(w: World, c: Config, more: seq<Step>, p: ProductId)
    requires Current(w, p) && !StaleUnderWay(w, p) && Settling(more)
    ensures var w' := Exec(w, c, more); w'.db.reviews == w.db.reviews && Current(w', p) && !StaleUnderWay(w', p)
  {
    if more != [] {
      var front := more[..|more| - 1];
      SettlingKeepsCurrent(w, c, front, p);
      var before, s := Exec(w, c, front), more[|more| - 1];
      assert s in more;
      if Enabled(before, c, s) {
        var w' := Next(before, c, s);
        forall j: nat | UnderWayFor(w', j, p)
          ensures UnderWayFor(before, j, p) && w'.recomputes[j].seen == before.recomputes[j].seen
        {
        }
        assert s.Land? && before.recomputes[s.j].product == p ==> UnderWayFor(before, s.j, p);
      }
    }
  }

  /** A projection that is current can become stale again with no review written and no recompute started, if and only
    * if a recompute under way has read another rating than the present one. This does not depend on the events. */
  lemma CanGoStaleIff(w: World, c: Config, p: ProductId)
    requires Current(w, p)
    ensures (exists more :: Settling(more) && !Current(Exec(w, c, more), p)) <==> StaleUnderWay(w, p)
  {
    if StaleUnderWay(w, p) {
      var j: nat :| UnderWayFor(w, j, p) && w.recomputes[j].seen != RatingOf(w.db.reviews, p);
      assert [Land(j)][..0] == [];
      assert Settling([Land(j)]) && !Current(Exec(w, c, [Land(j)]), p);
    } else {
      forall more | Settling(more) ensures Current(Exec(w, c, more), p) {
        SettlingKeepsCurrent(w, c, more, p);
      }
    }
  }

  /** In those runs too: pending events have attempts left, dead ones used exactly the ceiling and are in triage. */
  lemma {:induction false} OutboxSoundAlways(c: Config, steps: seq<Step>)
    requires c.maxAttempts >= 1
    ensures var w := Exec(START, c, steps);
            Sound(w.db.rows, w.letters, c.maxAttempts)
  {
    if steps != [] {
      var front := steps[..|steps| - 1];
      OutboxSoundAlways(c, front);
      var w, s := Exec(START, c, front), steps[|steps| - 1];
      if Enabled(w, c, s) {
        if s.Finish? {
          var call := w.calls[s.i];
          TransactEmitsExactlyOnWrite(w.db, call.request, call.state.captured, s.token, s.now);
          InsertsKeepSound(w.db.rows, w.letters, c.maxAttempts,
            [OutboxInsert(call.state.captured.product, RECOMPUTE_OP)]);
        } else if s.Commit? {
          PassesSoundAlways(c, front);
          assert PassFits(w, w.passes[s.k]);
          HandlingKeepsSound(w.db.rows, w.letters, w.passes[s.k].claimed, (i: nat) => AppliedIn(w.passes[s.k], i),
            c.maxAttempts);
        }
      }
    }
  }
}
