/** Review runs that show where a guarantee stops. Each lemma returns a concrete run. */
module ReviewExamples {
  import opened Common
  import opened Outbox
  import opened Reviews
  import opened ReviewRuns
  import opened Projection

  const SHOP: Config := Config({"p"}, 5)
  const SUBMIT: Request := Submit("p", "ann", 5, "title", "body")
  const WRITTEN: Review := Review("p", "ann", 5, "title", "body", Published, 0)

  lemma Advance(w: World, steps: seq<Step>, s: Step) returns (w': World, steps': seq<Step>)
    requires w == Exec(START, SHOP, steps) && Enabled(w, SHOP, s)
    ensures w' == Next(w, SHOP, s) && steps' == steps + [s] && w' == Exec(START, SHOP, steps')
  {
    w', steps' := Next(w, SHOP, s), steps + [s];
    assert steps'[..|steps'| - 1] == steps;
  }

  // ---------------------------------------------------------------------------------------------
  // Two identical submissions, two tokens
  // ---------------------------------------------------------------------------------------------

  const UNDER_WAY: Call := Call(SUBMIT, InFlight(Captured("p", "ann", Published)))

  /** Two identical submissions have passed their state check, and the first one has created its review. */
  lemma OneOfTwoCreated() returns (w: World, steps: seq<Step>)
    ensures w == Exec(START, SHOP, steps) && w.db.reviews == map["t1" := WRITTEN] && w.minted == {"t1"}
    ensures w.calls == [Call(SUBMIT, Answered(Created("t1"))), UNDER_WAY]
  {
    w, steps := START, [];
    assert ReviewsBy(map[], "p", "ann") == {};
    w, steps := Advance(w, steps, Begin(SUBMIT));
    w, steps := Advance(w, steps, Begin(SUBMIT));
    assert w.calls == [UNDER_WAY, UNDER_WAY];
    w, steps := Advance(w, steps, Finish(0, "t1", 0));
  }

  /** Their author removes that review before the second one's transaction: both are answered Created. */
  lemma IdenticalSubmitsCanBothCreate() returns (w: World, steps: seq<Step>)
    ensures w == Exec(START, SHOP, steps)
    ensures |w.calls| == 3 && w.calls[0] == Call(SUBMIT, Answered(Created("t1")))
    ensures w.calls[1] == Call(SUBMIT, Answered(Created("t2")))
  {
    w, steps := OneOfTwoCreated();
    w, steps := Advance(w, steps, Begin(Remove("t1", "ann")));
    w, steps := Advance(w, steps, Finish(2, "unused", 0));
    assert w.db.reviews == map[];
    assert ReviewsBy(w.db.reviews, "p", "ann") == {};
    w, steps := Advance(w, steps, Finish(1, "t2", 0));
  }

  // ---------------------------------------------------------------------------------------------
  // An older recompute lands over a newer one
  // ---------------------------------------------------------------------------------------------

  const EVENT: OutboxRow := OutboxRow("p", RECOMPUTE_OP, 0, RowPending)
  const STALE: Recompute := Recompute("p", Rating(0, 0), UnderWay)

  /** A recompute has read the unrated product; then its first review is committed. */
  lemma ReviewAfterRead() returns (w: World, steps: seq<Step>)
    ensures w == Exec(START, SHOP, steps) && w.db == Db(map["t1" := WRITTEN], [EVENT])
    ensures w.recomputes == [STALE] && w.passes == [] && w.letters == map[]
  {
    w, steps := START, [];
    assert PublishedRatings(map[], "p") == map[];
    w, steps := Advance(w, steps, StartRecompute("p"));
    assert ReviewsBy(map[], "p", "ann") == {};
    w, steps := Advance(w, steps, Begin(SUBMIT));
    assert w.calls == [UNDER_WAY];
    w, steps := Advance(w, steps, Finish(0, "t1", 0));
  }

  lemma TheEventIsClaimed()
    ensures Claimed([EVENT], {}, 1) == [0]
  {
    assert ClaimedBelow([EVENT], {}, 1, 0) == [];
    assert Claimable([EVENT], {}, 0);
  }

  lemma EventClaimed() returns (w: World, steps: seq<Step>)
    ensures w == Exec(START, SHOP, steps) && w.db == Db(map["t1" := WRITTEN], [EVENT]) && w.letters == map[]
    ensures w.recomputes == [STALE] && w.passes == [RelayPass([0], [], true, None)]
  {
    w, steps := ReviewAfterRead();
    TheEventIsClaimed();
    assert HeldBy([]) == {};
    w, steps := Advance(w, steps, Claim(1));
  }

  /** The event's own recompute has read the review and landed. */
  lemma EventRecomputed() returns (w: World, steps: seq<Step>)
    ensures w == Exec(START, SHOP, steps) && w.db == Db(map["t1" := WRITTEN], [EVENT]) && w.letters == map[]
    ensures |w.recomputes| == 2 && w.recomputes[0] == STALE
    ensures w.recomputes[1].product == "p" && w.recomputes[1].fate == Landed
    ensures w.passes == [RelayPass([0], [], true, Some(1))]
  {
    w, steps := EventClaimed();
    w, steps := Advance(w, steps, StartApply(0));
    assert w.recomputes[1].product == "p" && w.passes == [RelayPass([0], [], true, Some(1))];
    w, steps := Advance(w, steps, Land(1));
  }

  lemma CommitProcessesTheEvent(pass: RelayPass)
    requires pass.claimed == [0] && pass.outcomes == [true]
    ensures HandleRows([EVENT], map[], pass.claimed, (i: nat) => AppliedIn(pass, i), 5).rows
            == [EVENT.(status := RowProcessed)]
  {
    assert pass.claimed[0] == 0 && pass.outcomes[0];
    assert AppliedIn(pass, 0);
    assert pass.claimed[..0] == [];
  }

  lemma EventProcessed() returns (w: World, steps: seq<Step>)
    ensures w == Exec(START, SHOP, steps) && w.db == Db(map["t1" := WRITTEN], [EVENT.(status := RowProcessed)])
    ensures |w.recomputes| == 2 && w.recomputes[0] == STALE
    ensures w.recomputes[1].product == "p" && w.recomputes[1].fate == Landed
  {
    w, steps := EventRecomputed();
    w, steps := Advance(w, steps, EndApply(0, true));
    assert w.passes[0].claimed == [0] && w.passes[0].outcomes == [true];
    CommitProcessesTheEvent(w.passes[0]);
    w, steps := Advance(w, steps, Commit(0));
  }

  /** Every event is processed, nothing is owed, and the product reads as unrated although it has a review. */
  lemma StaleRecomputeCanLandLast() returns (w: World, steps: seq<Step>)
    ensures w == Exec(START, SHOP, steps) && (forall row <- w.db.rows :: row.status == RowProcessed)
    ensures !Current(w, "p") && Overtaken(w, "p")
  {
    w, steps := EventProcessed();
    w, steps := Advance(w, steps, Land(0));
    assert PublishedRatings(w.db.reviews, "p") == map["t1" := 5];
    assert LandedFor(w, 1, "p");
  }
}
