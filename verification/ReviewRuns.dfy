/**
 * Every interleaving of review calls, relay passes, rebuilds and recomputes over one catalogue.
 *
 * A relay pass is open from its claim to its commit or crash; its marks become visible only at its commit. apply runs
 * on the pooled connection, outside that transaction. A recompute is one SQL statement, but not one step: it READS the
 * reviews as they are when it starts, and its row LANDS when it commits. Recomputes of one product may overlap, and a
 * recompute may land even when the call that ran it has failed or its relay has crashed.
 */
module ReviewRuns {
  import opened Common
  import opened Outbox
  import opened Reviews

  // ---------------------------------------------------------------------------------------------
  // The rating projection
  // ---------------------------------------------------------------------------------------------

  /** What a projection row is computed from; the stored average is a function of it. */
  datatype Rating = Rating(count: nat, sum: int)

  function PublishedRatings(reviews: ReviewTable, p: ProductId): map<Token, int> {
    map t | t in reviews && reviews[t].product == p && reviews[t].state == Published :: reviews[t].rating
  }

  ghost function SumOf(m: map<Token, int>): int {
    if m == map[] then 0
    else
      var t :| t in m;
      m[t] + SumOf(m - {t})
  }

  ghost function RatingOf(reviews: ReviewTable, p: ProductId): Rating {
    var published := PublishedRatings(reviews, p);
    Rating(|published|, SumOf(published))
  }

  // ---------------------------------------------------------------------------------------------
  // Runs
  // ---------------------------------------------------------------------------------------------

  datatype Call = Call(request: Request, state: CallState)

  /** One recompute statement: what it read when it started, and whether its row landed or was lost. */
  datatype Recompute = Recompute(product: ProductId, seen: Rating, fate: Fate)

  datatype Fate = UnderWay | Landed | Lost

  /** One open relay transaction: the rows it holds, the apply outcomes so far, in claim order, and the recompute the
    * apply of the next row has started. */
  datatype RelayPass = RelayPass(claimed: seq<nat>, outcomes: seq<bool>, open: bool, running: Option<nat>)

  /** `bornAt` is, for each event row, how many recomputes had started when it was inserted; `lastLanded` is the
    * recompute each projection row was written by. */
  datatype World = World(
    db: Db,
    letters: map<string, nat>,
    ratings: map<ProductId, Rating>,
    calls: seq<Call>,
    passes: seq<RelayPass>,
    minted: set<Token>,
    recomputes: seq<Recompute>,
    bornAt: seq<nat>,
    lastLanded: map<ProductId, nat>)

  const START: World := World(Db(map[], []), map[], map[], [], [], {}, [], [], map[])

  datatype Config = Config(products: set<ProductId>, maxAttempts: nat)

  datatype Step =
    | Begin(request: Request)
    | Finish(i: nat, token: Token, now: int)
    | Claim(batchSize: nat)
    | StartApply(k: nat)
    | EndApply(k: nat, ok: bool)
    | Commit(k: nat)
    | Crash(k: nat)
    | StartRecompute(p: ProductId)
    | Land(j: nat)
    | Lose(j: nat)

  function HeldBy(passes: seq<RelayPass>): set<nat> {
    set k, i | 0 <= k < |passes| && passes[k].open && i in passes[k].claimed :: i
  }

  /** The pass succeeded in applying row `i`. */
  predicate AppliedIn(pass: RelayPass, i: nat) {
    exists x :: 0 <= x < |pass.claimed| && x < |pass.outcomes| && pass.claimed[x] == i && pass.outcomes[x]
  }

  /** The pass has a next row to apply. */
  predicate AtRow(w: World, k: nat) {
    && k < |w.passes| && w.passes[k].open && |w.passes[k].outcomes| < |w.passes[k].claimed|
    && NextRow(w.passes[k]) < |w.db.rows|
  }

  function NextRow(pass: RelayPass): nat
    requires |pass.outcomes| < |pass.claimed|
  {
    pass.claimed[|pass.outcomes|]
  }

  /** The recompute this apply started has landed. */
  predicate RanToTheEnd(w: World, pass: RelayPass) {
    pass.running.Some? && pass.running.value < |w.recomputes| && w.recomputes[pass.running.value].fate == Landed
  }

  predicate Enabled(w: World, c: Config, s: Step) {
    match s
    case Begin(_) => true
    case Finish(i, token, _) => i < |w.calls| && w.calls[i].state.InFlight? && token !in w.minted
    case Claim(_) => true
    case StartApply(k) => AtRow(w, k) && w.passes[k].running == None
    case EndApply(k, ok) => AtRow(w, k) && (ok ==> RanToTheEnd(w, w.passes[k]))
    case Commit(k) => k < |w.passes| && w.passes[k].open && |w.passes[k].outcomes| == |w.passes[k].claimed|
    case Crash(k) => k < |w.passes| && w.passes[k].open
    case StartRecompute(_) => true
    case Land(j) => j < |w.recomputes| && w.recomputes[j].fate == UnderWay
    case Lose(j) => j < |w.recomputes| && w.recomputes[j].fate == UnderWay
  }

  /** The statement reads its snapshot. */
  ghost function Reading(w: World, p: ProductId): Recompute {
    Recompute(p, RatingOf(w.db.reviews, p), UnderWay)
  }

  ghost function Next(w: World, c: Config, s: Step): World
    requires Enabled(w, c, s)
  {
    match s
    case Begin(request) => w.(calls := w.calls + [Call(request, StateCheck(w.db.reviews, c.products, request))])
    case Finish(i, token, now) =>
      var call := w.calls[i];
      var (db, answer) := Transact(w.db, call.request, call.state.captured, token, now);
      w.(db := db, calls := w.calls[i := call.(state := Answered(answer))],
      minted := if answer.Created? then w.minted + {token} else w.minted,
      bornAt := if Wrote(answer) then w.bornAt + [|w.recomputes|] else w.bornAt)
    case Claim(batchSize) =>
      w.(passes := w.passes + [RelayPass(Claimed(w.db.rows, HeldBy(w.passes), batchSize), [], true, None)])
    case StartApply(k) =>
      var pass := w.passes[k];
      w.(passes := w.passes[k := pass.(running := Some(|w.recomputes|))],
      recomputes := w.recomputes + [Reading(w, w.db.rows[NextRow(pass)].aggregateId)])
    case EndApply(k, ok) =>
      var pass := w.passes[k];
      w.(passes := w.passes[k := pass.(outcomes := pass.outcomes + [ok], running := None)])
    case Commit(k) =>
      var pass := w.passes[k];
      var r := HandleRows(w.db.rows, w.letters, pass.claimed, (i: nat) => AppliedIn(pass, i), c.maxAttempts);
      w.(db := w.db.(rows := r.rows), letters := r.letters, passes := w.passes[k := pass.(open := false)])
    case Crash(k) => w.(passes := w.passes[k := w.passes[k].(open := false)])
    case StartRecompute(p) => w.(recomputes := w.recomputes + [Reading(w, p)])
    case Land(j) =>
      var r := w.recomputes[j];
      w.(ratings := w.ratings[r.product := r.seen], lastLanded := w.lastLanded[r.product := j],
      recomputes := w.recomputes[j := r.(fate := Landed)])
    case Lose(j) => w.(recomputes := w.recomputes[j := w.recomputes[j].(fate := Lost)])
  }

  ghost function Exec(w: World, c: Config, steps: seq<Step>): World {
    if steps == [] then w
    else
      var before := Exec(w, c, steps[..|steps| - 1]);
      if Enabled(before, c, steps[|steps| - 1]) then Next(before, c, steps[|steps| - 1]) else before
  }

  // ---------------------------------------------------------------------------------------------
  // The review table and its calls
  // ---------------------------------------------------------------------------------------------

  /** An in-flight call still knows its review's product and author, and a flip starts from the other state. */
  ghost predicate CallFits(w: World, call: Call) {
    call.state.InFlight? ==>
      match call.request
      case Submit(p, a, _, _, _) => call.state.captured.product == p
      case Edit(t, a, _, _, _) => Remembers(w, t, call.state.captured)
      case Remove(t, a) => Remembers(w, t, call.state.captured)
      case Moderate(t, target) =>
        Remembers(w, t, call.state.captured) && call.state.captured.before != AwaitingReview
        && call.state.captured.before != target
  }

  ghost predicate Remembers(w: World, t: Token, c: Captured) {
    t in w.minted && (t in w.db.reviews ==> w.db.reviews[t].product == c.product && w.db.reviews[t].author == c.author)
  }

  ghost predicate TableSound(w: World) {
    && OnePerAuthor(w.db.reviews)
    && (forall t <- w.db.reviews :: t in w.minted && w.db.reviews[t].state != AwaitingReview)
    && (forall i :: 0 <= i < |w.calls| ==> CallFits(w, w.calls[i]))
  }

  /** After a transaction the table is sound, and a token minted before still names the review it named. */
  ghost predicate TableCarriesOver(w: World, w': World) {
    && OnePerAuthor(w'.db.reviews)
    && (forall t <- w'.db.reviews :: t in w'.minted && w'.db.reviews[t].state != AwaitingReview)
    && (forall t <- w'.db.reviews :: t in w.minted ==>
          t in w.db.reviews && w'.db.reviews[t].product == w.db.reviews[t].product
          && w'.db.reviews[t].author == w.db.reviews[t].author
          && w'.db.reviews[t].createdAt == w.db.reviews[t].createdAt)
  }

  lemma SubmitKeepsTable(w: World, c: Config, s: Step)
    requires Enabled(w, c, s) && s.Finish? && TableSound(w) && w.calls[s.i].request.Submit?
    ensures TableCarriesOver(w, Next(w, c, s))
  {
    var theirs := ReviewsBy(w.db.reviews, w.calls[s.i].state.captured.product, w.calls[s.i].request.author);
    assert theirs == {} ==> forall t <- w.db.reviews :: t !in theirs;
  }

  lemma RemovalKeepsTable(w: World, c: Config, s: Step)
    requires Enabled(w, c, s) && s.Finish? && TableSound(w) && w.calls[s.i].request.Remove?
    ensures TableCarriesOver(w, Next(w, c, s))
  {
  }

  lemma ReplacingKeepsOnePerAuthor(reviews: ReviewTable, t: Token, r: Review)
    requires OnePerAuthor(reviews) && t in reviews && r.product == reviews[t].product && r.author == reviews[t].author
    ensures OnePerAuthor(reviews[t := r])
  {
  }

  lemma EditKeepsTable(w: World, c: Config, s: Step)
    requires Enabled(w, c, s) && s.Finish? && TableSound(w) && w.calls[s.i].request.Edit?
    ensures TableCarriesOver(w, Next(w, c, s))
  {
    var t := w.calls[s.i].request.token;
    if t in w.db.reviews && t in Next(w, c, s).db.reviews {
      ReplacingKeepsOnePerAuthor(w.db.reviews, t, Next(w, c, s).db.reviews[t]);
    }
  }

  lemma ModerationKeepsTable(w: World, c: Config, s: Step)
    requires Enabled(w, c, s) && s.Finish? && TableSound(w) && w.calls[s.i].request.Moderate?
    ensures TableCarriesOver(w, Next(w, c, s))
  {
    var t := w.calls[s.i].request.token;
    if t in w.db.reviews && t in Next(w, c, s).db.reviews {
      ReplacingKeepsOnePerAuthor(w.db.reviews, t, Next(w, c, s).db.reviews[t]);
    }
  }

  /** What a transaction does to the review table, whichever call it belongs to. */
  lemma TransactKeepsTable(w: World, c: Config, s: Step)
    requires Enabled(w, c, s) && s.Finish? && TableSound(w)
    ensures TableCarriesOver(w, Next(w, c, s))
  {
    match w.calls[s.i].request
    case Submit(_, _, _, _, _) => SubmitKeepsTable(w, c, s);
    case Remove(_, _) => RemovalKeepsTable(w, c, s);
    case Edit(_, _, _, _, _) => EditKeepsTable(w, c, s);
    case Moderate(_, _) => ModerationKeepsTable(w, c, s);
  }

  lemma TableKept(w: World, c: Config, s: Step)
    requires Enabled(w, c, s) && TableSound(w)
    ensures TableSound(Next(w, c, s))
  {
    var w' := Next(w, c, s);
    if s.Finish? {
      TransactKeepsTable(w, c, s);
    }
    forall i | 0 <= i < |w'.calls|
      ensures CallFits(w', w'.calls[i])
    {
      if i < |w.calls| {
        assert CallFits(w, w.calls[i]);
      }
    }
  }

  /** No two reviews ever share (product, author), and no review is ever `pending`. */
  lemma {:induction false} TableSoundAlways(c: Config, steps: seq<Step>)
    ensures TableSound(Exec(START, c, steps))
  {
    if steps != [] {
      var front := steps[..|steps| - 1];
      TableSoundAlways(c, front);
      var before, s := Exec(START, c, front), steps[|steps| - 1];
      if Enabled(before, c, s) {
        TableKept(before, c, s);
      }
    }
  }

  /** A token names the same review for as long as it is there: once gone it never comes back, and its product, author
    * and creation time never change. */
  lemma {:induction false} TokensAreNeverReused(c: Config, steps: seq<Step>, n: nat, t: Token)
    requires n <= |steps|
    ensures var early, late := Exec(START, c, steps[..n]), Exec(START, c, steps);
            t in early.minted ==>
              && t in late.minted
              && (t in late.db.reviews ==>
                    && t in early.db.reviews && late.db.reviews[t].product == early.db.reviews[t].product
                    && late.db.reviews[t].author == early.db.reviews[t].author
                    && late.db.reviews[t].createdAt == early.db.reviews[t].createdAt)
  {
    if n == |steps| {
      assert steps[..n] == steps;
    } else {
      var front := steps[..|steps| - 1];
      assert front[..n] == steps[..n];
      TokensAreNeverReused(c, front, n, t);
      TableSoundAlways(c, front);
      var before, s := Exec(START, c, front), steps[|steps| - 1];
      if Enabled(before, c, s) && s.Finish? {
        TransactKeepsTable(before, c, s);
      }
    }
  }

  // ---------------------------------------------------------------------------------------------
  // Events and writes match one to one
  // ---------------------------------------------------------------------------------------------

  ghost function Writes(calls: seq<Call>): set<nat> {
    set i: nat | i < |calls| && calls[i].state.Answered? && Wrote(calls[i].state.answer)
  }

  lemma MarksKeepTheRowCount(
    rows: seq<OutboxRow>, letters: map<string, nat>, claimed: seq<nat>, applied: nat -> bool, max: nat)
    ensures |HandleRows(rows, letters, claimed, applied, max).rows| == |rows|
  {
    if claimed != [] {
      MarksKeepTheRowCount(rows, letters, claimed[..|claimed| - 1], applied, max);
    }
  }

  lemma TransactEmitsExactlyOnWrite(db: Db, r: Request, c: Captured, minted: Token, now: int)
    ensures var (db', answer) := Transact(db, r, c, minted, now);
            && db'.rows == (if Wrote(answer) then Emit(db.rows, c.product) else db.rows)
            && (!Wrote(answer) ==> db' == db)
  {
  }

  lemma AnsweringCounts(calls: seq<Call>, i: nat, a: Answer)
    requires i < |calls| && calls[i].state.InFlight?
    ensures |Writes(calls[i := calls[i].(state := Answered(a))])| == |Writes(calls)| + (if Wrote(a) then 1 else 0)
  {
    var calls' := calls[i := calls[i].(state := Answered(a))];
    assert Writes(calls') == if Wrote(a) then Writes(calls) + {i} else Writes(calls);
  }

  lemma EventsKept(w: World, c: Config, s: Step)
    requires Enabled(w, c, s) && |w.db.rows| == |Writes(w.calls)|
    ensures |Next(w, c, s).db.rows| == |Writes(Next(w, c, s).calls)|
  {
    match s
    case Finish(i, token, now) =>
      var call := w.calls[i];
      var (db, answer) := Transact(w.db, call.request, call.state.captured, token, now);
      TransactEmitsExactlyOnWrite(w.db, call.request, call.state.captured, token, now);
      AnsweringCounts(w.calls, i, answer);
      assert Next(w, c, s).calls == w.calls[i := call.(state := Answered(answer))];
    case Begin(request) =>
      StateCheckNeverWrites(w.db.reviews, c.products, request);
      assert Writes(Next(w, c, s).calls) == Writes(w.calls);
    case Commit(k) =>
      MarksKeepTheRowCount(w.db.rows, w.letters, w.passes[k].claimed, (i: nat) => AppliedIn(w.passes[k], i),
        c.maxAttempts);
    case _ =>
  }

  lemma StateCheckNeverWrites(reviews: ReviewTable, products: set<ProductId>, r: Request)
    ensures var state := StateCheck(reviews, products, r);
            state.Answered? ==> !Wrote(state.answer)
  {
  }

  /** The recompute events ever inserted are exactly the calls that committed a write: created, edited, removed or
    * flipped. Replays, conflicts, refusals and no-ops add none. */
  lemma {:induction false} EventsAreExactlyTheWrites(c: Config, steps: seq<Step>)
    ensures var w := Exec(START, c, steps);
            |w.db.rows| == |Writes(w.calls)|
  {
    if steps == [] {
      assert Writes([]) == {};
    } else {
      var front := steps[..|steps| - 1];
      EventsAreExactlyTheWrites(c, front);
      var before, s := Exec(START, c, front), steps[|steps| - 1];
      if Enabled(before, c, s) {
        EventsKept(before, c, s);
      }
    }
  }

  // ---------------------------------------------------------------------------------------------
  // Answers are true
  // ---------------------------------------------------------------------------------------------

  predicate SameText(r: Review, s: Request)
    requires s.Submit?
  {
    r.rating == s.rating && r.title == s.title && r.body == s.body
  }

  /** The field given in an edit, or the one that was there. */
  predicate Takes<T(==)>(given: Option<T>, before: T, after: T) {
    match given
    case Some(v) => after == v
    case None => after == before
  }

  /** Every field an edit gives is taken, every field it omits stays, and so do all others. */
  predicate EditedTo(before: Review, after: Review, e: Request)
    requires e.Edit?
  {
    && Takes(e.newRating, before.rating, after.rating)
    && Takes(e.newTitle, before.title, after.title)
    && Takes(e.newBody, before.body, after.body)
    && after.product == before.product && after.author == before.author
    && after.state == before.state && after.createdAt == before.createdAt
  }

  /** No other review was touched, and one recompute event for `product` was appended. */
  ghost predicate WroteOnly(before: Db, after: Db, t: Token, product: ProductId) {
    && after.reviews - {t} == before.reviews - {t}
    && after.rows == before.rows + [OutboxRow(product, "rating.recompute", 0, RowPending)]
  }

  /** What an answer says about the tables before and after it, in the caller's terms. */
  ghost predicate AnswerTrue(before: Db, after: Db, products: set<ProductId>, r: Request, a: Answer, now: int) {
    && (!Wrote(a) ==> after == before)
    && match a
       case NoProduct => r.Submit? && r.product !in products
       case Created(t) =>
         && r.Submit? && t !in before.reviews && ReviewsBy(before.reviews, r.product, r.author) == {}
         && t in after.reviews && WroteOnly(before, after, t, r.product)
         && after.reviews[t] == Review(r.product, r.author, r.rating, r.title, r.body, Published, now)
       case Replayed(t) =>
         r.Submit? && t in ReviewsBy(after.reviews, r.product, r.author) && SameText(after.reviews[t], r)
       case Conflict =>
         && r.Submit? && ReviewsBy(after.reviews, r.product, r.author) != {}
         && forall t <- ReviewsBy(after.reviews, r.product, r.author) :: !SameText(after.reviews[t], r)
       case Edited(t) =>
         && r.Edit? && t == r.token && t in before.reviews && t in after.reviews
         && before.reviews[t].author == r.author && EditedTo(before.reviews[t], after.reviews[t], r)
         && WroteOnly(before, after, t, before.reviews[t].product)
       case Removed =>
         && r.Remove? && r.token in before.reviews && before.reviews[r.token].author == r.author
         && r.token !in after.reviews && WroteOnly(before, after, r.token, before.reviews[r.token].product)
       case Forbidden =>
         (r.Edit? || r.Remove?) && (r.token !in after.reviews || after.reviews[r.token].author != r.author)
       case NoReview => r.Moderate? && r.token !in after.reviews
       case Flipped(state) =>
         && r.Moderate? && state == r.target && r.token in before.reviews && before.reviews[r.token].state != state
         && r.token in after.reviews && after.reviews[r.token] == before.reviews[r.token].(state := state)
         && WroteOnly(before, after, r.token, before.reviews[r.token].product)
       case AlreadyAt(state) =>
         r.Moderate? && state == r.target && r.token in after.reviews && after.reviews[r.token].state == state
  }

  lemma CheckAnswersTruly(w: World, c: Config, r: Request, now: int)
    requires TableSound(w)
    ensures var state := StateCheck(w.db.reviews, c.products, r);
            && (state.Answered? ==> AnswerTrue(w.db, w.db, c.products, r, state.answer, now))
            && (state.InFlight? && r.Submit? ==> r.product in c.products)
  {
  }

  lemma SubmitAnswersTruly(w: World, c: Config, s: Step)
    requires Enabled(w, c, s) && s.Finish? && TableSound(w) && w.calls[s.i].request.Submit?
    ensures var w' := Next(w, c, s);
            AnswerTrue(w.db, w'.db, c.products, w.calls[s.i].request, w'.calls[s.i].state.answer, s.now)
  {
    assert CallFits(w, w.calls[s.i]);
    assert s.token !in w.db.reviews;
  }

  lemma EditAnswersTruly(w: World, c: Config, s: Step)
    requires Enabled(w, c, s) && s.Finish? && TableSound(w) && w.calls[s.i].request.Edit?
    ensures var w' := Next(w, c, s);
            AnswerTrue(w.db, w'.db, c.products, w.calls[s.i].request, w'.calls[s.i].state.answer, s.now)
  {
    assert CallFits(w, w.calls[s.i]);
  }

  lemma RemovalAnswersTruly(w: World, c: Config, s: Step)
    requires Enabled(w, c, s) && s.Finish? && TableSound(w) && w.calls[s.i].request.Remove?
    ensures var w' := Next(w, c, s);
            AnswerTrue(w.db, w'.db, c.products, w.calls[s.i].request, w'.calls[s.i].state.answer, s.now)
  {
    assert CallFits(w, w.calls[s.i]);
  }

  lemma ModerationAnswersTruly(w: World, c: Config, s: Step)
    requires Enabled(w, c, s) && s.Finish? && TableSound(w) && w.calls[s.i].request.Moderate?
    ensures var w' := Next(w, c, s);
            AnswerTrue(w.db, w'.db, c.products, w.calls[s.i].request, w'.calls[s.i].state.answer, s.now)
  {
    assert CallFits(w, w.calls[s.i]);
  }

  /** Whenever a call answers, the tables at that very moment agree with the answer, field by field, and a write touches
    * its own review only and appends one event for its product. In particular a moderation UPDATE that matched nothing
    * finds the row gone or already at the target. */
  lemma AnswersAreTrueWhenGiven(c: Config, steps: seq<Step>, s: Step)
    requires Enabled(Exec(START, c, steps), c, s)
    ensures var w := Exec(START, c, steps);
            var w' := Next(w, c, s);
            && (s.Begin? ==>
                  var state := w'.calls[|w.calls|].state;
                  && w'.db == w.db
                  && (state.Answered? ==> AnswerTrue(w.db, w'.db, c.products, s.request, state.answer, 0))
                  && (state.InFlight? && s.request.Submit? ==> s.request.product in c.products))
            && (s.Finish? ==>
                  AnswerTrue(w.db, w'.db, c.products, w.calls[s.i].request, w'.calls[s.i].state.answer, s.now))
  {
    var w := Exec(START, c, steps);
    TableSoundAlways(c, steps);
    if s.Begin? {
      CheckAnswersTruly(w, c, s.request, 0);
    }
    if s.Finish? {
      match w.calls[s.i].request
      case Submit(_, _, _, _, _) => SubmitAnswersTruly(w, c, s);
      case Edit(_, _, _, _, _) => EditAnswersTruly(w, c, s);
      case Remove(_, _) => RemovalAnswersTruly(w, c, s);
      case Moderate(_, _) => ModerationAnswersTruly(w, c, s);
    }
  }

  /** A call that nothing interleaves with is a run of its two steps: the state check, and the transaction if the check
    * did not answer. */
  lemma UndisturbedCallIsARun(w: World, c: Config, r: Request, token: Token, now: int)
    requires token !in w.minted
    ensures var w' := Exec(w, c, [Begin(r), Finish(|w.calls|, token, now)]);
            var (db, answer) := Handle(w.db, c.products, r, token, now);
            && w'.db == db && |w'.calls| == |w.calls| + 1
            && w'.calls[|w.calls|] == Call(r, Answered(answer))
  {
    var steps := [Begin(r), Finish(|w.calls|, token, now)];
    assert steps[..1] == [Begin(r)] && [Begin(r)][..0] == [];
    assert Exec(w, c, [Begin(r)]) == Next(w, c, Begin(r));
  }
}
