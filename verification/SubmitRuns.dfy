/** Submissions for one (product, author) slot, in every run (ReviewRuns.dfy). */
module SubmitRuns {
  import opened Outbox
  import opened Reviews
  import opened ReviewRuns

  // ---------------------------------------------------------------------------------------------
  // How often a slot was filled
  // ---------------------------------------------------------------------------------------------

  ghost predicate Occupied(w: World, product: ProductId, author: AuthorId) {
    ReviewsBy(w.db.reviews, product, author) != {}
  }

  /** The submissions for the slot that were answered Created, not as a replay. */
  ghost function CreatedFor(calls: seq<Call>, product: ProductId, author: AuthorId): set<nat> {
    set i: nat | i < |calls| && calls[i].request.Submit? && calls[i].request.product == product
                 && calls[i].request.author == author && calls[i].state.Answered? && calls[i].state.answer.Created?
  }

  /** The step commits the removal of the slot's review. */
  ghost predicate Vacates(w: World, c: Config, s: Step, product: ProductId, author: AuthorId) {
    && Enabled(w, c, s) && s.Finish? && w.calls[s.i].request.Remove?
    && w.calls[s.i].request.author == author && w.calls[s.i].request.token in ReviewsBy(w.db.reviews, product, author)
  }

  /** How often the slot's review was removed. */
  ghost function Removals(c: Config, steps: seq<Step>, product: ProductId, author: AuthorId): nat {
    if steps == [] then 0
    else
      var front := steps[..|steps| - 1];
      Removals(c, front, product, author)
      + if Vacates(Exec(START, c, front), c, steps[|steps| - 1], product, author) then 1 else 0
  }

  /** The removals, and the review that is there. */
  ghost function Filled(w: World, removals: nat, product: ProductId, author: AuthorId): nat {
    removals + if Occupied(w, product, author) then 1 else 0
  }

  lemma SubmitHere(w: World, c: Config, s: Step, product: ProductId, author: AuthorId)
    requires Enabled(w, c, s) && s.Finish? && TableSound(w) && w.calls[s.i].request.Submit?
    requires w.calls[s.i].request.product == product && w.calls[s.i].request.author == author
    requires !Occupied(w, product, author)
    ensures Occupied(Next(w, c, s), product, author)
    ensures s.i !in CreatedFor(w.calls, product, author)
    ensures CreatedFor(Next(w, c, s).calls, product, author) == CreatedFor(w.calls, product, author) + {s.i}
  {
    assert CallFits(w, w.calls[s.i]);
    assert s.token in ReviewsBy(Next(w, c, s).db.reviews, product, author);
  }

  lemma AnsweredSubmit(w: World, c: Config, s: Step, product: ProductId, author: AuthorId)
    requires Enabled(w, c, s) && s.Finish? && TableSound(w) && w.calls[s.i].request.Submit?
    ensures var w' := Next(w, c, s);
            && !Vacates(w, c, s, product, author)
            && |CreatedFor(w'.calls, product, author)| + Filled(w, 0, product, author)
               == |CreatedFor(w.calls, product, author)| + Filled(w', 0, product, author)
  {
    var r := w.calls[s.i].request;
    if r.product == product && r.author == author && !Occupied(w, product, author) {
      SubmitHere(w, c, s, product, author);
    } else {
      SubmitElsewhere(w, c, s, product, author);
    }
  }

  lemma SubmitElsewhere(w: World, c: Config, s: Step, product: ProductId, author: AuthorId)
    requires Enabled(w, c, s) && s.Finish? && TableSound(w) && w.calls[s.i].request.Submit?
    requires var r := w.calls[s.i].request; r.product == product && r.author == author ==> Occupied(w, product, author)
    ensures ReviewsBy(Next(w, c, s).db.reviews, product, author) == ReviewsBy(w.db.reviews, product, author)
    ensures CreatedFor(Next(w, c, s).calls, product, author) == CreatedFor(w.calls, product, author)
  {
    assert CallFits(w, w.calls[s.i]);
    assert s.token !in w.db.reviews;
  }

  lemma AnsweredOther(w: World, c: Config, s: Step, product: ProductId, author: AuthorId)
    requires Enabled(w, c, s) && s.Finish? && TableSound(w) && !w.calls[s.i].request.Submit?
    ensures var w' := Next(w, c, s);
            && CreatedFor(w'.calls, product, author) == CreatedFor(w.calls, product, author)
            && ReviewsBy(w'.db.reviews, product, author)
               == ReviewsBy(w.db.reviews, product, author)
                  - (if Vacates(w, c, s, product, author) then {w.calls[s.i].request.token} else {})
  {
  }

  lemma StepBalances(w: World, c: Config, s: Step, product: ProductId, author: AuthorId)
    requires Enabled(w, c, s) && TableSound(w)
    ensures var w' := Next(w, c, s);
            |CreatedFor(w'.calls, product, author)| + Filled(w, 0, product, author)
            == |CreatedFor(w.calls, product, author)|
               + Filled(w', if Vacates(w, c, s, product, author) then 1 else 0, product, author)
  {
    var w' := Next(w, c, s);
    if s.Finish? {
      if w.calls[s.i].request.Submit? {
        AnsweredSubmit(w, c, s, product, author);
      } else {
        AnsweredOther(w, c, s, product, author);
        if Vacates(w, c, s, product, author) {
          assert ReviewsBy(w.db.reviews, product, author) == {w.calls[s.i].request.token};
        }
      }
    } else {
      if s.Begin? {
        StateCheckNeverWrites(w.db.reviews, c.products, s.request);
      }
      assert CreatedFor(w'.calls, product, author) == CreatedFor(w.calls, product, author);
    }
  }

  /** In every interleaving of submissions, edits, removals and moderation, the submissions for a slot answered Created
    * number exactly the removals of its review plus the review that is there. So exactly one was not a replay if and
    * only if those two come to one. */
  lemma {:induction false} CreationsAreRemovalsPlusOccupied(
    c: Config, steps: seq<Step>, product: ProductId, author: AuthorId)
    ensures var w := Exec(START, c, steps);
            |CreatedFor(w.calls, product, author)| == Filled(w, Removals(c, steps, product, author), product, author)
  {
    if steps == [] {
      assert CreatedFor([], product, author) == {};
    } else {
      var front := steps[..|steps| - 1];
      CreationsAreRemovalsPlusOccupied(c, front, product, author);
      TableSoundAlways(c, front);
      var before, s := Exec(START, c, front), steps[|steps| - 1];
      if Enabled(before, c, s) {
        StepBalances(before, c, s, product, author);
      }
    }
  }

  // ---------------------------------------------------------------------------------------------
  // Identical submissions over a stretch of a run
  // ---------------------------------------------------------------------------------------------

  ghost predicate SameSlot(r: Request, input: Request)
    requires input.Submit?
  {
    r.Submit? && r.product == input.product && r.author == input.author
  }

  /** The calls already answered when the stretch begins. */
  ghost function AnsweredCalls(calls: seq<Call>): set<nat> {
    set i: nat | i < |calls| && calls[i].state.Answered?
  }

  /** Among the calls under way when the stretch begins, and those begun in it, every submission for the slot is
    * `input`. */
  ghost predicate OnlyThisText(calls: seq<Call>, done: set<nat>, input: Request)
    requires input.Submit?
  {
    forall i :: 0 <= i < |calls| && i !in done && SameSlot(calls[i].request, input) ==> calls[i].request == input
  }

  /** The step commits an edit or a removal of the slot's review, by its author. */
  ghost predicate Touches(w: World, c: Config, s: Step, input: Request)
    requires input.Submit?
  {
    && Enabled(w, c, s) && s.Finish? && (w.calls[s.i].request.Edit? || w.calls[s.i].request.Remove?)
    && w.calls[s.i].request.author == input.author
    && w.calls[s.i].request.token in ReviewsBy(w.db.reviews, input.product, input.author)
  }

  /** The stretch neither edits nor removes the slot's review, and begins no submission of another text for it. */
  ghost predicate Quiet(w: World, c: Config, more: seq<Step>, input: Request)
    requires input.Submit?
  {
    more == [] ||
    var front, s := more[..|more| - 1], more[|more| - 1];
    && Quiet(w, c, front, input)
    && !Touches(Exec(w, c, front), c, s, input)
    && (s.Begin? && SameSlot(s.request, input) ==> s.request == input)
  }

  ghost function CreatedSince(calls: seq<Call>, done: set<nat>, input: Request): set<nat> {
    set i: nat | i < |calls| && i !in done && calls[i].request == input && calls[i].state.Answered?
                 && calls[i].state.answer.Created?
  }

  ghost predicate AnsweredWith(call: Call, t: Token) {
    call.state.Answered? ==> call.state.answer == Created(t) || call.state.answer == Replayed(t)
  }

  ghost predicate SlotHolds(reviews: ReviewTable, input: Request, t: Token)
    requires input.Submit?
  {
    && t in reviews && reviews[t].product == input.product && reviews[t].author == input.author
    && reviews[t].rating == input.rating && reviews[t].title == input.title && reviews[t].body == input.body
  }

  /** Review `t` holds the slot, exactly one submission of the stretch created it, and every answer names it. */
  ghost predicate AgreedOn(w: World, done: set<nat>, input: Request, t: Token)
    requires input.Submit?
  {
    && SlotHolds(w.db.reviews, input, t)
    && |CreatedSince(w.calls, done, input)| == 1
    && forall i :: 0 <= i < |w.calls| && i !in done && w.calls[i].request == input ==> AnsweredWith(w.calls[i], t)
  }

  ghost predicate NobodyAnswered(w: World, done: set<nat>, input: Request)
    requires input.Submit?
  {
    && !Occupied(w, input.product, input.author)
    && CreatedSince(w.calls, done, input) == {}
    && forall i :: 0 <= i < |w.calls| && i !in done && w.calls[i].request == input ==> w.calls[i].state.InFlight?
  }

  ghost predicate SubmitsAgree(w: World, done: set<nat>, input: Request)
    requires input.Submit?
  {
    && OnlyThisText(w.calls, done, input) && (forall i <- done :: i < |w.calls| && w.calls[i].state.Answered?)
    && (NobodyAnswered(w, done, input) || exists t :: AgreedOn(w, done, input, t))
  }

  /** A transaction of any other call leaves this slot's content alone. */
  lemma OthersLeaveTheSlot(w: World, c: Config, s: Step, done: set<nat>, input: Request)
    requires Enabled(w, c, s) && s.Finish? && TableSound(w) && input.Submit?
    requires OnlyThisText(w.calls, done, input) && (forall i <- done :: i < |w.calls| && w.calls[i].state.Answered?)
    requires !Touches(w, c, s, input) && w.calls[s.i].request != input
    ensures var w' := Next(w, c, s);
            && ReviewsBy(w'.db.reviews, input.product, input.author)
               == ReviewsBy(w.db.reviews, input.product, input.author)
            && (forall t :: SlotHolds(w.db.reviews, input, t) ==> SlotHolds(w'.db.reviews, input, t))
            && CreatedSince(w'.calls, done, input) == CreatedSince(w.calls, done, input)
  {
    assert CallFits(w, w.calls[s.i]);
    assert s.i !in done && !SameSlot(w.calls[s.i].request, input);
  }

  lemma FirstSubmitCreates(w: World, c: Config, s: Step, done: set<nat>, input: Request)
    requires Enabled(w, c, s) && s.Finish? && TableSound(w) && input.Submit? && s.i !in done
    requires w.calls[s.i].request == input && NobodyAnswered(w, done, input)
    ensures AgreedOn(Next(w, c, s), done, input, s.token)
  {
    var w' := Next(w, c, s);
    assert CallFits(w, w.calls[s.i]);
    assert w'.calls[s.i].state.answer == Created(s.token);
    assert CreatedSince(w'.calls, done, input) == {s.i};
  }

  lemma OneReviewInTheSlot(w: World, input: Request, t: Token)
    requires TableSound(w) && input.Submit? && SlotHolds(w.db.reviews, input, t)
    ensures ReviewsBy(w.db.reviews, input.product, input.author) == {t}
  {
  }

  lemma LaterSubmitReplays(w: World, c: Config, s: Step, done: set<nat>, input: Request, t: Token)
    requires Enabled(w, c, s) && s.Finish? && TableSound(w) && input.Submit? && s.i !in done
    requires w.calls[s.i].request == input && AgreedOn(w, done, input, t)
    ensures AgreedOn(Next(w, c, s), done, input, t)
  {
    var w' := Next(w, c, s);
    assert CallFits(w, w.calls[s.i]);
    OneReviewInTheSlot(w, input, t);
    assert w'.calls[s.i].state.answer == Replayed(t);
    assert CreatedSince(w'.calls, done, input) == CreatedSince(w.calls, done, input);
  }

  lemma BegunSubmitAgrees(w: World, c: Config, s: Step, done: set<nat>, input: Request)
    requires Enabled(w, c, s) && s.Begin? && TableSound(w) && input.Submit? && input.product in c.products
    requires SubmitsAgree(w, done, input) && (SameSlot(s.request, input) ==> s.request == input)
    ensures SubmitsAgree(Next(w, c, s), done, input)
  {
    var w' := Next(w, c, s);
    StateCheckNeverWrites(w.db.reviews, c.products, s.request);
    assert CreatedSince(w'.calls, done, input) == CreatedSince(w.calls, done, input);
    if NobodyAnswered(w, done, input) {
      assert NobodyAnswered(w', done, input);
    } else {
      var t :| AgreedOn(w, done, input, t);
      OneReviewInTheSlot(w, input, t);
      assert AgreedOn(w', done, input, t);
    }
  }

  lemma FinishedCallAgrees(w: World, c: Config, s: Step, done: set<nat>, input: Request)
    requires Enabled(w, c, s) && s.Finish? && TableSound(w) && input.Submit?
    requires SubmitsAgree(w, done, input) && !Touches(w, c, s, input)
    ensures SubmitsAgree(Next(w, c, s), done, input)
  {
    var w' := Next(w, c, s);
    if w.calls[s.i].request == input {
      if NobodyAnswered(w, done, input) {
        FirstSubmitCreates(w, c, s, done, input);
      } else {
        var t :| AgreedOn(w, done, input, t);
        LaterSubmitReplays(w, c, s, done, input, t);
      }
    } else {
      OthersLeaveTheSlot(w, c, s, done, input);
      if NobodyAnswered(w, done, input) {
        assert NobodyAnswered(w', done, input);
      } else {
        var t :| AgreedOn(w, done, input, t);
        assert AgreedOn(w', done, input, t);
      }
    }
  }

  lemma AgreementKept(w: World, c: Config, s: Step, done: set<nat>, input: Request)
    requires Enabled(w, c, s) && TableSound(w) && input.Submit? && input.product in c.products
    requires SubmitsAgree(w, done, input) && !Touches(w, c, s, input)
    requires s.Begin? && SameSlot(s.request, input) ==> s.request == input
    ensures SubmitsAgree(Next(w, c, s), done, input)
  {
    var w' := Next(w, c, s);
    if s.Finish? {
      FinishedCallAgrees(w, c, s, done, input);
    } else if s.Begin? {
      BegunSubmitAgrees(w, c, s, done, input);
    } else {
      assert w'.calls == w.calls && w'.db.reviews == w.db.reviews;
      if !NobodyAnswered(w, done, input) {
        var t :| AgreedOn(w, done, input, t);
        assert AgreedOn(w', done, input, t);
      }
    }
  }

  lemma {:induction false} RunsCompose(w: World, c: Config, a: seq<Step>, b: seq<Step>)
    ensures Exec(Exec(w, c, a), c, b) == Exec(w, c, a + b)
  {
    hide Next, Enabled;
    if b == [] {
      assert a + b == a;
    } else {
      RunsCompose(w, c, a, b[..|b| - 1]);
      assert (a + b)[..|a + b| - 1] == a + b[..|b| - 1];
    }
  }

  /** Identical concurrent submissions, from any moment of any run at which their slot is empty: as long as nobody
    * edits or removes the review they make and no other text is submitted, as soon as one is answered every answer
    * is the same token and exactly one of them is not a replay. What happened before, and every other call, does
    * not matter. */
  lemma {:induction false} IdenticalSubmitsAgree(c: Config, steps: seq<Step>, more: seq<Step>, input: Request)
    requires input.Submit? && input.product in c.products
    requires var w := Exec(START, c, steps);
             && !Occupied(w, input.product, input.author)
             && OnlyThisText(w.calls, AnsweredCalls(w.calls), input)
             && Quiet(w, c, more, input)
    ensures var w := Exec(START, c, steps);
            SubmitsAgree(Exec(w, c, more), AnsweredCalls(w.calls), input)
  {
    var w := Exec(START, c, steps);
    var done := AnsweredCalls(w.calls);
    if more == [] {
      assert NobodyAnswered(w, done, input);
    } else {
      var front, s := more[..|more| - 1], more[|more| - 1];
      IdenticalSubmitsAgree(c, steps, front, input);
      RunsCompose(START, c, steps, front);
      TableSoundAlways(c, steps + front);
      var before := Exec(w, c, front);
      if Enabled(before, c, s) {
        AgreementKept(before, c, s, done, input);
      }
    }
  }
}
