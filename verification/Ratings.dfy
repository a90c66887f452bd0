/** What a rating says: how each committed write moves the rating of the product it touches, and of no other. */
module Ratings {
  import opened Reviews
  import opened ReviewRuns

  // ---------------------------------------------------------------------------------------------
  // The sum
  // ---------------------------------------------------------------------------------------------

  /** The sum does not depend on the order it is taken in: any one entry can be split off. */
  lemma {:induction false} SumSplitsOff(m: map<Token, int>, t: Token)
    requires t in m
    ensures SumOf(m) == m[t] + SumOf(m - {t})
  {
    var x :| x in m && SumOf(m) == m[x] + SumOf(m - {x});
    if x != t {
      SumSplitsOff(m - {x}, t);
      SumSplitsOff(m - {t}, x);
      assert m - {x} - {t} == m - {t} - {x};
    }
  }

  lemma AnEntryMore(m: map<Token, int>, m': map<Token, int>, t: Token)
    requires t in m' && m == m' - {t}
    ensures |m'| == |m| + 1 && SumOf(m') == SumOf(m) + m'[t]
  {
    SumSplitsOff(m', t);
    assert m'.Keys == m.Keys + {t};
  }

  // ---------------------------------------------------------------------------------------------
  // Two tables that differ in one review
  // ---------------------------------------------------------------------------------------------

  lemma PublishedWithout(reviews: ReviewTable, t: Token, p: ProductId)
    ensures PublishedRatings(reviews - {t}, p) == PublishedRatings(reviews, p) - {t}
  {
    var m, m' := PublishedRatings(reviews - {t}, p), PublishedRatings(reviews, p) - {t};
    assert forall x :: x in m <==> x in m';
    assert forall x <- m :: m[x] == m'[x];
  }

  lemma WithoutAbsent(m: map<Token, int>, t: Token)
    requires t !in m
    ensures m - {t} == m
  {
  }

  /** A published review of `p` counts once, with its rating. */
  lemma CountsIfPublished(without: ReviewTable, with: ReviewTable, t: Token, p: ProductId)
    requires t in with && without == with - {t}
    ensures RatingOf(with, p)
            == if with[t].product == p && with[t].state == Published
               then Rating(RatingOf(without, p).count + 1, RatingOf(without, p).sum + with[t].rating)
               else RatingOf(without, p)
  {
    var m, m' := PublishedRatings(without, p), PublishedRatings(with, p);
    PublishedWithout(with, t, p);
    if t in m' {
      AnEntryMore(m, m', t);
    } else {
      WithoutAbsent(m', t);
    }
  }

  ghost predicate Shows(r: Review, p: ProductId) {
    r.product == p && r.state == Published
  }

  lemma AddingMoves(without: ReviewTable, with: ReviewTable, t: Token, p: ProductId)
    requires t in with && t !in without && without - {t} == with - {t}
    ensures var was, now := RatingOf(without, p), RatingOf(with, p);
            now == if Shows(with[t], p) then Rating(was.count + 1, was.sum + with[t].rating) else was
  {
    assert without == without - {t};
    CountsIfPublished(without, with, t, p);
  }

  /** Replacing one review by another of the same product. */
  lemma ReplacingMoves(before: ReviewTable, after: ReviewTable, t: Token, p: ProductId)
    requires t in before && t in after && before - {t} == after - {t}
    ensures var was, now := RatingOf(before, p), RatingOf(after, p);
            && (Shows(before[t], p) && Shows(after[t], p) ==>
                  now == Rating(was.count, was.sum - before[t].rating + after[t].rating))
            && (Shows(before[t], p) && !Shows(after[t], p) ==>
                  was == Rating(now.count + 1, now.sum + before[t].rating))
            && (!Shows(before[t], p) && Shows(after[t], p) ==>
                  now == Rating(was.count + 1, was.sum + after[t].rating))
            && (!Shows(before[t], p) && !Shows(after[t], p) ==> now == was)
  {
    CountsIfPublished(before - {t}, before, t, p);
    CountsIfPublished(after - {t}, after, t, p);
  }

  /** A product without a published review reads as unrated. */
  lemma NothingPublishedIsUnrated(reviews: ReviewTable, p: ProductId)
    requires forall t <- reviews :: reviews[t].product == p ==> reviews[t].state != Published
    ensures RatingOf(reviews, p) == Rating(0, 0)
  {
    assert PublishedRatings(reviews, p) == map[];
  }

  // ---------------------------------------------------------------------------------------------
  // Every write
  // ---------------------------------------------------------------------------------------------

  /** How an answer moves the rating of product `p`: a new review adds itself; a published one that goes or is rejected
    * takes itself away, and restoring it undoes that; an edit of a published one moves the sum by the difference.
    * Whatever happens to a review that is not published moves nothing, and so does every other answer. */
  ghost predicate Moves(before: ReviewTable, after: ReviewTable, p: ProductId, r: Request, a: Answer) {
    var was, now := RatingOf(before, p), RatingOf(after, p);
    match a
    case Created(t) =>
      r.Submit? && now == if r.product == p then Rating(was.count + 1, was.sum + r.rating) else was
    case Edited(t) =>
      && t in before && t in after
      && now == if before[t].product == p && before[t].state == Published
                then Rating(was.count, was.sum - before[t].rating + after[t].rating) else was
    case Removed =>
      && r.Remove? && r.token in before
      && if before[r.token].product == p && before[r.token].state == Published
         then was == Rating(now.count + 1, now.sum + before[r.token].rating)
         else now == was
    case Flipped(state) =>
      && r.Moderate? && r.token in before
      && if before[r.token].product != p then now == was
         else if state == Published then now == Rating(was.count + 1, was.sum + before[r.token].rating)
         else was == Rating(now.count + 1, now.sum + before[r.token].rating)
    case _ => now == was
  }

  lemma AnswerMovesTheRating(
    before: Db, after: Db, products: set<ProductId>, r: Request, a: Answer, now: int, p: ProductId)
    requires AnswerTrue(before, after, products, r, a, now)
    requires forall t <- before.reviews :: before.reviews[t].state != AwaitingReview
    ensures Moves(before.reviews, after.reviews, p, r, a)
  {
    match a
    case Created(t) =>
      AddingMoves(before.reviews, after.reviews, t, p);
    case Edited(t) => ReplacingMoves(before.reviews, after.reviews, t, p);
    case Removed => AddingMoves(after.reviews, before.reviews, r.token, p);
    case Flipped(_) => ReplacingMoves(before.reviews, after.reviews, r.token, p);
    case _ =>
  }

  /** In every run, every transaction moves every product's rating exactly as its answer says. With nothing published at
    * the start, this says what a rating is. */
  lemma EveryWriteMovesItsRating(c: Config, steps: seq<Step>, s: Step, p: ProductId)
    requires Enabled(Exec(START, c, steps), c, s)
    ensures RatingOf(START.db.reviews, p) == Rating(0, 0)
    ensures var w := Exec(START, c, steps);
            var w' := Next(w, c, s);
            if s.Finish? then Moves(w.db.reviews, w'.db.reviews, p, w.calls[s.i].request, w'.calls[s.i].state.answer)
            else RatingOf(w'.db.reviews, p) == RatingOf(w.db.reviews, p)
  {
    var w := Exec(START, c, steps);
    NothingPublishedIsUnrated(START.db.reviews, p);
    AnswersAreTrueWhenGiven(c, steps, s);
    TableSoundAlways(c, steps);
    if s.Finish? {
      AnswerMovesTheRating(w.db, Next(w, c, s).db, c.products, w.calls[s.i].request,
        Next(w, c, s).calls[s.i].state.answer, s.now, p);
    }
  }
}
