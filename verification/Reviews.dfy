/**
 * Review writes: submission, edit, removal and the two moderation transitions. Each call is a state check outside
 * any transaction, then one transaction under the (product, author) lock that changes the review table and, when it
 * changed it, inserts one recompute event.
 */
module Reviews {
  import opened Common
  import opened Outbox

  type Token = string
  type ProductId = string
  type AuthorId = string

  /** `AwaitingReview` is the seeded `pending` state no code path writes. */
  datatype ModerationState = Published | AwaitingReview | Rejected

  type ModeratableState = s: ModerationState | s != AwaitingReview witness Published

  datatype Review = Review(
    product: ProductId,
    author: AuthorId,
    rating: int,
    title: string,
    body: string,
    state: ModerationState,
    createdAt: int)

  type ReviewTable = map<Token, Review>

  datatype Db = Db(reviews: ReviewTable, rows: seq<OutboxRow>)

  datatype Request =
    | Submit(product: ProductId, author: AuthorId, rating: int, title: string, body: string)
    | Edit(token: Token, author: AuthorId, newRating: Option<int>, newTitle: Option<string>, newBody: Option<string>)
    | Remove(token: Token, author: AuthorId)
    | Moderate(token: Token, target: ModeratableState)

  datatype Answer =
    | NoProduct
    | Created(token: Token)
    | Replayed(token: Token)
    | Conflict
    | Edited(token: Token)
    | Removed
    | Forbidden
    | NoReview
    | Flipped(state: ModerationState)
    | AlreadyAt(state: ModerationState)

  /** The answers of the calls that committed a write. */
  predicate Wrote(a: Answer) {
    a.Created? || a.Edited? || a.Removed? || a.Flipped?
  }

  /** What the state check carries into the transaction. */
  datatype Captured = Captured(product: ProductId, author: AuthorId, before: ModerationState)

  datatype CallState = InFlight(captured: Captured) | Answered(answer: Answer)

  const RECOMPUTE_OP: string := "rating.recompute"

  function Emit(rows: seq<OutboxRow>, product: ProductId): seq<OutboxRow> {
    rows + NewRows([OutboxInsert(product, RECOMPUTE_OP)])
  }

  function ReviewsBy(reviews: ReviewTable, product: ProductId, author: AuthorId): set<Token> {
    set t | t in reviews && reviews[t].product == product && reviews[t].author == author
  }

  /** uq_review__product_id__author_id. */
  ghost predicate OnePerAuthor(reviews: ReviewTable) {
    forall t, t' ::
      t in reviews && t' in reviews
      && reviews[t].product == reviews[t'].product && reviews[t].author == reviews[t'].author
      ==> t == t'
  }

  /** The replay/conflict branch for the review that is already there. */
  function ReplayOrConflict(reviews: ReviewTable, t: Token, r: Request): Answer
    requires t in reviews && r.Submit?
  {
    if reviews[t].rating == r.rating && reviews[t].title == r.title && reviews[t].body == r.body then Replayed(t)
    else Conflict
  }

  ghost function ExistingAnswer(reviews: ReviewTable, r: Request, theirs: set<Token>): Answer
    requires r.Submit? && theirs != {} && theirs <= reviews.Keys
  {
    var t :| t in theirs;
    ReplayOrConflict(reviews, t, r)
  }

  /** Step 1, outside any transaction. */
  ghost function StateCheck(reviews: ReviewTable, products: set<ProductId>, r: Request): CallState {
    match r
    case Submit(product, author, _, _, _) =>
      if product !in products then Answered(NoProduct)
      else
        var theirs := ReviewsBy(reviews, product, author);
        if theirs != {} then Answered(ExistingAnswer(reviews, r, theirs))
        else InFlight(Captured(product, author, Published))
    case Edit(t, author, _, _, _) =>
      if t !in reviews || reviews[t].author != author then Answered(Forbidden)
      else InFlight(Captured(reviews[t].product, author, reviews[t].state))
    case Remove(t, author) =>
      if t !in reviews || reviews[t].author != author then Answered(Forbidden)
      else InFlight(Captured(reviews[t].product, author, reviews[t].state))
    case Moderate(t, target) =>
      if t !in reviews then Answered(NoReview)
      else if reviews[t].state == target then Answered(AlreadyAt(target))
      else InFlight(Captured(reviews[t].product, reviews[t].author, reviews[t].state))
  }

  function Coalesce<T>(given: Option<T>, kept: T): T {
    if given.Some? then given.value else kept
  }

  /** The one transaction, from the claim under the lock to the commit; `minted` and `now` are what an insert draws. */
  ghost function Transact(db: Db, r: Request, c: Captured, minted: Token, now: int): (Db, Answer) {
    match r
    case Submit(_, author, rating, title, body) =>
      var theirs := ReviewsBy(db.reviews, c.product, author);
      if theirs != {} then (db, ExistingAnswer(db.reviews, r, theirs))
      else
        (Db(db.reviews[minted := Review(c.product, author, rating, title, body, Published, now)],
          Emit(db.rows, c.product)),
         Created(minted))
    case Edit(t, author, newRating, newTitle, newBody) =>
      if t !in db.reviews || db.reviews[t].author != author then (db, Forbidden)
      else
        var old' := db.reviews[t];
        var new' := old'.(rating := Coalesce(newRating, old'.rating), title := Coalesce(newTitle, old'.title),
                    body := Coalesce(newBody, old'.body));
        (Db(db.reviews[t := new'], Emit(db.rows, c.product)), Edited(t))
    case Remove(t, author) =>
      if t !in db.reviews || db.reviews[t].author != author then (db, Forbidden)
      else (Db(db.reviews - {t}, Emit(db.rows, c.product)), Removed)
    case Moderate(t, target) =>
      if t in db.reviews && db.reviews[t].state == c.before then
        (Db(db.reviews[t := db.reviews[t].(state := target)], Emit(db.rows, c.product)), Flipped(target))
      else if t !in db.reviews then (db, NoReview)
      else (db, AlreadyAt(target))   // zero rows updated: re-read, reported as the target state
  }

  /** A call nothing interleaves with. */
  ghost function Handle(db: Db, products: set<ProductId>, r: Request, minted: Token, now: int): (Db, Answer) {
    match StateCheck(db.reviews, products, r)
    case Answered(a) => (db, a)
    case InFlight(c) => Transact(db, r, c, minted, now)
  }

  function OwnReviews(reviews: ReviewTable, author: AuthorId): ReviewTable {
    map t | t in reviews && reviews[t].author == author :: reviews[t]
  }

  /** An edit or removal cannot be used to probe for other people's reviews: two tables that agree on the caller's own
    * reviews give it one state check, one answer, the same events and the same own reviews afterwards; and a token that
    * is not the caller's own is refused without a trace, whether anybody has it or not. */
  lemma ForeignReviewsAreInvisible(
    db: Db, others: ReviewTable, products: set<ProductId>, r: Request, minted: Token, now: int)
    requires (r.Edit? || r.Remove?) && OwnReviews(db.reviews, r.author) == OwnReviews(others, r.author)
    ensures StateCheck(db.reviews, products, r) == StateCheck(others, products, r)
    ensures var (after, answer) := Handle(db, products, r, minted, now);
            var (after', answer') := Handle(Db(others, db.rows), products, r, minted, now);
            && answer == answer' && after.rows == after'.rows
            && OwnReviews(after.reviews, r.author) == OwnReviews(after'.reviews, r.author)
            && (r.token !in OwnReviews(db.reviews, r.author) ==> answer == Forbidden && after == db)
  {
    var own := OwnReviews(db.reviews, r.author);
    assert r.token in own <==> r.token in db.reviews && db.reviews[r.token].author == r.author;
    assert r.token in own <==> r.token in others && others[r.token].author == r.author;
    assert r.token in own ==> db.reviews[r.token] == own[r.token] == others[r.token];
    var after, after' := Handle(db, products, r, minted, now).0,
      Handle(Db(others, db.rows), products, r, minted, now).0;
    forall t
      ensures t in OwnReviews(after.reviews, r.author) <==> t in OwnReviews(after'.reviews, r.author)
      ensures t in OwnReviews(after.reviews, r.author) ==> after.reviews[t] == after'.reviews[t]
    {
      assert t in own <==> t in OwnReviews(others, r.author);
      assert t in own ==> db.reviews[t] == own[t] == others[t];
    }
  }

  // ---------------------------------------------------------------------------------------------
  // The calls, one at a time (ReviewRuns.dfy has the interleavings)
  // ---------------------------------------------------------------------------------------------

  class Store {
    var reviews: ReviewTable
    var rows: seq<OutboxRow>

    constructor ()
      ensures reviews == map[] && rows == []
    {
      reviews, rows := map[], [];
    }

    method EmitRatingRecompute(product: ProductId)
      modifies this`rows
      ensures rows == Emit(old(rows), product)
    {
      rows := rows + NewRows([OutboxInsert(product, RECOMPUTE_OP)]);
    }

    /** Read what this author already wrote about this product. */
    method ReadExistingReview(product: ProductId, author: AuthorId) returns (found: Option<Token>)
      ensures found.None? <==> ReviewsBy(reviews, product, author) == {}
      ensures found.Some? ==> found.value in ReviewsBy(reviews, product, author)
    {
      var theirs := ReviewsBy(reviews, product, author);
      if theirs == {} {
        return None;
      }
      var t :| t in theirs;
      return Some(t);
    }

    method SubmitReview(products: set<ProductId>, r: Request, minted: Token, now: int) returns (answer: Answer)
      requires r.Submit? && OnePerAuthor(reviews)
      modifies this
      ensures (Db(reviews, rows), answer) == Handle(old(Db(reviews, rows)), products, r, minted, now)
    {
      if r.product !in products {
        return NoProduct;
      }
      var before := ReadExistingReview(r.product, r.author);
      if before.Some? {
        return ReplayOrConflict(reviews, before.value, r);
      }
      answer := SubmitTransaction(r, Captured(r.product, r.author, Published), minted, now);
    }

    method SubmitTransaction(r: Request, c: Captured, minted: Token, now: int) returns (answer: Answer)
      requires r.Submit? && OnePerAuthor(reviews)
      modifies this
      ensures (Db(reviews, rows), answer) == Transact(old(Db(reviews, rows)), r, c, minted, now)
    {
      var underLock := ReadExistingReview(c.product, r.author);
      if underLock.Some? {
        return ReplayOrConflict(reviews, underLock.value, r);
      }
      reviews := reviews[minted := Review(c.product, r.author, r.rating, r.title, r.body, Published, now)];
      EmitRatingRecompute(c.product);
      return Created(minted);
    }

    /** resolveReviewProductForOwner: one answer for a foreign and for an unknown token. */
    method ResolveReviewProductForOwner(t: Token, author: AuthorId) returns (product: Option<ProductId>)
      ensures product == if t in reviews && reviews[t].author == author then Some(reviews[t].product) else None
    {
      if t !in reviews {
        return None;
      }
      if reviews[t].author != author {
        return None;
      }
      return Some(reviews[t].product);
    }

    method UpdateReview(products: set<ProductId>, r: Request, minted: Token, now: int) returns (answer: Answer)
      requires r.Edit?
      modifies this
      ensures (Db(reviews, rows), answer) == Handle(old(Db(reviews, rows)), products, r, minted, now)
    {
      var product := ResolveReviewProductForOwner(r.token, r.author);
      if product.None? {
        return Forbidden;
      }
      answer := UpdateTransaction(r, Captured(product.value, r.author, reviews[r.token].state), minted, now);
    }

    method UpdateTransaction(r: Request, c: Captured, minted: Token, now: int) returns (answer: Answer)
      requires r.Edit?
      modifies this
      ensures (Db(reviews, rows), answer) == Transact(old(Db(reviews, rows)), r, c, minted, now)
    {
      if r.token !in reviews || reviews[r.token].author != r.author {
        return Forbidden;
      }
      var found := reviews[r.token];
      reviews := reviews[r.token := found.(
                           rating := Coalesce(r.newRating, found.rating),
                           title := Coalesce(r.newTitle, found.title),
                           body := Coalesce(r.newBody, found.body))];
      EmitRatingRecompute(c.product);
      return Edited(r.token);
    }

    method RemoveReview(products: set<ProductId>, r: Request, minted: Token, now: int) returns (answer: Answer)
      requires r.Remove?
      modifies this
      ensures (Db(reviews, rows), answer) == Handle(old(Db(reviews, rows)), products, r, minted, now)
    {
      var product := ResolveReviewProductForOwner(r.token, r.author);
      if product.None? {
        return Forbidden;
      }
      answer := RemoveTransaction(r, Captured(product.value, r.author, reviews[r.token].state), minted, now);
    }

    method RemoveTransaction(r: Request, c: Captured, minted: Token, now: int) returns (answer: Answer)
      requires r.Remove?
      modifies this
      ensures (Db(reviews, rows), answer) == Transact(old(Db(reviews, rows)), r, c, minted, now)
    {
      if r.token !in reviews || reviews[r.token].author != r.author {
        return Forbidden;
      }
      reviews := reviews - {r.token};
      EmitRatingRecompute(c.product);
      return Removed;
    }

    method SetReviewModerationState(
      products: set<ProductId>, r: Request, minted: Token, now: int)
      returns (answer: Answer)
      requires r.Moderate?
      modifies this
      ensures (Db(reviews, rows), answer) == Handle(old(Db(reviews, rows)), products, r, minted, now)
    {
      if r.token !in reviews {
        return NoReview;
      }
      var before := reviews[r.token];
      if before.state == r.target {
        return AlreadyAt(r.target);
      }
      answer := ModerationTransaction(r, Captured(before.product, before.author, before.state), minted, now);
    }

    /** UPDATE ... WHERE token AND state = the state read before; zero rows means someone moved it first. */
    method ModerationTransaction(r: Request, c: Captured, minted: Token, now: int) returns (answer: Answer)
      requires r.Moderate?
      modifies this
      ensures (Db(reviews, rows), answer) == Transact(old(Db(reviews, rows)), r, c, minted, now)
    {
      if r.token in reviews && reviews[r.token].state == c.before {
        reviews := reviews[r.token := reviews[r.token].(state := r.target)];
        EmitRatingRecompute(c.product);
        return Flipped(r.target);
      }
      if r.token !in reviews {
        return NoReview;
      }
      return AlreadyAt(r.target);
    }
  }
}
