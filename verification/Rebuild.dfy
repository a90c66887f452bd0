/** The unscoped projection rebuild: keyset pages over the distinct reviewed products. */
module Rebuild {
  import opened Common
  import opened Keyset
  import opened Reviews
  import opened ReviewRuns
  import Projection

  /** The projection's rows, and the recompute statements executed on them, in order. */
  class RatingStore<P(==), R> {
    var ratings: map<P, R>
    var executed: seq<P>

    constructor (initial: map<P, R>)
      ensures ratings == initial && executed == []
    {
      ratings, executed := initial, [];
    }

    /** recomputeProductRating: the only way a row is written. */
    method RecomputeProductRating(statement: P -> R, p: P)
      modifies this
      ensures ratings == old(ratings)[p := statement(p)] && executed == old(executed) + [p]
    {
      ratings := ratings[p := statement(p)];
      executed := executed + [p];
    }
  }

  /** SELECT DISTINCT product_id FROM reviews.review. */
  function ReviewedProducts(reviews: ReviewTable): set<ProductId> {
    set t | t in reviews :: reviews[t].product
  }

  /** `ratings` with the rows of `visited` overwritten by the recompute statement. */
  ghost function Recomputed<P, R>(ratings: map<P, R>, statement: P -> R, visited: seq<P>): map<P, R> {
    if visited == [] then ratings
    else
      var last := visited[|visited| - 1];
      Recomputed(ratings, statement, visited[..|visited| - 1])[last := statement(last)]
  }

  lemma {:induction false} RecomputedAt<P, R>(ratings: map<P, R>, statement: P -> R, visited: seq<P>)
    ensures var after := Recomputed(ratings, statement, visited);
            && (forall p :: p in after <==> p in ratings || p in visited)
            && (forall p :: p in visited ==> after[p] == statement(p))
            && (forall p :: p in ratings && p !in visited ==> after[p] == ratings[p])
  {
    if visited != [] {
      RecomputedAt(ratings, statement, visited[..|visited| - 1]);
      assert visited == visited[..|visited| - 1] + [visited[|visited| - 1]];
    }
  }

  lemma {:induction false} RecomputedCompose<P, R>(ratings: map<P, R>, statement: P -> R, visited: seq<P>, page: seq<P>)
    ensures Recomputed(Recomputed(ratings, statement, visited), statement, page)
            == Recomputed(ratings, statement, visited + page)
  {
    if page == [] {
      assert visited + page == visited;
    } else {
      RecomputedCompose(ratings, statement, visited, page[..|page| - 1]);
      assert (visited + page)[..|visited + page| - 1] == visited + page[..|page| - 1];
    }
  }

  /** Recomputing the same products again changes nothing. */
  lemma RecomputedTwice(ratings: map<ProductId, Rating>, statement: ProductId -> Rating, visited: seq<ProductId>)
    ensures var once := Recomputed(ratings, statement, visited);
            && (forall p :: p in once.Keys <==> p in ratings || p in visited)
            && Recomputed(once, statement, visited) == once
  {
    var once := Recomputed(ratings, statement, visited);
    var twice := Recomputed(once, statement, visited);
    RecomputedAt(ratings, statement, visited);
    RecomputedAt(once, statement, visited);
    assert twice.Keys == once.Keys;
  }

  method RecomputePage<P(==), R>(s: RatingStore<P, R>, statement: P -> R, page: seq<P>)
    modifies s
    ensures s.ratings == Recomputed(old(s.ratings), statement, page)
    ensures s.executed == old(s.executed) + page
  {
    for i := 0 to |page|
      invariant s.ratings == Recomputed(old(s.ratings), statement, page[..i])
      invariant s.executed == old(s.executed) + page[..i]
    {
      assert page[..i + 1][..i] == page[..i];
      s.RecomputeProductRating(statement, page[i]);
    }
    assert page[..|page|] == page;
  }

  /** One turn of the loop: the next stretch of `rest` is recomputed, and what is `left` still leads to the same
    * rows. */
  method RebuildOnePage<P(==, !new), R>(
    s: RatingStore<P, R>, products: set<P>, statement: P -> R, lt: (P, P) -> bool, batchSize: nat, cursor: Option<P>,
    ghost rest: seq<P>)
    returns (page: seq<P>, ghost left: seq<P>)
    requires StrictTotalOrder(lt) && StillToCome(rest, products, cursor, lt)
    modifies s
    ensures |page| <= batchSize && |page| + |left| == |rest|
    ensures |page| < batchSize ==> left == []
    ensures |page| == batchSize > 0 ==> StillToCome(left, products, Some(page[|page| - 1]), lt)
    ensures batchSize == 0 ==> left == rest && s.ratings == old(s.ratings) && s.executed == old(s.executed)
    ensures Recomputed(s.ratings, statement, left) == Recomputed(old(s.ratings), statement, rest)
    ensures s.executed + left == old(s.executed) + rest
  {
    page := ScanPage(products, cursor, batchSize, lt);
    if batchSize > 0 {
      ScanAdvances(rest, products, cursor, batchSize, lt);
    }
    left := rest[|page|..];
    Stretch(rest, page, left);
    RecomputedCompose(s.ratings, statement, page, left);
    Appended(s.executed, page, left);
    RecomputePage(s, statement, page);
  }

  lemma Appended<P>(before: seq<P>, page: seq<P>, left: seq<P>)
    ensures before + page + left == before + (page + left)
  {
  }

  lemma Stretch<P>(rest: seq<P>, page: seq<P>, left: seq<P>)
    requires page <= rest && left == rest[|page|..]
    ensures rest == page + left
  {
  }

  /** The recompute statement is executed exactly once for every distinct product, in order, whatever the batch
    * size, and other rows are untouched. A batch size of zero ends at its first, empty page. `statement` is the
    * recompute statement evaluated on the reviews the pass reads. */
  method RebuildProductRating<P(==, !new), R>(
    s: RatingStore<P, R>, products: set<P>, statement: P -> R, lt: (P, P) -> bool, batchSize: nat)
    returns (productsRecomputed: nat, ghost visited: seq<P>)
    requires StrictTotalOrder(lt)
    modifies s
    ensures if batchSize == 0 then visited == [] else IsListing(visited, products, lt) && |visited| == |products|
    ensures s.executed == old(s.executed) + visited && productsRecomputed == |visited|
    ensures s.ratings == Recomputed(old(s.ratings), statement, visited)
  {
    var cursor := None;
    ghost var all := OrderBy(products, lt);
    ghost var rest := all;
    ScanStarts(products, lt);
    productsRecomputed := 0;
    while true
      invariant productsRecomputed + |rest| == |all| && StillToCome(rest, products, cursor, lt)
      invariant Recomputed(s.ratings, statement, rest) == Recomputed(old(s.ratings), statement, all)
      invariant s.executed + rest == old(s.executed) + all
      invariant batchSize == 0
                ==> s.ratings == old(s.ratings) && s.executed == old(s.executed) && productsRecomputed == 0
      decreases |rest|
    {
      var page;
      page, rest := RebuildOnePage(s, products, statement, lt, batchSize, cursor, rest);
      productsRecomputed := productsRecomputed + |page|;
      if |page| == 0 {
        break;
      }
      cursor := Some(page[|page| - 1]);
      if |page| < batchSize {
        break;
      }
    }
    visited := if batchSize == 0 then [] else all;
    assert batchSize > 0 ==> rest == [] && s.executed + rest == s.executed;
  }

  /** Dropping the projection and rebuilding restores what a fully drained event path holds: every product reads the
    * same unless an older recompute of it landed over a newer one, in which case the rebuild repairs it; exactly the
    * reviewed products have a row again, and a second rebuild changes nothing. */
  lemma RebuildRestoresTheProjection(
    c: Config, steps: seq<Step>, visited: seq<ProductId>, statement: ProductId -> Rating,
    lt: (ProductId, ProductId) -> bool)
    requires forall row <- Exec(START, c, steps).db.rows :: row.status.RowProcessed?
    requires IsListing(visited, ReviewedProducts(Exec(START, c, steps).db.reviews), lt)
    requires forall p :: statement(p) == RatingOf(Exec(START, c, steps).db.reviews, p)
    ensures var w := Exec(START, c, steps);
            var rebuilt := Recomputed(map[], statement, visited);
            && (forall p :: p in rebuilt <==> exists t :: t in w.db.reviews && w.db.reviews[t].product == p)
            && (forall p :: Projection.RatingAt(rebuilt, p) == RatingOf(w.db.reviews, p))
            && (forall p ::
                  !Projection.Overtaken(w, p) ==> Projection.RatingAt(rebuilt, p) == Projection.RatingAt(w.ratings, p))
            && Recomputed(rebuilt, statement, visited) == rebuilt
  {
    var w := Exec(START, c, steps);
    var rebuilt := Recomputed(map[], statement, visited);
    RecomputedTwice(map[], statement, visited);
    Projection.DrainedProjectionIsExact(c, steps);
    forall p
      ensures Projection.RatingAt(rebuilt, p) == RatingOf(w.db.reviews, p)
      ensures !Projection.Overtaken(w, p) ==> Projection.RatingAt(rebuilt, p) == Projection.RatingAt(w.ratings, p)
    {
      assert Projection.Current(w, p) || Projection.Overtaken(w, p);
      RebuiltRating(w.db.reviews, statement, visited, p);
    }
  }

  /** From nothing, a rebuild gives every product the rating its reviews have. */
  lemma RebuiltRating(reviews: ReviewTable, statement: ProductId -> Rating, visited: seq<ProductId>, p: ProductId)
    requires forall q :: q in visited <==> q in ReviewedProducts(reviews)
    requires forall q :: statement(q) == RatingOf(reviews, q)
    ensures Projection.RatingAt(Recomputed(map[], statement, visited), p) == RatingOf(reviews, p)
  {
    RecomputedAt(map[], statement, visited);
    if p !in visited {
      assert PublishedRatings(reviews, p) == map[];
    }
  }
}
