/**
 * The two review listings: newest first by (created_at, token), keyset-paged, scoped to one product's published
 * reviews or to one moderation state. Times are microseconds, as the column keeps them; the cursor goes through
 * toISOString and keeps milliseconds. `text` is the database's ordering of tokens.
 */
module ReviewListings {
  import opened Common
  import opened Keyset
  import opened Paging
  import opened Reviews
  import ReviewRuns

  type Collation = (string, string) -> bool

  datatype Key = Key(createdAt: int, token: Token)

  datatype Scope = OfProduct(slug: string) | InState(state: ModeratableState)

  /** What a client sends back: a payload minted for some scope, or something that does not decode. */
  datatype Cursor = Undecodable | Cursor(scope: Scope, createdAt: int, token: Token)

  datatype ListError = UnknownProduct | InvalidCursor

  type ReviewPage = Listing<Key, Cursor>

  /** ORDER BY created_at DESC, token DESC. */
  predicate Newer(text: Collation, a: Key, b: Key) {
    a.createdAt > b.createdAt || (a.createdAt == b.createdAt && text(b.token, a.token))
  }

  function NewestFirst(text: Collation): (Key, Key) -> bool {
    (a: Key, b: Key) => Newer(text, a, b)
  }

  /** The start of the millisecond. */
  function ToMilliseconds(createdAt: int): (r: int)
    ensures r <= createdAt < r + 1000 && r % 1000 == 0
  {
    createdAt / 1000 * 1000
  }

  function Rounded(k: Key): Key {
    k.(createdAt := ToMilliseconds(k.createdAt))
  }

  /** The WHERE fragment a cursor adds. */
  predicate CursorFilter(text: Collation, cursor: Cursor, k: Key)
    requires cursor.Cursor?
  {
    k.createdAt < cursor.createdAt || (k.createdAt == cursor.createdAt && text(k.token, cursor.token))
  }

  predicate Qualifies(r: Review, scope: Scope, slugs: map<string, ProductId>) {
    match scope
    case OfProduct(slug) => slug in slugs && r.product == slugs[slug] && r.state == Published
    case InState(state) => r.state == state
  }

  function Qualifying(reviews: ReviewTable, scope: Scope, slugs: map<string, ProductId>): set<Key> {
    set t | t in reviews && Qualifies(reviews[t], scope, slugs) :: Key(reviews[t].createdAt, t)
  }

  /** The rows the statement's WHERE clause keeps. */
  function Matching(
    reviews: ReviewTable, slugs: map<string, ProductId>, scope: Scope, cursor: Option<Cursor>,
    text: Collation): set<Key>
    requires cursor.Some? ==> cursor.value.Cursor?
  {
    set k | k in Qualifying(reviews, scope, slugs) && (cursor.Some? ==> CursorFilter(text, cursor.value, k))
  }

  function CursorOf(scope: Scope, last: Option<Key>): Option<Cursor> {
    if last.None? then None else Some(Cursor(scope, last.value.createdAt, last.value.token))
  }

  lemma NewestFirstIsTotal(text: Collation)
    requires StrictTotalOrder(text)
    ensures StrictTotalOrder(NewestFirst(text))
    ensures Forward(NewestFirst(text), Rounded)
  {
    var lt := NewestFirst(text);
    assert forall a, b :: lt(a, b) == Newer(text, a, b);
    assert forall a, b, c :: Newer(text, a, b) && Newer(text, b, c) ==> Newer(text, a, c);
    assert forall a, b :: a == b || Newer(text, a, b) || Newer(text, b, a) by {
      assert forall a: Key, b: Key :: a.token == b.token || text(a.token, b.token) || text(b.token, a.token);
    }
    forall k
      ensures Rounded(k) == k || lt(k, Rounded(k))
    {
    }
  }

  function ListReviews(
    reviews: ReviewTable, slugs: map<string, ProductId>, scope: Scope, cursor: Option<Cursor>, limit: nat,
    text: Collation)
    : Result<ReviewPage, ListError>
    requires StrictTotalOrder(text)
  {
    if scope.OfProduct? && scope.slug !in slugs then Err(UnknownProduct)
    else if cursor.Some? && (cursor.value.Undecodable? || cursor.value.scope != scope) then Err(InvalidCursor)
    else
      NewestFirstIsTotal(text);
      var page := Slice(OrderBy(Matching(reviews, slugs, scope, cursor, text), NewestFirst(text)), limit, Rounded);
      Ok(Listing(page.items, CursorOf(scope, page.next)))
  }

  /** The listing as the client sees it: one request against one state of the table. */
  function Requests(slugs: map<string, ProductId>, scope: Scope, limit: nat, text: Collation)
    : (ReviewTable, Option<Cursor>) -> Result<ReviewPage, ListError>
    requires StrictTotalOrder(text)
  {
    (reviews: ReviewTable, cursor: Option<Cursor>) => ListReviews(reviews, slugs, scope, cursor, limit, text)
  }

  function Rows(slugs: map<string, ProductId>, scope: Scope): ReviewTable -> set<Key> {
    (reviews: ReviewTable) => Qualifying(reviews, scope, slugs)
  }

  function KeyOf(cursor: Option<Cursor>): Option<Key> {
    if cursor.None? || cursor.value.Undecodable? then None else Some(Key(cursor.value.createdAt, cursor.value.token))
  }

  ghost predicate MintedFor(cursor: Option<Cursor>, scope: Scope) {
    cursor.Some? ==> cursor.value.Cursor? && cursor.value.scope == scope
  }

  /** The WHERE fragment is the ORDER BY, read backwards: it keeps exactly the rows that sort after the cursor's key. */
  lemma CursorFilterMeansLater(
    reviews: ReviewTable, slugs: map<string, ProductId>, scope: Scope, cursor: Option<Cursor>, text: Collation)
    requires MintedFor(cursor, scope)
    ensures Matching(reviews, slugs, scope, cursor, text)
            == After(Qualifying(reviews, scope, slugs), KeyOf(cursor), NewestFirst(text))
  {
  }

  /** Errors exactly for an unknown product, an undecodable cursor or a cursor of another listing; otherwise the page
    * is the general keyset request, whose `after` means "later in the ORDER BY". */
  lemma ListingIsAKeysetRequest(
    reviews: ReviewTable, slugs: map<string, ProductId>, scope: Scope, cursor: Option<Cursor>, limit: nat,
    text: Collation)
    requires StrictTotalOrder(text)
    ensures StrictTotalOrder(NewestFirst(text)) && Forward(NewestFirst(text), Rounded)
    ensures var answer := ListReviews(reviews, slugs, scope, cursor, limit, text);
            && (answer.Ok? <==> (scope.OfProduct? ==> scope.slug in slugs) && MintedFor(cursor, scope))
            && (answer.Ok? ==>
                  var page := FetchPage(Qualifying(reviews, scope, slugs), KeyOf(cursor), limit, NewestFirst(text),
                    Rounded);
                  && answer.value.items == page.items
                  && MintedFor(answer.value.nextCursor, scope)
                  && KeyOf(answer.value.nextCursor) == page.next)
  {
    NewestFirstIsTotal(text);
    if (scope.OfProduct? ==> scope.slug in slugs) && MintedFor(cursor, scope) {
      MintedCursorGetsItsPage(reviews, slugs, scope, cursor, limit, text);
    }
  }

  lemma MintedCursorGetsItsPage(
    reviews: ReviewTable, slugs: map<string, ProductId>, scope: Scope, cursor: Option<Cursor>, limit: nat,
    text: Collation)
    requires StrictTotalOrder(text) && StrictTotalOrder(NewestFirst(text))
    requires (scope.OfProduct? ==> scope.slug in slugs) && MintedFor(cursor, scope)
    ensures var page := FetchPage(Qualifying(reviews, scope, slugs), KeyOf(cursor), limit, NewestFirst(text), Rounded);
            ListReviews(reviews, slugs, scope, cursor, limit, text)
              == Ok(Listing(page.items, CursorOf(scope, page.next)))
  {
    CursorFilterMeansLater(reviews, slugs, scope, cursor, text);
  }

  /** The review behind an item, as its page may show it. */
  ghost predicate Shows(reviews: ReviewTable, slugs: map<string, ProductId>, scope: Scope, k: Key) {
    && k.token in reviews && k.createdAt == reviews[k.token].createdAt
    && match scope
       case OfProduct(slug) =>
         slug in slugs && reviews[k.token].product == slugs[slug] && reviews[k.token].state == Published
       case InState(state) => reviews[k.token].state == state
  }

  /** `a` was written later than `b`; of two reviews of one instant the greater token comes first. */
  ghost predicate Later(text: Collation, a: Key, b: Key) {
    b.createdAt < a.createdAt || (b.createdAt == a.createdAt && text(b.token, a.token))
  }

  /** Of the scope, and earlier than the cursor. */
  ghost predicate Remaining(
    reviews: ReviewTable, slugs: map<string, ProductId>, scope: Scope, cursor: Option<Cursor>, text: Collation, k: Key)
  {
    Shows(reviews, slugs, scope, k) && (KeyOf(cursor).Some? ==> Later(text, KeyOf(cursor).value, k))
  }

  lemma RemainingAreTheRowsAfter(
    reviews: ReviewTable, slugs: map<string, ProductId>, scope: Scope, cursor: Option<Cursor>, text: Collation, k: Key)
    ensures Remaining(reviews, slugs, scope, cursor, text, k)
            <==> k in After(Qualifying(reviews, scope, slugs), KeyOf(cursor), NewestFirst(text))
  {
    assert k in Qualifying(reviews, scope, slugs) <==> Shows(reviews, slugs, scope, k);
  }

  /** What a page shows: only reviews of its scope (a product's page nothing rejected and nothing of another product)
    * earlier than its cursor, the later ones first; and all of them, if there is no next cursor. */
  lemma PagesShowTheirScope(
    reviews: ReviewTable, slugs: map<string, ProductId>, scope: Scope, cursor: Option<Cursor>, limit: nat,
    text: Collation)
    requires StrictTotalOrder(text) && limit >= 1 && (scope.OfProduct? ==> scope.slug in slugs)
    requires MintedFor(cursor, scope)
    ensures var answer := ListReviews(reviews, slugs, scope, cursor, limit, text);
            && answer.Ok? && |answer.value.items| <= limit
            && (forall k <- answer.value.items :: Remaining(reviews, slugs, scope, cursor, text, k))
            && (forall x, y :: 0 <= x < y < |answer.value.items| ==>
                                 Later(text, answer.value.items[x], answer.value.items[y]))
            && (answer.value.nextCursor == None ==>
                  forall k :: Remaining(reviews, slugs, scope, cursor, text, k) ==> k in answer.value.items)
  {
    ListingIsAKeysetRequest(reviews, slugs, scope, cursor, limit, text);
    PageContents(Qualifying(reviews, scope, slugs), KeyOf(cursor), limit, NewestFirst(text), Rounded);
    forall k
      ensures Remaining(reviews, slugs, scope, cursor, text, k)
              <==> k in After(Qualifying(reviews, scope, slugs), KeyOf(cursor), NewestFirst(text))
    {
      RemainingAreTheRowsAfter(reviews, slugs, scope, cursor, text, k);
    }
    var items := ListReviews(reviews, slugs, scope, cursor, limit, text).value.items;
    forall x, y | 0 <= x < y < |items|
      ensures Later(text, items[x], items[y])
    {
      assert NewestFirst(text)(items[x], items[y]);
    }
  }

  /** Following the cursors is a keyset walk over the qualifying reviews. */
  lemma FollowingReviewsIsAWalk(
    tables: seq<ReviewTable>, slugs: map<string, ProductId>, scope: Scope, limit: nat, text: Collation)
    requires StrictTotalOrder(text) && (scope.OfProduct? ==> scope.slug in slugs)
    ensures StrictTotalOrder(NewestFirst(text)) && Forward(NewestFirst(text), Rounded)
    ensures Follow(tables, None, Requests(slugs, scope, limit, text))
            == Walk(Snapshots(tables, Rows(slugs, scope)), None, limit, NewestFirst(text), Rounded)
    ensures ReachesTheEnd(tables, None, Requests(slugs, scope, limit, text))
            <==> Ends(Snapshots(tables, Rows(slugs, scope)), None, limit, NewestFirst(text), Rounded)
  {
    NewestFirstIsTotal(text);
    var request, minted := Requests(slugs, scope, limit, text), (cursor: Option<Cursor>) => MintedFor(cursor, scope);
    assert ServesPages(request, Rows(slugs, scope), minted, KeyOf, limit, NewestFirst(text), Rounded) by {
      forall reviews: ReviewTable, cursor: Option<Cursor> | minted(cursor)
        ensures var answer := request(reviews, cursor);
                var page := FetchPage(Rows(slugs, scope)(reviews), KeyOf(cursor), limit, NewestFirst(text), Rounded);
                && answer.Ok? && answer.value.items == page.items
                && minted(answer.value.nextCursor) && KeyOf(answer.value.nextCursor) == page.next
                && (answer.value.nextCursor == None <==> page.next == None)
      {
        ListingIsAKeysetRequest(reviews, slugs, scope, cursor, limit, text);
      }
    }
    FollowingIsAWalk(tables, None, request, Rows(slugs, scope), minted, KeyOf, limit, NewestFirst(text), Rounded);
  }

  // ---------------------------------------------------------------------------------------------
  // Following cursors while reviews are written
  // ---------------------------------------------------------------------------------------------

  /** The review tables of one run, read at increasing moments. */
  ghost predicate ReadDuring(
    tables: seq<ReviewTable>, c: ReviewRuns.Config, steps: seq<ReviewRuns.Step>, moments: seq<nat>) {
    && |moments| == |tables|
    && (forall i, j :: 0 <= i <= j < |moments| ==> moments[i] <= moments[j])
    && (forall i :: 0 <= i < |moments| ==>
          moments[i] <= |steps| && tables[i] == ReviewRuns.Exec(ReviewRuns.START, c, steps[..moments[i]]).db.reviews)
  }

  lemma OneTimestampPerToken(
    tables: seq<ReviewTable>, c: ReviewRuns.Config, steps: seq<ReviewRuns.Step>, moments: seq<nat>, i: nat, j: nat,
    t: Token)
    requires ReadDuring(tables, c, steps, moments) && i <= j < |tables| && t in tables[i] && t in tables[j]
    ensures tables[i][t].createdAt == tables[j][t].createdAt
  {
    assert moments[i] <= moments[j];
    assert steps[..moments[j]][..moments[i]] == steps[..moments[i]];
    ReviewRuns.TableSoundAlways(c, steps[..moments[i]]);
    ReviewRuns.TokensAreNeverReused(c, steps[..moments[j]], moments[i], t);
  }

  lemma OneKeyPerToken(
    tables: seq<ReviewTable>, c: ReviewRuns.Config, steps: seq<ReviewRuns.Step>, moments: seq<nat>,
    slugs: map<string, ProductId>, scope: Scope, a: Key, b: Key)
    requires ReadDuring(tables, c, steps, moments)
    requires InSome(Snapshots(tables, Rows(slugs, scope)), a) && InSome(Snapshots(tables, Rows(slugs, scope)), b)
    ensures a.token == b.token ==> a == b
  {
    var snapshots := Snapshots(tables, Rows(slugs, scope));
    var i :| 0 <= i < |tables| && a in snapshots[i];
    var j :| 0 <= j < |tables| && b in snapshots[j];
    if a.token == b.token {
      OneTimestampPerToken(tables, c, steps, moments, if i < j then i else j, if i < j then j else i, a.token);
    }
  }

  /** Every page comes out newest first after the page before it, and whatever is submitted, edited, removed, rejected
    * or restored between the pages, no review is returned twice. The cursor's rounding does not matter. */
  lemma NoReviewIsListedTwice(
    tables: seq<ReviewTable>, c: ReviewRuns.Config, steps: seq<ReviewRuns.Step>, moments: seq<nat>,
    slugs: map<string, ProductId>, scope: Scope, limit: nat, text: Collation)
    requires StrictTotalOrder(text) && limit >= 1 && ReadDuring(tables, c, steps, moments)
    ensures var items := Follow(tables, None, Requests(slugs, scope, limit, text));
            && Sorted(items, NewestFirst(text))
            && (forall x, y :: 0 <= x < y < |items| ==> items[x].token != items[y].token)
            && (forall x :: 0 <= x < |items| ==> InSome(Snapshots(tables, Rows(slugs, scope)), items[x]))
  {
    var items := Follow(tables, None, Requests(slugs, scope, limit, text));
    if (scope.OfProduct? ==> scope.slug in slugs) {
      var snapshots := Snapshots(tables, Rows(slugs, scope));
      FollowingReviewsIsAWalk(tables, slugs, scope, limit, text);
      WalkNeverRepeats(snapshots, None, limit, NewestFirst(text), Rounded);
      forall x, y | 0 <= x < y < |items|
        ensures items[x].token != items[y].token
      {
        OneKeyPerToken(tables, c, steps, moments, slugs, scope, items[x], items[y]);
      }
    }
  }

  /** `x` is newer than `k`, but of the same millisecond, and the cursor minted from it no longer sorts before `k`. */
  predicate Passes(text: Collation, x: Key, k: Key) {
    && Newer(text, x, k) && ToMilliseconds(x.createdAt) == ToMilliseconds(k.createdAt)
    && (ToMilliseconds(x.createdAt) < k.createdAt || !text(k.token, x.token))
  }

  /** No newer review of this listing passes `k`. In particular none does if `k` is alone in its millisecond. */
  ghost predicate Unpassed(reviews: ReviewTable, slugs: map<string, ProductId>, scope: Scope, text: Collation, k: Key) {
    forall x <- Qualifying(reviews, scope, slugs) :: !Passes(text, x, k)
  }

  lemma UnpassedIsNonePasses(
    reviews: ReviewTable, slugs: map<string, ProductId>, scope: Scope, text: Collation, k: Key)
    ensures Unpassed(reviews, slugs, scope, text, k)
            <==> NonePasses(Qualifying(reviews, scope, slugs), k, NewestFirst(text), Rounded)
  {
    forall x: Key
      ensures Passes(text, x, k) <==> NewestFirst(text)(x, k) && !NewestFirst(text)(Rounded(x), k)
    {
    }
  }

  /** A review that qualifies throughout is returned exactly once by a caller that follows the cursors to the end, if at
    * none of the moments read a newer review of the listing passes it. */
  lemma ReviewPresentThroughoutIsListedOnce(
    tables: seq<ReviewTable>, c: ReviewRuns.Config, steps: seq<ReviewRuns.Step>, moments: seq<nat>,
    slugs: map<string, ProductId>, scope: Scope, limit: nat, text: Collation, t: Token)
    requires StrictTotalOrder(text) && limit >= 1 && ReadDuring(tables, c, steps, moments)
    requires scope.OfProduct? ==> scope.slug in slugs
    requires ReachesTheEnd(tables, None, Requests(slugs, scope, limit, text))
    requires forall i :: 0 <= i < |tables| ==> t in tables[i] && Qualifies(tables[i][t], scope, slugs)
    requires forall i :: 0 <= i < |tables| ==> Unpassed(tables[i], slugs, scope, text, Key(tables[i][t].createdAt, t))
    ensures var items := Follow(tables, None, Requests(slugs, scope, limit, text));
            && (exists x :: 0 <= x < |items| && items[x].token == t)
            && (forall x, y :: 0 <= x < |items| && 0 <= y < |items| && items[x].token == items[y].token == t ==> x == y)
  {
    PresentReviewIsListed(tables, c, steps, moments, slugs, scope, limit, text, t);
    NoReviewIsListedTwice(tables, c, steps, moments, slugs, scope, limit, text);
  }

  lemma PresentReviewIsListed(
    tables: seq<ReviewTable>, c: ReviewRuns.Config, steps: seq<ReviewRuns.Step>, moments: seq<nat>,
    slugs: map<string, ProductId>, scope: Scope, limit: nat, text: Collation, t: Token)
    requires StrictTotalOrder(text) && limit >= 1 && ReadDuring(tables, c, steps, moments)
    requires scope.OfProduct? ==> scope.slug in slugs
    requires ReachesTheEnd(tables, None, Requests(slugs, scope, limit, text))
    requires forall i :: 0 <= i < |tables| ==> t in tables[i] && Qualifies(tables[i][t], scope, slugs)
    requires forall i :: 0 <= i < |tables| ==> Unpassed(tables[i], slugs, scope, text, Key(tables[i][t].createdAt, t))
    ensures tables != [] && Key(tables[0][t].createdAt, t) in Follow(tables, None, Requests(slugs, scope, limit, text))
  {
    OneKeyThroughout(tables, c, steps, moments, t);
    ListedIfUnpassed(tables, slugs, scope, limit, text, t, tables[0][t].createdAt);
  }

  lemma ListedIfUnpassed(
    tables: seq<ReviewTable>, slugs: map<string, ProductId>, scope: Scope, limit: nat, text: Collation, t: Token,
    at: int)
    requires StrictTotalOrder(text) && limit >= 1 && (scope.OfProduct? ==> scope.slug in slugs)
    requires ReachesTheEnd(tables, None, Requests(slugs, scope, limit, text))
    requires forall i :: 0 <= i < |tables| ==>
               && t in tables[i] && tables[i][t].createdAt == at && Qualifies(tables[i][t], scope, slugs)
               && Unpassed(tables[i], slugs, scope, text, Key(at, t))
    ensures Key(at, t) in Follow(tables, None, Requests(slugs, scope, limit, text))
  {
    var snapshots := Snapshots(tables, Rows(slugs, scope));
    forall i | 0 <= i < |snapshots|
      ensures Key(at, t) in snapshots[i] && NonePasses(snapshots[i], Key(at, t), NewestFirst(text), Rounded)
    {
      UnpassedIsNonePasses(tables[i], slugs, scope, text, Key(at, t));
    }
    FollowingReviewsIsAWalk(tables, slugs, scope, limit, text);
    WalkMissesNothingPresentThroughout(snapshots, None, limit, NewestFirst(text), Rounded, Key(at, t));
  }

  lemma OneKeyThroughout(
    tables: seq<ReviewTable>, c: ReviewRuns.Config, steps: seq<ReviewRuns.Step>, moments: seq<nat>, t: Token)
    requires ReadDuring(tables, c, steps, moments) && forall i :: 0 <= i < |tables| ==> t in tables[i]
    ensures forall i :: 0 <= i < |tables| ==> tables[i][t].createdAt == tables[0][t].createdAt
  {
    forall i | 0 <= i < |tables|
      ensures tables[i][t].createdAt == tables[0][t].createdAt
    {
      OneTimestampPerToken(tables, c, steps, moments, 0, i, t);
    }
  }

  // ---------------------------------------------------------------------------------------------
  // Over a fixed table
  // ---------------------------------------------------------------------------------------------

  /** With nothing written in between, following the cursors always ends, and it returns the whole listing exactly
    * when the row behind every page boundary still sorts after the rounded cursor minted in front of it. */
  lemma FixedListingIsCompleteIff(
    tables: seq<ReviewTable>, slugs: map<string, ProductId>, scope: Scope, limit: nat, text: Collation)
    requires StrictTotalOrder(text) && limit >= 1 && (scope.OfProduct? ==> scope.slug in slugs)
    requires tables != [] && |tables| > |Qualifying(tables[0], scope, slugs)|
    requires forall i :: 0 <= i < |tables| ==> tables[i] == tables[0]
    ensures StrictTotalOrder(NewestFirst(text))
    ensures var all := OrderBy(Qualifying(tables[0], scope, slugs), NewestFirst(text));
            && ReachesTheEnd(tables, None, Requests(slugs, scope, limit, text))
            && (Follow(tables, None, Requests(slugs, scope, limit, text)) == all
                <==> BoundariesSurvive(all, limit, NewestFirst(text), Rounded))
  {
    FollowingReviewsIsAWalk(tables, slugs, scope, limit, text);
    FixedWalkIsTheListingIff(
      Snapshots(tables, Rows(slugs, scope)), Qualifying(tables[0], scope, slugs), limit, NewestFirst(text), Rounded);
  }

  /** As many requests as a fixed table can take. */
  function Copies(reviews: ReviewTable, slugs: map<string, ProductId>, scope: Scope): seq<ReviewTable> {
    seq(|Qualifying(reviews, scope, slugs)| + 1, i => reviews)
  }

  lemma FixedPages(reviews: ReviewTable, slugs: map<string, ProductId>, scope: Scope, limit: nat, text: Collation)
    requires StrictTotalOrder(text) && limit >= 1 && (scope.OfProduct? ==> scope.slug in slugs)
    ensures StrictTotalOrder(NewestFirst(text)) && Forward(NewestFirst(text), Rounded)
    ensures Follow(Copies(reviews, slugs, scope), None, Requests(slugs, scope, limit, text))
            == AllPages(Qualifying(reviews, scope, slugs), None, limit, NewestFirst(text), Rounded)
  {
    var rows, copies := Qualifying(reviews, scope, slugs), Copies(reviews, slugs, scope);
    FollowingReviewsIsAWalk(copies, slugs, scope, limit, text);
    assert After(rows, None, NewestFirst(text)) == rows;
    FixedWalkIsAllPages(Snapshots(copies, Rows(slugs, scope)), rows, None, limit, NewestFirst(text), Rounded);
  }

  /** With nothing written in between, following the cursors returns `k` whatever the page size. */
  ghost predicate AlwaysListed(
    reviews: ReviewTable, slugs: map<string, ProductId>, scope: Scope, text: Collation, k: Key)
    requires StrictTotalOrder(text)
  {
    forall limit: nat :: limit >= 1 ==>
      k in Follow(Copies(reviews, slugs, scope), None, Requests(slugs, scope, limit, text))
  }

  lemma AlwaysListedIsOnEveryWalk(
    reviews: ReviewTable, slugs: map<string, ProductId>, scope: Scope, text: Collation, k: Key)
    requires StrictTotalOrder(text) && (scope.OfProduct? ==> scope.slug in slugs)
    ensures StrictTotalOrder(NewestFirst(text)) && Forward(NewestFirst(text), Rounded)
    ensures AlwaysListed(reviews, slugs, scope, text, k)
            <==> OnEveryWalk(Qualifying(reviews, scope, slugs), k, NewestFirst(text), Rounded)
  {
    NewestFirstIsTotal(text);
    var rows := Qualifying(reviews, scope, slugs);
    if AlwaysListed(reviews, slugs, scope, text, k) {
      forall limit: nat | limit >= 1
        ensures k in AllPages(rows, None, limit, NewestFirst(text), Rounded)
      {
        FixedPages(reviews, slugs, scope, limit, text);
      }
    }
    if OnEveryWalk(rows, k, NewestFirst(text), Rounded) {
      forall limit: nat | limit >= 1
        ensures k in Follow(Copies(reviews, slugs, scope), None, Requests(slugs, scope, limit, text))
      {
        FixedPages(reviews, slugs, scope, limit, text);
      }
    }
  }

  /** The condition is exact: a review is returned whatever the page size, if and only if no newer review of its
    * millisecond passes it. */
  lemma ReviewAlwaysListedIff(
    reviews: ReviewTable, slugs: map<string, ProductId>, scope: Scope, text: Collation, t: Token)
    requires StrictTotalOrder(text) && (scope.OfProduct? ==> scope.slug in slugs)
    requires t in reviews && Qualifies(reviews[t], scope, slugs)
    ensures AlwaysListed(reviews, slugs, scope, text, Key(reviews[t].createdAt, t))
            <==> Unpassed(reviews, slugs, scope, text, Key(reviews[t].createdAt, t))
  {
    var k := Key(reviews[t].createdAt, t);
    AlwaysListedIsOnEveryWalk(reviews, slugs, scope, text, k);
    UnpassedIsNonePasses(reviews, slugs, scope, text, k);
    ListedForEveryLimitIff(Qualifying(reviews, scope, slugs), NewestFirst(text), Rounded, k);
  }

  lemma AnswerFromListing(
    q: seq<Key>, reviews: ReviewTable, slugs: map<string, ProductId>, scope: Scope, cursor: Option<Cursor>, limit: nat,
    text: Collation)
    requires StrictTotalOrder(text) && MintedFor(cursor, scope) && (scope.OfProduct? ==> scope.slug in slugs)
    requires StrictTotalOrder(NewestFirst(text))
    requires IsListing(q, Matching(reviews, slugs, scope, cursor, text), NewestFirst(text))
    ensures var page := Slice(q, limit, Rounded);
            ListReviews(reviews, slugs, scope, cursor, limit, text)
              == Ok(Listing(page.items, CursorOf(scope, page.next)))
  {
    var s := Matching(reviews, slugs, scope, cursor, text);
    ListingIsUnique(OrderBy(s, NewestFirst(text)), q, s, NewestFirst(text));
  }

  // Two reviews of one millisecond with a page boundary between them
  const NEIGHBOURS: ReviewTable :=
    map["x" := Review("p", "ann", 5, "", "", Published, 7000_500),
      "y" := Review("p", "bob", 1, "", "", Published, 7000_400)]
  const PRODUCT_SLUGS: map<string, ProductId> := map["slug" := "p"]
  const PRODUCT_PAGE: Scope := OfProduct("slug")
  const NEXT_CURSOR: Option<Cursor> := Some(Cursor(PRODUCT_PAGE, 7000_000, "x"))

  lemma NeighboursMatch(text: Collation)
    ensures Matching(NEIGHBOURS, PRODUCT_SLUGS, PRODUCT_PAGE, None, text) == {Key(7000_500, "x"), Key(7000_400, "y")}
  {
    var x, y := Key(7000_500, "x"), Key(7000_400, "y");
    assert Qualifies(NEIGHBOURS["x"], PRODUCT_PAGE, PRODUCT_SLUGS)
      && Qualifies(NEIGHBOURS["y"], PRODUCT_PAGE, PRODUCT_SLUGS);
    assert x == Key(NEIGHBOURS["x"].createdAt, "x") && y == Key(NEIGHBOURS["y"].createdAt, "y");
  }

  lemma NeighboursInOrder(text: Collation)
    ensures IsListing([Key(7000_500, "x"), Key(7000_400, "y")],
            Matching(NEIGHBOURS, PRODUCT_SLUGS, PRODUCT_PAGE, None, text),
                      NewestFirst(text))
  {
    NeighboursMatch(text);
    assert NewestFirst(text)(Key(7000_500, "x"), Key(7000_400, "y"));
  }

  lemma NeighboursSliced()
    ensures Slice([Key(7000_500, "x"), Key(7000_400, "y")], 1, Rounded)
            == Page([Key(7000_500, "x")], Some(Key(7000_000, "x")))
  {
    assert [Key(7000_500, "x"), Key(7000_400, "y")][..1] == [Key(7000_500, "x")];
  }

  lemma FirstPage(text: Collation)
    requires StrictTotalOrder(text)
    ensures ListReviews(NEIGHBOURS, PRODUCT_SLUGS, PRODUCT_PAGE, None, 1, text)
            == Ok(Listing([Key(7000_500, "x")], NEXT_CURSOR))
  {
    NewestFirstIsTotal(text);
    NeighboursInOrder(text);
    NeighboursSliced();
    AnswerFromListing([Key(7000_500, "x"), Key(7000_400, "y")], NEIGHBOURS, PRODUCT_SLUGS, PRODUCT_PAGE, None, 1, text);
  }

  lemma SecondPage(text: Collation)
    requires StrictTotalOrder(text)
    ensures ListReviews(NEIGHBOURS, PRODUCT_SLUGS, PRODUCT_PAGE, NEXT_CURSOR, 1, text) == Ok(Listing([], None))
  {
    NewestFirstIsTotal(text);
    assert Matching(NEIGHBOURS, PRODUCT_SLUGS, PRODUCT_PAGE, NEXT_CURSOR, text) == {};
    AnswerFromListing([], NEIGHBOURS, PRODUCT_SLUGS, PRODUCT_PAGE, NEXT_CURSOR, 1, text);
  }

  /** The second review is never listed, though the caller follows the cursors to the end. */
  lemma SubMillisecondNeighboursAreSkipped(text: Collation)
    requires StrictTotalOrder(text)
    ensures var tables := [NEIGHBOURS, NEIGHBOURS, NEIGHBOURS];
            && ReachesTheEnd(tables, None, Requests(PRODUCT_SLUGS, PRODUCT_PAGE, 1, text))
            && Follow(tables, None, Requests(PRODUCT_SLUGS, PRODUCT_PAGE, 1, text)) == [Key(7000_500, "x")]
  {
    var tables := [NEIGHBOURS, NEIGHBOURS, NEIGHBOURS];
    FirstPage(text);
    SecondPage(text);
    assert tables[1..][0] == NEIGHBOURS;
  }
}
