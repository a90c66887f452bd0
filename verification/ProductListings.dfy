/**
 * The product listing: three sorts, each ending in the slug, keyset-paged with a cursor pinned to its sort.
 * Averages are hundredths (numeric(3,2)), times microseconds; `text` is the database's text collation.
 */
module ProductListings {
  import opened Common
  import opened Keyset
  import opened Paging

  type Collation = (string, string) -> bool

  datatype Sort = ByRating | ByRecent | ByName

  /** A product row joined LEFT to its projection row. */
  datatype Product = Product(name: string, createdAt: int, ratingAverage: Option<int>, reviewCount: nat)

  type Slug = string
  type Catalogue = map<Slug, Product>

  /** productCursorKeyOf, with the slug every sort shares. */
  datatype Key =
    | RatingKey(average: int, count: int, slug: Slug)
    | RecentKey(createdAt: int, slug: Slug)
    | NameKey(name: string, slug: Slug)

  datatype Cursor = Undecodable | Cursor(sort: Sort, key: Key)

  datatype ListError = InvalidCursor

  /** Each item is the row its key names. */
  type ProductPage = Listing<Key, Cursor>

  /** COALESCE(rating_average, -1). */
  function CoalescedAverage(p: Product): int {
    if p.ratingAverage.Some? then p.ratingAverage.value else -100
  }

  function KeyOf(sort: Sort, slug: Slug, p: Product): Key {
    match sort
    case ByRating => RatingKey(CoalescedAverage(p), p.reviewCount, slug)
    case ByRecent => RecentKey(p.createdAt, slug)
    case ByName => NameKey(p.name, slug)
  }

  /** What a key keeps on its way through a cursor: toISOString drops the microseconds. */
  function Encoded(k: Key): Key {
    match k
    case RecentKey(createdAt, slug) => RecentKey(createdAt / 1000 * 1000, slug)
    case _ => k
  }

  /** ORDER BY: row (s, p) comes before row (s', p'). */
  predicate OrderClause(text: Collation, sort: Sort, s: Slug, p: Product, s': Slug, p': Product) {
    match sort
    case ByRating =>
      || CoalescedAverage(p) > CoalescedAverage(p')
      || (CoalescedAverage(p) == CoalescedAverage(p')
          && (p.reviewCount > p'.reviewCount || (p.reviewCount == p'.reviewCount && text(s, s'))))
    case ByRecent => p.createdAt > p'.createdAt || (p.createdAt == p'.createdAt && text(s, s'))
    case ByName => text(p.name, p'.name) || (p.name == p'.name && text(s, s'))
  }

  /** productCursorFilter: the explicit OR-chain on a row's columns and the cursor's fields. */
  predicate CursorFilter(text: Collation, key: Key, s: Slug, p: Product) {
    match key
    case RatingKey(k1, k2, slug) =>
      || CoalescedAverage(p) < k1
      || (CoalescedAverage(p) == k1 && p.reviewCount < k2)
      || (CoalescedAverage(p) == k1 && p.reviewCount == k2 && text(slug, s))
    case RecentKey(k1, slug) => p.createdAt < k1 || (p.createdAt == k1 && text(slug, s))
    case NameKey(k1, slug) => text(k1, p.name) || (p.name == k1 && text(slug, s))
  }

  /** The order on keys; keys of different sorts never meet. */
  predicate Before(text: Collation, a: Key, b: Key) {
    match (a, b)
    case (RatingKey(_, _, _), RatingKey(_, _, _)) =>
      a.average > b.average
        || (a.average == b.average && (a.count > b.count || (a.count == b.count && text(a.slug, b.slug))))
    case (RecentKey(_, _), RecentKey(_, _)) =>
      a.createdAt > b.createdAt || (a.createdAt == b.createdAt && text(a.slug, b.slug))
    case (NameKey(_, _), NameKey(_, _)) => text(a.name, b.name) || (a.name == b.name && text(a.slug, b.slug))
    case (RatingKey(_, _, _), _) => true
    case (RecentKey(_, _), NameKey(_, _)) => true
    case (_, _) => false
  }

  function KeyOrder(text: Collation): (Key, Key) -> bool {
    (a: Key, b: Key) => Before(text, a, b)
  }

  /** Rows that pass the category and search filters, by key. */
  function Keys(catalogue: Catalogue, sort: Sort, shown: (Slug, Product) -> bool): set<Key> {
    set s | s in catalogue && shown(s, catalogue[s]) :: KeyOf(sort, s, catalogue[s])
  }

  /** The rows the WHERE clause keeps. */
  function Matching(
    catalogue: Catalogue, sort: Sort, shown: (Slug, Product) -> bool, cursor: Option<Cursor>, text: Collation): set<Key>
    requires cursor.Some? ==> cursor.value.Cursor?
  {
    set s | s in catalogue && shown(s, catalogue[s])
            && (cursor.Some? ==> CursorFilter(text, cursor.value.key, s, catalogue[s]))
      :: KeyOf(sort, s, catalogue[s])
  }

  function ListProducts(
    catalogue: Catalogue, sort: Sort, shown: (Slug, Product) -> bool, cursor: Option<Cursor>, limit: nat,
    text: Collation)
    : Result<ProductPage, ListError>
    requires StrictTotalOrder(text)
  {
    if cursor.Some? && (cursor.value.Undecodable? || cursor.value.sort != sort) then Err(InvalidCursor)
    else
      KeyOrderIsTotal(text);
      var page := Slice(OrderBy(Matching(catalogue, sort, shown, cursor, text), KeyOrder(text)), limit, Encoded);
      Ok(Listing(page.items, if page.next.None? then None else Some(Cursor(sort, page.next.value))))
  }

  lemma KeyOrderIsTotal(text: Collation)
    requires StrictTotalOrder(text)
    ensures StrictTotalOrder(KeyOrder(text))
    ensures Forward(KeyOrder(text), Encoded)
  {
    var lt := KeyOrder(text);
    assert forall a, b :: lt(a, b) == Before(text, a, b);
    forall a, b, c
      ensures Before(text, a, b) && Before(text, b, c) ==> Before(text, a, c)
    {
    }
    forall a, b
      ensures a == b || Before(text, a, b) || Before(text, b, a)
    {
      assert a.slug == b.slug || text(a.slug, b.slug) || text(b.slug, a.slug);
    }
    forall k
      ensures Encoded(k) == k || lt(k, Encoded(k))
    {
    }
  }

  ghost predicate MintedFor(sort: Sort, cursor: Option<Cursor>) {
    cursor.Some? ==> cursor.value.Cursor? && cursor.value.sort == sort && Fits(sort, cursor.value.key)
  }

  predicate Fits(sort: Sort, key: Key) {
    match sort
    case ByRating => key.RatingKey?
    case ByRecent => key.RecentKey?
    case ByName => key.NameKey?
  }

  function CursorKey(cursor: Option<Cursor>): Option<Key> {
    if cursor.None? || cursor.value.Undecodable? then None else Some(cursor.value.key)
  }

  /** The OR-chain of a cursor minted from row (s, p) keeps exactly the rows the ORDER BY puts strictly after it,
    * column for column and direction for direction; sorted by time it also drops those between the row and the
    * millisecond its cursor was rounded down to. */
  lemma CursorFilterIsStrictlyAfter(text: Collation, sort: Sort, s: Slug, p: Product, s': Slug, p': Product)
    requires StrictTotalOrder(text)
    ensures CursorFilter(text, Encoded(KeyOf(sort, s, p)), s', p')
            <==> OrderClause(text, sort, s, p, s', p') && !(sort.ByRecent? && WithinRounding(text, s, p, s', p'))
    ensures OrderClause(text, sort, s, p, s', p') <==> Before(text, KeyOf(sort, s, p), KeyOf(sort, s', p'))
  {
  }

  predicate WithinRounding(text: Collation, s: Slug, p: Product, s': Slug, p': Product) {
    var rounded := p.createdAt / 1000 * 1000;
    rounded < p.createdAt && (rounded < p'.createdAt || (rounded == p'.createdAt && !text(s, s')))
  }

  lemma CursorFilterMeansLater(
    catalogue: Catalogue, sort: Sort, shown: (Slug, Product) -> bool, cursor: Option<Cursor>, text: Collation)
    requires MintedFor(sort, cursor)
    ensures Matching(catalogue, sort, shown, cursor, text)
            == After(Keys(catalogue, sort, shown), CursorKey(cursor), KeyOrder(text))
  {
    var all := Keys(catalogue, sort, shown);
    forall k
      ensures k in Matching(catalogue, sort, shown, cursor, text)
              <==> k in After(all, CursorKey(cursor), KeyOrder(text))
    {
      if k in all {
        var s :| s in catalogue && shown(s, catalogue[s]) && k == KeyOf(sort, s, catalogue[s]);
        assert cursor.Some? ==>
            (CursorFilter(text, cursor.value.key, s, catalogue[s]) <==> Before(text, cursor.value.key, k));
      }
    }
  }

  /** The listing in full: each shown product once, in ORDER BY order. */
  function FullListing(catalogue: Catalogue, sort: Sort, shown: (Slug, Product) -> bool, text: Collation): seq<Key>
    requires StrictTotalOrder(text)
  {
    KeyOrderIsTotal(text);
    OrderBy(Keys(catalogue, sort, shown), KeyOrder(text))
  }

  lemma FullListingIsTheOrderedCatalogue(
    catalogue: Catalogue, sort: Sort, shown: (Slug, Product) -> bool, text: Collation)
    requires StrictTotalOrder(text)
    ensures var all := FullListing(catalogue, sort, shown, text);
            && (forall x :: 0 <= x < |all| ==>
                  all[x].slug in catalogue && all[x] == KeyOf(sort, all[x].slug, catalogue[all[x].slug])
                  && shown(all[x].slug, catalogue[all[x].slug]))
            && (forall x, y :: 0 <= x < y < |all| ==>
                  OrderClause(text, sort, all[x].slug, catalogue[all[x].slug], all[y].slug, catalogue[all[y].slug]))
            && (forall s :: s in catalogue && shown(s, catalogue[s]) ==> KeyOf(sort, s, catalogue[s]) in all)
  {
    var all := FullListing(catalogue, sort, shown, text);
    var keys := Keys(catalogue, sort, shown);
    KeyOrderIsTotal(text);
    forall x | 0 <= x < |all|
      ensures all[x].slug in catalogue && all[x] == KeyOf(sort, all[x].slug, catalogue[all[x].slug])
      ensures shown(all[x].slug, catalogue[all[x].slug])
    {
      assert all[x] in keys;
    }
    forall x, y | 0 <= x < y < |all|
      ensures OrderClause(text, sort, all[x].slug, catalogue[all[x].slug], all[y].slug, catalogue[all[y].slug])
    {
      assert KeyOrder(text)(all[x], all[y]);
      CursorFilterIsStrictlyAfter(text, sort, all[x].slug, catalogue[all[x].slug], all[y].slug, catalogue[all[y].slug]);
    }
  }

  /** The order each sort promises, on the columns themselves: rated products before unrated ones, better average first,
    * then more reviews, then the slug; newer first; or by name. */
  ghost predicate Promised(text: Collation, sort: Sort, s: Slug, p: Product, s': Slug, p': Product) {
    match sort
    case ByRating =>
      if p.ratingAverage.Some? && p'.ratingAverage.Some? && p.ratingAverage != p'.ratingAverage
      then p'.ratingAverage.value < p.ratingAverage.value
      else if p.ratingAverage.Some? != p'.ratingAverage.Some? then p'.ratingAverage.None?
      else if p.reviewCount != p'.reviewCount then p'.reviewCount < p.reviewCount
      else text(s, s')
    case ByRecent => if p.createdAt != p'.createdAt then p'.createdAt < p.createdAt else text(s, s')
    case ByName => if p.name != p'.name then text(p.name, p'.name) else text(s, s')
  }

  /** An average is a mean of ratings, so never below the sentinel that stands for "unrated". */
  ghost predicate PlausibleAverages(catalogue: Catalogue) {
    forall s <- catalogue :: catalogue[s].ratingAverage.Some? ==> 0 <= catalogue[s].ratingAverage.value
  }

  /** The sentinel puts every unrated product behind every rated one, and otherwise changes nothing. */
  lemma ListingKeepsThePromisedOrder(
    catalogue: Catalogue, sort: Sort, shown: (Slug, Product) -> bool, text: Collation, x: nat, y: nat)
    requires StrictTotalOrder(text) && PlausibleAverages(catalogue)
    requires x < y < |FullListing(catalogue, sort, shown, text)|
    ensures var all := FullListing(catalogue, sort, shown, text);
            && all[x].slug in catalogue && all[y].slug in catalogue
            && Promised(text, sort, all[x].slug, catalogue[all[x].slug], all[y].slug, catalogue[all[y].slug])
  {
    FullListingIsTheOrderedCatalogue(catalogue, sort, shown, text);
  }

  lemma NextKeyFits(
    catalogue: Catalogue, sort: Sort, shown: (Slug, Product) -> bool, after: Option<Key>, limit: nat, text: Collation)
    requires StrictTotalOrder(text) && StrictTotalOrder(KeyOrder(text))
    ensures var next := FetchPage(Keys(catalogue, sort, shown), after, limit, KeyOrder(text), Encoded).next;
            next.Some? ==> Fits(sort, next.value)
  {
    NextComesFromARow(Keys(catalogue, sort, shown), after, limit, KeyOrder(text), Encoded);
  }

  /** An error exactly for an undecodable cursor or one of another sort; otherwise a keyset request. */
  lemma ListingIsAKeysetRequest(
    catalogue: Catalogue, sort: Sort, shown: (Slug, Product) -> bool, cursor: Option<Cursor>, limit: nat,
    text: Collation)
    requires StrictTotalOrder(text)
    ensures StrictTotalOrder(KeyOrder(text)) && Forward(KeyOrder(text), Encoded)
    ensures var answer := ListProducts(catalogue, sort, shown, cursor, limit, text);
            && (answer.Err? <==> cursor.Some? && (cursor.value.Undecodable? || cursor.value.sort != sort))
            && (MintedFor(sort, cursor) ==>
                  var page := FetchPage(Keys(catalogue, sort, shown), CursorKey(cursor), limit, KeyOrder(text),
                    Encoded);
                  && answer.Ok? && answer.value.items == page.items
                  && MintedFor(sort, answer.value.nextCursor)
                  && CursorKey(answer.value.nextCursor) == page.next)
  {
    KeyOrderIsTotal(text);
    if MintedFor(sort, cursor) {
      CursorFilterMeansLater(catalogue, sort, shown, cursor, text);
      NextKeyFits(catalogue, sort, shown, CursorKey(cursor), limit, text);
    }
  }

  /** nextCursor is null exactly on the last page: when the rows still matching all fit on it. */
  lemma NullCursorExactlyOnTheLastPage(
    catalogue: Catalogue, sort: Sort, shown: (Slug, Product) -> bool, cursor: Option<Cursor>, limit: nat,
    text: Collation)
    requires StrictTotalOrder(text) && MintedFor(sort, cursor) && limit >= 1
    ensures StrictTotalOrder(KeyOrder(text))
    ensures var rest := OrderBy(Matching(catalogue, sort, shown, cursor, text), KeyOrder(text));
            var page := ListProducts(catalogue, sort, shown, cursor, limit, text).value;
            && page.items == (if |rest| <= limit then rest else rest[..limit])
            && (page.nextCursor == None <==> page.items == rest)
  {
    KeyOrderIsTotal(text);
    SliceFacts(OrderBy(Matching(catalogue, sort, shown, cursor, text), KeyOrder(text)), limit, Encoded);
  }

  /** The listing as the client sees it: one request against one state of the catalogue. */
  function Requests(sort: Sort, shown: (Slug, Product) -> bool, limit: nat, text: Collation)
    : (Catalogue, Option<Cursor>) -> Result<ProductPage, ListError>
    requires StrictTotalOrder(text)
  {
    (catalogue: Catalogue, cursor: Option<Cursor>) => ListProducts(catalogue, sort, shown, cursor, limit, text)
  }

  function Rows(sort: Sort, shown: (Slug, Product) -> bool): Catalogue -> set<Key> {
    (catalogue: Catalogue) => Keys(catalogue, sort, shown)
  }

  /** Following the cursors is a keyset walk over the products shown. */
  lemma FollowingProductsIsAWalk(
    catalogues: seq<Catalogue>, sort: Sort, shown: (Slug, Product) -> bool, limit: nat, text: Collation)
    requires StrictTotalOrder(text)
    ensures StrictTotalOrder(KeyOrder(text)) && Forward(KeyOrder(text), Encoded)
    ensures Follow(catalogues, None, Requests(sort, shown, limit, text))
            == Walk(Snapshots(catalogues, Rows(sort, shown)), None, limit, KeyOrder(text), Encoded)
    ensures ReachesTheEnd(catalogues, None, Requests(sort, shown, limit, text))
            <==> Ends(Snapshots(catalogues, Rows(sort, shown)), None, limit, KeyOrder(text), Encoded)
  {
    KeyOrderIsTotal(text);
    var request, minted := Requests(sort, shown, limit, text), (cursor: Option<Cursor>) => MintedFor(sort, cursor);
    assert ServesPages(request, Rows(sort, shown), minted, CursorKey, limit, KeyOrder(text), Encoded) by {
      forall catalogue: Catalogue, cursor: Option<Cursor> | minted(cursor)
        ensures var answer := request(catalogue, cursor);
                var page := FetchPage(Rows(sort, shown)(catalogue), CursorKey(cursor), limit, KeyOrder(text), Encoded);
                && answer.Ok? && answer.value.items == page.items
                && minted(answer.value.nextCursor) && CursorKey(answer.value.nextCursor) == page.next
                && (answer.value.nextCursor == None <==> page.next == None)
      {
        ListingIsAKeysetRequest(catalogue, sort, shown, cursor, limit, text);
      }
    }
    FollowingIsAWalk(catalogues, None, request, Rows(sort, shown), minted, CursorKey, limit, KeyOrder(text), Encoded);
  }

  // ---------------------------------------------------------------------------------------------
  // A fixed catalogue
  // ---------------------------------------------------------------------------------------------

  /** Over a fixed catalogue the pages end, and concatenated they are the full listing: always for rating and name,
    * and by time exactly when no page boundary falls between two products the rounded cursor cannot tell apart. */
  lemma PagesAreTheFullListing(
    catalogues: seq<Catalogue>, sort: Sort, shown: (Slug, Product) -> bool, limit: nat, text: Collation)
    requires StrictTotalOrder(text) && limit >= 1
    requires catalogues != [] && |catalogues| > |Keys(catalogues[0], sort, shown)|
    requires forall i :: 0 <= i < |catalogues| ==> catalogues[i] == catalogues[0]
    ensures ReachesTheEnd(catalogues, None, Requests(sort, shown, limit, text))
    ensures var all := FullListing(catalogues[0], sort, shown, text);
            Follow(catalogues, None, Requests(sort, shown, limit, text)) == all
            <==> !sort.ByRecent? || BoundariesSurvive(all, limit, KeyOrder(text), Encoded)
  {
    FollowingProductsIsAWalk(catalogues, sort, shown, limit, text);
    FixedWalkIsTheListingIff(
      Snapshots(catalogues, Rows(sort, shown)), Keys(catalogues[0], sort, shown), limit, KeyOrder(text), Encoded);
    if !sort.ByRecent? {
      ExactKeysLoseNothing(catalogues[0], sort, shown, limit, text);
    }
  }

  /** Whatever the sort, keys that survive their encoding lose nothing; by time, whole milliseconds do. */
  lemma ExactKeysLoseNothing(
    catalogue: Catalogue, sort: Sort, shown: (Slug, Product) -> bool, limit: nat, text: Collation)
    requires StrictTotalOrder(text) && limit >= 1
    requires sort.ByRecent? ==> forall s <- catalogue :: catalogue[s].createdAt % 1000 == 0
    ensures StrictTotalOrder(KeyOrder(text))
    ensures BoundariesSurvive(FullListing(catalogue, sort, shown, text), limit, KeyOrder(text), Encoded)
  {
    var keys, all := Keys(catalogue, sort, shown), FullListing(catalogue, sort, shown, text);
    KeyOrderIsTotal(text);
    assert forall k <- keys :: Encoded(k) == k;
    forall x | 0 <= x < |all|
      ensures Encoded(all[x]) == all[x]
    {
      assert all[x] in keys;
    }
    ExactBoundariesSurvive(all, limit, KeyOrder(text), Encoded);
  }

  // ---------------------------------------------------------------------------------------------
  // A catalogue that changes between pages
  // ---------------------------------------------------------------------------------------------

  /** Two of the catalogues disagree on the columns `slug` is sorted by. */
  ghost predicate Moved(catalogues: seq<Catalogue>, sort: Sort, slug: Slug) {
    exists i, j :: 0 <= i < |catalogues| && 0 <= j < |catalogues| && slug in catalogues[i] && slug in catalogues[j]
                   && KeyOf(sort, slug, catalogues[i][slug]) != KeyOf(sort, slug, catalogues[j][slug])
  }

  /** A product comes back a second time only if the columns it is sorted by changed between the pages. */
  lemma ProductsRepeatOnlyIfTheyMove(
    catalogues: seq<Catalogue>, sort: Sort, shown: (Slug, Product) -> bool, limit: nat, text: Collation)
    requires StrictTotalOrder(text) && limit >= 1
    ensures var items := Follow(catalogues, None, Requests(sort, shown, limit, text));
            forall x, y ::
              0 <= x < y < |items| && items[x].slug == items[y].slug ==> Moved(catalogues, sort, items[x].slug)
  {
    var items := Follow(catalogues, None, Requests(sort, shown, limit, text));
    var snapshots := Snapshots(catalogues, Rows(sort, shown));
    FollowingProductsIsAWalk(catalogues, sort, shown, limit, text);
    WalkNeverRepeats(snapshots, None, limit, KeyOrder(text), Encoded);
    forall x, y | 0 <= x < y < |items| && items[x].slug == items[y].slug
      ensures Moved(catalogues, sort, items[x].slug)
    {
      assert KeyOrder(text)(items[x], items[y]);
      TwoKeysOfOneProduct(catalogues, sort, shown, items[x], items[y]);
    }
  }

  lemma TwoKeysOfOneProduct(catalogues: seq<Catalogue>, sort: Sort, shown: (Slug, Product) -> bool, a: Key, b: Key)
    requires InSome(Snapshots(catalogues, Rows(sort, shown)), a) && InSome(Snapshots(catalogues, Rows(sort, shown)), b)
    requires a.slug == b.slug && a != b
    ensures Moved(catalogues, sort, a.slug)
  {
    var snapshots := Snapshots(catalogues, Rows(sort, shown));
    var i :| 0 <= i < |snapshots| && a in snapshots[i];
    var j :| 0 <= j < |snapshots| && b in snapshots[j];
    assert KeyOf(sort, a.slug, catalogues[i][a.slug]) == a;
    assert KeyOf(sort, b.slug, catalogues[j][b.slug]) == b;
  }
}
