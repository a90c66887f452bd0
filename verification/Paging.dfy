/** A client that follows a listing's cursors, whatever the listing: request i reads table i. */
module Paging {
  import opened Common
  import opened Keyset

  /** What a listing answers: its items, and the cursor to come back with. */
  datatype Listing<K, C> = Listing(items: seq<K>, nextCursor: Option<C>)

  /** Sends every next cursor back until there is none, or gives up after `|tables|` requests. */
  function Follow<S, K, C(==), E>(
    tables: seq<S>, cursor: Option<C>, request: (S, Option<C>) -> Result<Listing<K, C>, E>): seq<K>
  {
    if tables == [] then []
    else
      match request(tables[0], cursor)
      case Err(_) => []
      case Ok(page) =>
        if page.nextCursor == None then page.items else page.items + Follow(tables[1..], page.nextCursor, request)
  }

  /** The last request answered with a null cursor. */
  predicate ReachesTheEnd<S, K, C(==), E>(
    tables: seq<S>, cursor: Option<C>, request: (S, Option<C>) -> Result<Listing<K, C>, E>)
  {
    tables != [] &&
    match request(tables[0], cursor)
    case Err(_) => false
    case Ok(page) => page.nextCursor == None || ReachesTheEnd(tables[1..], page.nextCursor, request)
  }

  /** The rows each request reads, by key. */
  function Snapshots<S, K>(tables: seq<S>, rows: S -> set<K>): (r: seq<set<K>>)
    ensures |r| == |tables|
    ensures forall i :: 0 <= i < |r| ==> r[i] == rows(tables[i])
  {
    if tables == [] then [] else [rows(tables[0])] + Snapshots(tables[1..], rows)
  }

  /** Sent a cursor it minted, the listing answers with the keyset page after that cursor's key, and a cursor it
    * minted. */
  ghost predicate ServesPages<S(!new), K(!new), C(!new), E>(
    request: (S, Option<C>) -> Result<Listing<K, C>, E>, rows: S -> set<K>, minted: Option<C> -> bool,
    keyOf: Option<C> -> Option<K>, limit: nat, lt: (K, K) -> bool, enc: K -> K)
    requires StrictTotalOrder(lt)
  {
    forall s, cursor ::
      minted(cursor) ==>
        var answer := request(s, cursor);
        var page := FetchPage(rows(s), keyOf(cursor), limit, lt, enc);
        && answer.Ok? && answer.value.items == page.items
        && minted(answer.value.nextCursor) && keyOf(answer.value.nextCursor) == page.next
        && (answer.value.nextCursor == None <==> page.next == None)
  }

  /** So following its cursors is a keyset walk, and ends when the walk does. */
  lemma {:induction false} FollowingIsAWalk<S(!new), K(!new), C(!new), E>(
    tables: seq<S>, cursor: Option<C>, request: (S, Option<C>) -> Result<Listing<K, C>, E>, rows: S -> set<K>,
    minted: Option<C> -> bool, keyOf: Option<C> -> Option<K>, limit: nat, lt: (K, K) -> bool, enc: K -> K)
    requires StrictTotalOrder(lt) && ServesPages(request, rows, minted, keyOf, limit, lt, enc) && minted(cursor)
    ensures Follow(tables, cursor, request) == Walk(Snapshots(tables, rows), keyOf(cursor), limit, lt, enc)
    ensures ReachesTheEnd(tables, cursor, request) <==> Ends(Snapshots(tables, rows), keyOf(cursor), limit, lt, enc)
  {
    if tables != [] {
      var next := request(tables[0], cursor).value.nextCursor;
      assert Snapshots(tables, rows)[1..] == Snapshots(tables[1..], rows);
      FollowingIsAWalk(tables[1..], next, request, rows, minted, keyOf, limit, lt, enc);
    }
  }
}
