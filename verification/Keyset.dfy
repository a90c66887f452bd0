/**
 * Keyset pagination in general: rows ordered by a strict total order on their keys, a page of `limit` rows
 * strictly after a cursor, fetched as `limit + 1`, and a cursor ENCODED from the last row returned.
 *
 * `enc` is what a round trip through the cursor keeps of a key. It may lose precision, but only forwards:
 * the decoded key never sorts before the row it came from.
 */
module Keyset {
  import opened Common

  ghost predicate StrictTotalOrder<K(!new)>(lt: (K, K) -> bool) {
    && (forall x :: !lt(x, x))
    && (forall x, y, z :: lt(x, y) && lt(y, z) ==> lt(x, z))
    && (forall x, y :: x == y || lt(x, y) || lt(y, x))
  }

  ghost predicate Sorted<K>(q: seq<K>, lt: (K, K) -> bool) {
    forall i, j :: 0 <= i < j < |q| ==> lt(q[i], q[j])
  }

  /** `q` holds exactly the rows of `s`, in order. */
  ghost predicate IsListing<K(!new)>(q: seq<K>, s: set<K>, lt: (K, K) -> bool) {
    Sorted(q, lt) && forall x :: x in q <==> x in s
  }

  predicate IsFirst<K(==)>(m: K, s: set<K>, lt: (K, K) -> bool) {
    m in s && forall k <- s :: k == m || lt(m, k)
  }

  lemma FirstExists<K(!new)>(s: set<K>, lt: (K, K) -> bool)
    requires StrictTotalOrder(lt) && s != {}
    ensures exists m :: IsFirst(m, s, lt)
  {
    var x :| x in s;
    if s == {x} {
      assert IsFirst(x, s, lt);
    } else {
      FirstExists(s - {x}, lt);
      var n :| IsFirst(n, s - {x}, lt);
      var m := if lt(x, n) then x else n;
      forall k | k in s ensures k == m || lt(m, k) {
        assert k == x || k in s - {x};
      }
      assert IsFirst(m, s, lt);
    }
  }

  /** ORDER BY. */
  function OrderBy<K(==, !new)>(s: set<K>, lt: (K, K) -> bool): (q: seq<K>)
    requires StrictTotalOrder(lt)
    ensures IsListing(q, s, lt) && |q| == |s|
  {
    if s == {} then []
    else
      FirstExists(s, lt);
      var m :| IsFirst(m, s, lt);
      var rest := OrderBy(s - {m}, lt);
      assert forall j :: 0 <= j < |rest| ==> rest[j] in s - {m};
      [m] + rest
  }

  /** A listing is determined by its rows. */
  lemma {:induction false} ListingIsUnique<K(!new)>(q: seq<K>, r: seq<K>, s: set<K>, lt: (K, K) -> bool)
    requires StrictTotalOrder(lt) && IsListing(q, s, lt) && IsListing(r, s, lt)
    ensures q == r
  {
    assert |q| > 0 ==> q[0] in s;
    assert |r| > 0 ==> r[0] in s;
    if s != {} {
      var x :| x in s;
      assert q != [] && r != [];
      assert q[0] in r && r[0] in q;
      assert q[0] == r[0];
      DropFirst(q, s, lt);
      DropFirst(r, s, lt);
      ListingIsUnique(q[1..], r[1..], s - {q[0]}, lt);
      assert q == [q[0]] + q[1..] && r == [r[0]] + r[1..];
    }
  }

  lemma DropFirst<K(!new)>(q: seq<K>, s: set<K>, lt: (K, K) -> bool)
    requires StrictTotalOrder(lt) && IsListing(q, s, lt) && q != []
    ensures IsListing(q[1..], s - {q[0]}, lt)
  {
    assert q == [q[0]] + q[1..];
  }

  // ---------------------------------------------------------------------------------------------
  // One request
  // ---------------------------------------------------------------------------------------------

  datatype Page<K> = Page(items: seq<K>, next: Option<K>)

  /** The rows a request still considers: strictly after its cursor. */
  function After<K(==)>(s: set<K>, cursor: Option<K>, lt: (K, K) -> bool): set<K> {
    set k | k in s && (cursor.None? || lt(cursor.value, k))
  }

  /** LIMIT limit + 1, return `limit` of them, and encode the last row returned if there was one more. */
  function Slice<K>(ordered: seq<K>, limit: nat, enc: K -> K): Page<K> {
    var rows := if |ordered| <= limit + 1 then ordered else ordered[..limit + 1];
    var page := if |rows| <= limit then rows else rows[..limit];
    Page(page, if |rows| > limit && page != [] then Some(enc(page[|page| - 1])) else None)
  }

  function FetchPage<K(==, !new)>(s: set<K>, cursor: Option<K>, limit: nat, lt: (K, K) -> bool, enc: K -> K): Page<K>
    requires StrictTotalOrder(lt)
  {
    Slice(OrderBy(After(s, cursor, lt), lt), limit, enc)
  }

  /** The encoding never moves a cursor before the row it was minted from. */
  ghost predicate Forward<K(!new)>(lt: (K, K) -> bool, enc: K -> K) {
    forall k :: enc(k) == k || lt(k, enc(k))
  }

  lemma PageIsThePrefix<K(!new)>(s: set<K>, cursor: Option<K>, limit: nat, lt: (K, K) -> bool, enc: K -> K)
    requires StrictTotalOrder(lt) && limit >= 1
    ensures var all := OrderBy(After(s, cursor, lt), lt);
            var page := FetchPage(s, cursor, limit, lt, enc);
            && page.items == (if |all| <= limit then all else all[..limit])
            && (page.next == None <==> |all| <= limit)
            && (|all| > limit ==> page.next == Some(enc(all[limit - 1])))
            && (page.next.Some? ==> page.items != [] && page.next.value == enc(page.items[|page.items| - 1]))
  {
    SliceFacts(OrderBy(After(s, cursor, lt), lt), limit, enc);
  }

  lemma SliceFacts<K>(ordered: seq<K>, limit: nat, enc: K -> K)
    requires limit >= 1
    ensures var page := Slice(ordered, limit, enc);
            && page.items == (if |ordered| <= limit then ordered else ordered[..limit])
            && (page.next == None <==> page.items == ordered)
            && (|ordered| > limit ==> page.next == Some(enc(ordered[limit - 1])))
  {
    var page := Slice(ordered, limit, enc);
    assert |ordered| > limit ==> ordered[..limit + 1][..limit] == ordered[..limit];
  }

  /** A page holds rows after its cursor, in order, as many as fit; without a next cursor it holds them all. */
  lemma PageContents<K(!new)>(s: set<K>, cursor: Option<K>, limit: nat, lt: (K, K) -> bool, enc: K -> K)
    requires StrictTotalOrder(lt) && limit >= 1
    ensures var page := FetchPage(s, cursor, limit, lt, enc);
            && |page.items| <= limit && Sorted(page.items, lt)
            && (forall k <- page.items :: k in After(s, cursor, lt))
            && (page.next == None ==> forall k <- After(s, cursor, lt) :: k in page.items)
  {
    PageIsThePrefix(s, cursor, limit, lt, enc);
    var all := OrderBy(After(s, cursor, lt), lt);
    assert forall k <- all :: k in After(s, cursor, lt);
  }

  /** A next cursor is the encoding of one of the rows. */
  lemma NextComesFromARow<K(!new)>(s: set<K>, cursor: Option<K>, limit: nat, lt: (K, K) -> bool, enc: K -> K)
    requires StrictTotalOrder(lt)
    ensures var next := FetchPage(s, cursor, limit, lt, enc).next;
            next.Some? ==> exists k :: k in s && next.value == enc(k)
  {
    var all := OrderBy(After(s, cursor, lt), lt);
    var page := FetchPage(s, cursor, limit, lt, enc);
    if page.next.Some? {
      var last := page.items[|page.items| - 1];
      assert last == all[|page.items| - 1] && last in After(s, cursor, lt);
    }
  }

  /** A page is in order, and everything after its next cursor sorts after its last row. */
  lemma PageIsInOrder<K(!new)>(s: set<K>, cursor: Option<K>, limit: nat, lt: (K, K) -> bool, enc: K -> K)
    requires StrictTotalOrder(lt) && Forward(lt, enc) && limit >= 1
    ensures var page := FetchPage(s, cursor, limit, lt, enc);
            && Sorted(page.items, lt)
            && (forall i ::
               0 <= i < |page.items| ==> page.items[i] in s && (cursor.Some? ==> lt(cursor.value, page.items[i])))
            && (page.next.Some? ==> page.items != []
                                    && forall x :: lt(page.next.value, x) ==> lt(page.items[|page.items| - 1], x))
  {
    var page := FetchPage(s, cursor, limit, lt, enc);
    PageIsThePrefix(s, cursor, limit, lt, enc);
    var all := OrderBy(After(s, cursor, lt), lt);
    forall i | 0 <= i < |page.items|
      ensures page.items[i] in s && (cursor.Some? ==> lt(cursor.value, page.items[i]))
    {
      assert page.items[i] == all[i] && all[i] in After(s, cursor, lt);
    }
    if page.next.Some? {
      var last := page.items[|page.items| - 1];
      assert enc(last) == last || lt(last, enc(last));
    }
  }

  /** A row a request considers is on its page or sorts after the page's last row. */
  lemma PageCoversOrPrecedes<K(!new)>(s: set<K>, cursor: Option<K>, limit: nat, lt: (K, K) -> bool, enc: K -> K, k: K)
    requires StrictTotalOrder(lt) && limit >= 1 && k in After(s, cursor, lt)
    ensures var page := FetchPage(s, cursor, limit, lt, enc);
            k in page.items || (page.next.Some? && page.items != [] && lt(page.items[|page.items| - 1], k))
  {
    var page := FetchPage(s, cursor, limit, lt, enc);
    PageIsThePrefix(s, cursor, limit, lt, enc);
    var all := OrderBy(After(s, cursor, lt), lt);
    var i :| 0 <= i < |all| && all[i] == k;
    if i < |page.items| {
      assert page.items[i] == k;
    }
  }

  // ---------------------------------------------------------------------------------------------
  // Following cursors while the table changes: request i reads snapshot i
  // ---------------------------------------------------------------------------------------------

  function Walk<K(==, !new)>(
    snapshots: seq<set<K>>, cursor: Option<K>, limit: nat, lt: (K, K) -> bool, enc: K -> K): seq<K>
    requires StrictTotalOrder(lt)
  {
    if snapshots == [] then []
    else
      var page := FetchPage(snapshots[0], cursor, limit, lt, enc);
      if page.next == None then page.items else page.items + Walk(snapshots[1..], page.next, limit, lt, enc)
  }

  /** The walk reached a page without a next cursor. */
  predicate Ends<K(==, !new)>(snapshots: seq<set<K>>, cursor: Option<K>, limit: nat, lt: (K, K) -> bool, enc: K -> K)
    requires StrictTotalOrder(lt)
  {
    snapshots != [] &&
    var page := FetchPage(snapshots[0], cursor, limit, lt, enc);
    page.next == None || Ends(snapshots[1..], page.next, limit, lt, enc)
  }

  lemma SortedAppend<K(!new)>(a: seq<K>, b: seq<K>, lt: (K, K) -> bool)
    requires forall x, y, z :: lt(x, y) && lt(y, z) ==> lt(x, z)
    requires Sorted(a, lt) && Sorted(b, lt) && a != []
    requires forall i :: 0 <= i < |b| ==> lt(a[|a| - 1], b[i])
    ensures Sorted(a + b, lt)
  {
    forall i, j | 0 <= i < j < |a + b|
      ensures lt((a + b)[i], (a + b)[j])
    {
      if i < |a| <= j {
        assert i == |a| - 1 || lt(a[i], a[|a| - 1]);
        assert lt(a[|a| - 1], b[j - |a|]);
      }
    }
  }

  lemma PageThenLater<K(!new)>(
    s: set<K>, cursor: Option<K>, limit: nat, lt: (K, K) -> bool, enc: K -> K, later: seq<K>)
    requires StrictTotalOrder(lt) && Forward(lt, enc) && limit >= 1
    requires var next := FetchPage(s, cursor, limit, lt, enc).next;
             next.Some? && Sorted(later, lt) && forall i :: 0 <= i < |later| ==> lt(next.value, later[i])
    ensures var items := FetchPage(s, cursor, limit, lt, enc).items + later;
            Sorted(items, lt) && forall i :: 0 <= i < |items| && cursor.Some? ==> lt(cursor.value, items[i])
  {
    var page := FetchPage(s, cursor, limit, lt, enc);
    PageIsInOrder(s, cursor, limit, lt, enc);
    var last := page.items[|page.items| - 1];
    forall i | 0 <= i < |later|
      ensures lt(last, later[i]) && (cursor.Some? ==> lt(cursor.value, later[i]))
    {
      assert lt(page.next.value, later[i]);
    }
    SortedAppend(page.items, later, lt);
  }

  lemma {:induction false} WalkIsInOrder<K(!new)>(
    snapshots: seq<set<K>>, cursor: Option<K>, limit: nat, lt: (K, K) -> bool, enc: K -> K)
    requires StrictTotalOrder(lt) && Forward(lt, enc) && limit >= 1
    ensures var items := Walk(snapshots, cursor, limit, lt, enc);
            Sorted(items, lt) && forall i :: 0 <= i < |items| && cursor.Some? ==> lt(cursor.value, items[i])
  {
    if snapshots != [] {
      var page := FetchPage(snapshots[0], cursor, limit, lt, enc);
      if page.next.Some? {
        WalkIsInOrder(snapshots[1..], page.next, limit, lt, enc);
        PageThenLater(snapshots[0], cursor, limit, lt, enc, Walk(snapshots[1..], page.next, limit, lt, enc));
      } else {
        PageIsInOrder(snapshots[0], cursor, limit, lt, enc);
      }
    }
  }

  lemma PageComesFrom<K(!new)>(s: set<K>, cursor: Option<K>, limit: nat, lt: (K, K) -> bool, enc: K -> K)
    requires StrictTotalOrder(lt)
    ensures var items := FetchPage(s, cursor, limit, lt, enc).items; forall i :: 0 <= i < |items| ==> items[i] in s
  {
    var all := OrderBy(After(s, cursor, lt), lt);
    assert forall i :: 0 <= i < |all| ==> all[i] in all;
  }

  lemma InLaterSnapshots<K(!new)>(snapshots: seq<set<K>>, k: K)
    requires snapshots != []
    ensures k in snapshots[0] || InSome(snapshots[1..], k) ==> InSome(snapshots, k)
  {
    if InSome(snapshots[1..], k) {
      var j :| 0 <= j < |snapshots[1..]| && k in snapshots[1..][j];
      assert k in snapshots[j + 1];
    }
  }

  lemma {:induction false} WalkComesFromSnapshots<K(!new)>(
    snapshots: seq<set<K>>, cursor: Option<K>, limit: nat, lt: (K, K) -> bool, enc: K -> K, i: nat)
    requires StrictTotalOrder(lt) && i < |Walk(snapshots, cursor, limit, lt, enc)|
    ensures InSome(snapshots, Walk(snapshots, cursor, limit, lt, enc)[i])
  {
    var items := FetchPage(snapshots[0], cursor, limit, lt, enc).items;
    PageComesFrom(snapshots[0], cursor, limit, lt, enc);
    if i >= |items| {
      WalkComesFromSnapshots(snapshots[1..], FetchPage(snapshots[0], cursor, limit, lt, enc).next, limit, lt, enc,
        i - |items|);
    }
    InLaterSnapshots(snapshots, Walk(snapshots, cursor, limit, lt, enc)[i]);
  }

  /** Whatever is inserted or removed between pages, and however much the cursor rounds, no row comes back twice:
    * the whole walk is strictly increasing, beyond the cursor it started from. */
  lemma WalkNeverRepeats<K(!new)>(
    snapshots: seq<set<K>>, cursor: Option<K>, limit: nat, lt: (K, K) -> bool, enc: K -> K)
    requires StrictTotalOrder(lt) && Forward(lt, enc) && limit >= 1
    ensures var items := Walk(snapshots, cursor, limit, lt, enc);
            && Sorted(items, lt)
            && (forall i :: 0 <= i < |items| && cursor.Some? ==> lt(cursor.value, items[i]))
            && (forall i :: 0 <= i < |items| ==> InSome(snapshots, items[i]))
  {
    WalkIsInOrder(snapshots, cursor, limit, lt, enc);
    forall i | 0 <= i < |Walk(snapshots, cursor, limit, lt, enc)|
      ensures InSome(snapshots, Walk(snapshots, cursor, limit, lt, enc)[i])
    {
      WalkComesFromSnapshots(snapshots, cursor, limit, lt, enc, i);
    }
  }

  ghost predicate InSome<K>(snapshots: seq<set<K>>, k: K) {
    exists i :: 0 <= i < |snapshots| && k in snapshots[i]
  }

  /** No row of `s` in front of `k` has a cursor that passes `k`. */
  ghost predicate NonePasses<K(!new)>(s: set<K>, k: K, lt: (K, K) -> bool, enc: K -> K) {
    forall x <- s :: lt(x, k) ==> lt(enc(x), k)
  }

  lemma PageReturnsOrPointsBefore<K(!new)>(
    s: set<K>, cursor: Option<K>, limit: nat, lt: (K, K) -> bool, enc: K -> K, k: K)
    requires StrictTotalOrder(lt) && limit >= 1 && k in After(s, cursor, lt) && NonePasses(s, k, lt, enc)
    ensures var page := FetchPage(s, cursor, limit, lt, enc);
            k in page.items || (page.next.Some? && lt(page.next.value, k))
  {
    var page := FetchPage(s, cursor, limit, lt, enc);
    PageCoversOrPrecedes(s, cursor, limit, lt, enc, k);
    PageIsThePrefix(s, cursor, limit, lt, enc);
    PageComesFrom(s, cursor, limit, lt, enc);
  }

  /** A row present in every snapshot is returned by a walk that ends, if in none of them a row in front of it has a
    * cursor that passes it. */
  lemma {:induction false} WalkMissesNothingPresentThroughout<K(!new)>(
    snapshots: seq<set<K>>, cursor: Option<K>, limit: nat, lt: (K, K) -> bool, enc: K -> K, k: K)
    requires StrictTotalOrder(lt) && limit >= 1
    requires Ends(snapshots, cursor, limit, lt, enc)
    requires forall i :: 0 <= i < |snapshots| ==> k in snapshots[i] && NonePasses(snapshots[i], k, lt, enc)
    requires cursor.Some? ==> lt(cursor.value, k)
    ensures k in Walk(snapshots, cursor, limit, lt, enc)
  {
    var page := FetchPage(snapshots[0], cursor, limit, lt, enc);
    PageReturnsOrPointsBefore(snapshots[0], cursor, limit, lt, enc, k);
    if k !in page.items {
      WalkMissesNothingPresentThroughout(snapshots[1..], page.next, limit, lt, enc, k);
    }
  }

  // ---------------------------------------------------------------------------------------------
  // Following cursors over a fixed table
  // ---------------------------------------------------------------------------------------------

  /** All pages of a fixed table, concatenated; `skip` counts down the rows left to consider. */
  function AllPages<K(==, !new)>(s: set<K>, cursor: Option<K>, limit: nat, lt: (K, K) -> bool, enc: K -> K): seq<K>
    requires StrictTotalOrder(lt) && Forward(lt, enc) && limit >= 1
    decreases |After(s, cursor, lt)|
  {
    var page := FetchPage(s, cursor, limit, lt, enc);
    if page.next == None then page.items
    else
      CursorAdvances(s, cursor, limit, lt, enc);
      page.items + AllPages(s, page.next, limit, lt, enc)
  }

  lemma CursorAdvances<K(!new)>(s: set<K>, cursor: Option<K>, limit: nat, lt: (K, K) -> bool, enc: K -> K)
    requires StrictTotalOrder(lt) && Forward(lt, enc) && limit >= 1
    requires FetchPage(s, cursor, limit, lt, enc).next.Some?
    ensures var next := FetchPage(s, cursor, limit, lt, enc).next;
            |After(s, next, lt)| < |After(s, cursor, lt)| && After(s, next, lt) < After(s, cursor, lt)
  {
    PageIsThePrefix(s, cursor, limit, lt, enc);
    var all := OrderBy(After(s, cursor, lt), lt);
    var last := all[limit - 1];
    assert last in all && (enc(last) == last || lt(last, enc(last)));
    PassingARowShrinks(s, cursor, last, enc(last), lt);
  }

  lemma PassingARowShrinks<K(!new)>(s: set<K>, cursor: Option<K>, last: K, next: K, lt: (K, K) -> bool)
    requires StrictTotalOrder(lt) && last in After(s, cursor, lt) && (next == last || lt(last, next))
    ensures |After(s, Some(next), lt)| < |After(s, cursor, lt)| && After(s, Some(next), lt) < After(s, cursor, lt)
  {
    assert last !in After(s, Some(next), lt);
    forall k | k in After(s, Some(next), lt) ensures k in After(s, cursor, lt) {
      assert lt(last, k);
    }
    SmallerSet(After(s, Some(next), lt), After(s, cursor, lt), last);
  }

  lemma SmallerSet<K>(a: set<K>, b: set<K>, x: K)
    requires a <= b && x in b && x !in a
    ensures |a| < |b|
  {
    assert b == a + (b - a) && x in b - a;
  }

  /** After every `limit` rows, the next row still sorts after the cursor minted from the row before it. */
  predicate BoundariesSurvive<K>(listing: seq<K>, limit: nat, lt: (K, K) -> bool, enc: K -> K)
    requires limit >= 1
    decreases |listing|
  {
    |listing| <= limit ||
    (lt(enc(listing[limit - 1]), listing[limit]) && BoundariesSurvive(listing[limit..], limit, lt, enc))
  }

  /** After a surviving boundary, the next request considers exactly the rest of the listing. */
  lemma NextPageStartsWhereThisOneEnds<K(!new)>(
    s: set<K>, cursor: Option<K>, limit: nat, lt: (K, K) -> bool, enc: K -> K)
    requires StrictTotalOrder(lt) && Forward(lt, enc) && limit >= 1
    requires |OrderBy(After(s, cursor, lt), lt)| > limit
    requires var all := OrderBy(After(s, cursor, lt), lt); lt(enc(all[limit - 1]), all[limit])
    ensures var all := OrderBy(After(s, cursor, lt), lt);
            OrderBy(After(s, Some(enc(all[limit - 1])), lt), lt) == all[limit..]
  {
    TailIsListing(s, cursor, limit, enc(OrderBy(After(s, cursor, lt), lt)[limit - 1]), lt);
  }

  /** A cursor between row `i - 1` and row `i` leaves exactly the rows from `i` on. */
  lemma TailIsListing<K(!new)>(s: set<K>, cursor: Option<K>, i: nat, next: K, lt: (K, K) -> bool)
    requires StrictTotalOrder(lt) && 0 < i <= |OrderBy(After(s, cursor, lt), lt)|
    requires var all := OrderBy(After(s, cursor, lt), lt);
             (next == all[i - 1] || lt(all[i - 1], next)) && (i < |all| ==> lt(next, all[i]))
    ensures OrderBy(After(s, Some(next), lt), lt) == OrderBy(After(s, cursor, lt), lt)[i..]
  {
    var all, behind := OrderBy(After(s, cursor, lt), lt), After(s, Some(next), lt);
    forall x
      ensures x in all[i..] <==> x in behind
    {
      if x in behind {
        BehindIsInTheTail(s, cursor, i, next, lt, x);
      }
      if x in all[i..] {
        TailIsBehind(s, cursor, i, next, lt, x);
      }
    }
    ListingIsUnique(OrderBy(behind, lt), all[i..], behind, lt);
  }

  lemma BehindIsInTheTail<K(!new)>(s: set<K>, cursor: Option<K>, i: nat, next: K, lt: (K, K) -> bool, x: K)
    requires StrictTotalOrder(lt) && 0 < i <= |OrderBy(After(s, cursor, lt), lt)|
    requires var all := OrderBy(After(s, cursor, lt), lt); next == all[i - 1] || lt(all[i - 1], next)
    requires x in After(s, Some(next), lt)
    ensures x in OrderBy(After(s, cursor, lt), lt)[i..]
  {
    var all := OrderBy(After(s, cursor, lt), lt);
    var last := all[i - 1];
    assert last in all && last in After(s, cursor, lt) && lt(last, x);
    assert x in After(s, cursor, lt) && x in all;
    LaterIsInTheTail(all, i, lt, x);
  }

  lemma LaterIsInTheTail<K(!new)>(q: seq<K>, i: nat, lt: (K, K) -> bool, x: K)
    requires Sorted(q, lt) && 0 < i <= |q| && x in q && lt(q[i - 1], x)
    requires !lt(x, x) && (lt(x, q[i - 1]) ==> lt(x, x))
    ensures x in q[i..]
  {
    var j :| 0 <= j < |q| && q[j] == x;
    assert x == q[i..][j - i];
  }

  lemma TailIsBehind<K(!new)>(s: set<K>, cursor: Option<K>, i: nat, next: K, lt: (K, K) -> bool, x: K)
    requires StrictTotalOrder(lt) && 0 < i < |OrderBy(After(s, cursor, lt), lt)|
    requires lt(next, OrderBy(After(s, cursor, lt), lt)[i]) && x in OrderBy(After(s, cursor, lt), lt)[i..]
    ensures x in After(s, Some(next), lt)
  {
    var all := OrderBy(After(s, cursor, lt), lt);
    var j :| 0 <= j < |all[i..]| && all[i..][j] == x;
    assert x == all[i + j] && x in After(s, cursor, lt);
    assert j == 0 || lt(all[i], all[i + j]);
  }

  /** An exact cursor on row `i` leaves exactly the rows behind it. */
  lemma RestAfterRow<K(!new)>(s: set<K>, cursor: Option<K>, i: nat, lt: (K, K) -> bool)
    requires StrictTotalOrder(lt) && i < |OrderBy(After(s, cursor, lt), lt)|
    ensures var all := OrderBy(After(s, cursor, lt), lt);
            OrderBy(After(s, Some(all[i]), lt), lt) == all[i + 1..]
  {
    TailIsListing(s, cursor, i + 1, OrderBy(After(s, cursor, lt), lt)[i], lt);
  }

  lemma PageThenRest<K(!new)>(s: set<K>, cursor: Option<K>, limit: nat, lt: (K, K) -> bool, enc: K -> K)
    requires StrictTotalOrder(lt) && Forward(lt, enc) && limit >= 1
    ensures var all := OrderBy(After(s, cursor, lt), lt);
            if |all| <= limit then AllPages(s, cursor, limit, lt, enc) == all
            else
              var next := Some(enc(all[limit - 1]));
              && |After(s, next, lt)| < |After(s, cursor, lt)|
              && AllPages(s, cursor, limit, lt, enc) == all[..limit] + AllPages(s, next, limit, lt, enc)
  {
    PageIsThePrefix(s, cursor, limit, lt, enc);
    AllPagesUnfold(s, cursor, limit, lt, enc);
  }

  lemma AllPagesUnfold<K(!new)>(s: set<K>, cursor: Option<K>, limit: nat, lt: (K, K) -> bool, enc: K -> K)
    requires StrictTotalOrder(lt) && Forward(lt, enc) && limit >= 1
    ensures var page := FetchPage(s, cursor, limit, lt, enc);
            && (page.next.Some? ==> |After(s, page.next, lt)| < |After(s, cursor, lt)|)
            && AllPages(s, cursor, limit, lt, enc)
               == if page.next == None then page.items else page.items + AllPages(s, page.next, limit, lt, enc)
  {
    if FetchPage(s, cursor, limit, lt, enc).next.Some? {
      CursorAdvances(s, cursor, limit, lt, enc);
    }
  }

  /** Over a fixed table the concatenated pages are the whole listing exactly when every page boundary survives
    * the cursor's rounding; a boundary that does not loses the row behind it for good. */
  lemma {:induction false} PagesAreTheListingIff<K(!new)>(
    s: set<K>, cursor: Option<K>, limit: nat, lt: (K, K) -> bool, enc: K -> K)
    requires StrictTotalOrder(lt) && Forward(lt, enc) && limit >= 1
    ensures var all := OrderBy(After(s, cursor, lt), lt);
            AllPages(s, cursor, limit, lt, enc) == all <==> BoundariesSurvive(all, limit, lt, enc)
    decreases |After(s, cursor, lt)|
  {
    var all := OrderBy(After(s, cursor, lt), lt);
    PageThenRest(s, cursor, limit, lt, enc);
    if |all| > limit {
      var next := Some(enc(all[limit - 1]));
      var rest := AllPages(s, next, limit, lt, enc);
      SplitEquality(all, limit, rest);
      if lt(next.value, all[limit]) {
        NextPageStartsWhereThisOneEnds(s, cursor, limit, lt, enc);
        PagesAreTheListingIff(s, next, limit, lt, enc);
      } else {
        AllPagesComeAfter(s, next, limit, lt, enc);
        assert all[limit..][0] == all[limit];
      }
    }
  }

  lemma {:induction false} ExactBoundariesSurvive<K(!new)>(listing: seq<K>, limit: nat, lt: (K, K) -> bool, enc: K -> K)
    requires limit >= 1 && Sorted(listing, lt) && forall x :: 0 <= x < |listing| ==> enc(listing[x]) == listing[x]
    ensures BoundariesSurvive(listing, limit, lt, enc)
  {
    if |listing| > limit {
      ExactBoundariesSurvive(listing[limit..], limit, lt, enc);
    }
  }

  lemma SplitEquality<K>(all: seq<K>, n: nat, rest: seq<K>)
    requires n <= |all|
    ensures all[..n] + rest == all <==> rest == all[n..]
  {
    assert (all[..n] + rest)[n..] == rest;
    assert all[..n] + all[n..] == all;
  }

  lemma {:induction false} AllPagesComeAfter<K(!new)>(
    s: set<K>, cursor: Option<K>, limit: nat, lt: (K, K) -> bool, enc: K -> K)
    requires StrictTotalOrder(lt) && Forward(lt, enc) && limit >= 1 && cursor.Some?
    ensures forall i ::
            0 <= i < |AllPages(s, cursor, limit, lt, enc)| ==> lt(cursor.value, AllPages(s, cursor, limit, lt, enc)[i])
    decreases |After(s, cursor, lt)|
  {
    var page := FetchPage(s, cursor, limit, lt, enc);
    PageIsInOrder(s, cursor, limit, lt, enc);
    if page.next.Some? {
      CursorAdvances(s, cursor, limit, lt, enc);
      AllPagesComeAfter(s, page.next, limit, lt, enc);
    }
  }

  /** Requests that all read the same rows end within one request per row, and return the concatenated pages. */
  lemma {:induction false} FixedWalkIsAllPages<K(!new)>(
    snapshots: seq<set<K>>, s: set<K>, cursor: Option<K>, limit: nat, lt: (K, K) -> bool, enc: K -> K)
    requires StrictTotalOrder(lt) && Forward(lt, enc) && limit >= 1
    requires |snapshots| > |After(s, cursor, lt)|
    requires forall i :: 0 <= i < |snapshots| ==> snapshots[i] == s
    ensures Walk(snapshots, cursor, limit, lt, enc) == AllPages(s, cursor, limit, lt, enc)
    ensures Ends(snapshots, cursor, limit, lt, enc)
  {
    var page := FetchPage(s, cursor, limit, lt, enc);
    if page.next.Some? {
      CursorAdvances(s, cursor, limit, lt, enc);
      FixedWalkIsAllPages(snapshots[1..], s, page.next, limit, lt, enc);
    }
  }

  lemma BehindComesLater<K(!new)>(q: seq<K>, lt: (K, K) -> bool, i: nat, k: K)
    requires StrictTotalOrder(lt) && Sorted(q, lt) && i < |q| && k in q && lt(q[i], k)
    ensures i + 1 < |q| && k !in q[..i + 1]
  {
    var n :| 0 <= n < |q| && q[n] == k;
    forall m | 0 <= m <= i
      ensures q[m] != k
    {
      assert m == i || lt(q[m], q[i]);
    }
  }

  lemma PassedOnIsLost<K(!new)>(s: set<K>, cursor: K, limit: nat, lt: (K, K) -> bool, enc: K -> K, k: K)
    requires StrictTotalOrder(lt) && Forward(lt, enc) && limit >= 1 && !lt(cursor, k)
    ensures k !in AllPages(s, Some(cursor), limit, lt, enc)
  {
    AllPagesComeAfter(s, Some(cursor), limit, lt, enc);
  }

  /** A page that ends with a row whose cursor passes `k` loses `k`. */
  lemma PassedRowIsSkipped<K(!new)>(s: set<K>, lt: (K, K) -> bool, enc: K -> K, i: nat, k: K)
    requires StrictTotalOrder(lt) && Forward(lt, enc) && k in OrderBy(s, lt) && i < |OrderBy(s, lt)|
    requires lt(OrderBy(s, lt)[i], k) && !lt(enc(OrderBy(s, lt)[i]), k)
    ensures k !in AllPages(s, None, i + 1, lt, enc)
  {
    assert After(s, None, lt) == s;
    BehindComesLater(OrderBy(s, lt), lt, i, k);
    PassedOnIsLost(s, enc(OrderBy(s, lt)[i]), i + 1, lt, enc, k);
    PageThenRest(s, None, i + 1, lt, enc);
  }

  /** Following the cursors over fixed rows returns `k`, whatever the page size. */
  ghost predicate OnEveryWalk<K(!new)>(s: set<K>, k: K, lt: (K, K) -> bool, enc: K -> K)
    requires StrictTotalOrder(lt) && Forward(lt, enc)
  {
    forall limit: nat :: limit >= 1 ==> k in AllPages(s, None, limit, lt, enc)
  }

  /** Over fixed rows the condition is exact: `k` is returned whatever the page size, if and only if no row in front
    * of it has a cursor that passes it. */
  lemma ListedForEveryLimitIff<K(!new)>(s: set<K>, lt: (K, K) -> bool, enc: K -> K, k: K)
    requires StrictTotalOrder(lt) && Forward(lt, enc) && k in s
    ensures OnEveryWalk(s, k, lt, enc) <==> NonePasses(s, k, lt, enc)
  {
    if NonePasses(s, k, lt, enc) {
      forall limit: nat | limit >= 1
        ensures k in AllPages(s, None, limit, lt, enc)
      {
        assert After(s, None, lt) == s;
        var snapshots := seq(|s| + 1, i => s);
        FixedWalkIsAllPages(snapshots, s, None, limit, lt, enc);
        WalkMissesNothingPresentThroughout(snapshots, None, limit, lt, enc, k);
      }
    } else {
      var x :| x in s && lt(x, k) && !lt(enc(x), k);
      assert x in OrderBy(s, lt) && k in OrderBy(s, lt);
      var i :| 0 <= i < |OrderBy(s, lt)| && OrderBy(s, lt)[i] == x;
      PassedRowIsSkipped(s, lt, enc, i, k);
    }
  }

  /** So a client that follows the cursors over fixed rows always reaches the end, and has the whole listing exactly
    * when every boundary survives. */
  lemma FixedWalkIsTheListingIff<K(!new)>(
    snapshots: seq<set<K>>, s: set<K>, limit: nat, lt: (K, K) -> bool, enc: K -> K)
    requires StrictTotalOrder(lt) && Forward(lt, enc) && limit >= 1 && |snapshots| > |s|
    requires forall i :: 0 <= i < |snapshots| ==> snapshots[i] == s
    ensures Ends(snapshots, None, limit, lt, enc)
    ensures Walk(snapshots, None, limit, lt, enc) == OrderBy(s, lt)
            <==> BoundariesSurvive(OrderBy(s, lt), limit, lt, enc)
  {
    assert After(s, None, lt) == s;
    FixedWalkIsAllPages(snapshots, s, None, limit, lt, enc);
    PagesAreTheListingIff(s, None, limit, lt, enc);
  }

  // ---------------------------------------------------------------------------------------------
  // A plain scan: pages of `limit` with an exact cursor, ended by a short page
  // ---------------------------------------------------------------------------------------------

  function ScanPage<K(==, !new)>(s: set<K>, cursor: Option<K>, limit: nat, lt: (K, K) -> bool): seq<K>
    requires StrictTotalOrder(lt)
  {
    var all := OrderBy(After(s, cursor, lt), lt);
    if |all| <= limit then all else all[..limit]
  }

  /** The rows a scan standing at `cursor` has still to return. */
  ghost predicate StillToCome<K(!new)>(rest: seq<K>, s: set<K>, cursor: Option<K>, lt: (K, K) -> bool)
    requires StrictTotalOrder(lt)
  {
    OrderBy(After(s, cursor, lt), lt) == rest
  }

  lemma ScanStarts<K(!new)>(s: set<K>, lt: (K, K) -> bool)
    requires StrictTotalOrder(lt)
    ensures StillToCome(OrderBy(s, lt), s, None, lt)
  {
    assert After(s, None, lt) == s;
  }

  /** A page is the next stretch of what is to come, and a full one leaves the cursor right behind it. */
  lemma ScanAdvances<K(!new)>(rest: seq<K>, s: set<K>, cursor: Option<K>, limit: nat, lt: (K, K) -> bool)
    requires StrictTotalOrder(lt) && limit >= 1 && StillToCome(rest, s, cursor, lt)
    ensures var page := ScanPage(s, cursor, limit, lt);
            && |page| <= limit && page <= rest
            && (|page| < limit ==> page == rest)
            && (|page| == limit ==> StillToCome(rest[limit..], s, Some(page[limit - 1]), lt))
  {
    if |rest| >= limit {
      RestAfterRow(s, cursor, limit - 1, lt);
    }
  }
}
