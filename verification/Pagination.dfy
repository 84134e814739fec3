/** Keyset pagination: `size + 1` rows in descending key order below the cursor, the extra row only
    telling that there is a next page. The table may change between two requests. */
module Pagination {
  import opened Results
  import opened Ordering
  import opened Cursor
  import opened Counting

  /** `more`: there is a next page, and the cursor to it is the last item's key. */
  datatype Page = Page(items: seq<Key>, more: bool)

  function Below(keys: set<Key>, cursor: Option<Key>): set<Key> {
    set k | k in keys && (cursor.None? || Less(k, cursor.value))
  }

  function Take<T>(s: seq<T>, n: nat): seq<T> {
    if |s| <= n then s else s[..n]
  }

  /** The repository's query: WHERE key < cursor ORDER BY key DESC LIMIT size + 1. */
  ghost function Query(keys: set<Key>, size: nat, cursor: Option<Key>): seq<Key> {
    Take(Descending(Below(keys, cursor)), size + 1)
  }

  /** The handler's slicing of the queried rows. */
  function Slice(rows: seq<Key>, size: nat): Page {
    Page(Take(rows, size), |rows| > size && Take(rows, size) != [])
  }

  /** A client following cursors: `tables[i]` is what request `i` finds in the database. */
  ghost function Walk(tables: seq<set<Key>>, size: nat, cursor: Option<Key>): (pages: seq<Page>)
    ensures |pages| <= |tables|
  {
    if tables == [] then [] else
      var page := Slice(Query(tables[0], size, cursor), size);
      if page.more then [page] + Walk(tables[1..], size, Some(page.items[|page.items| - 1])) else [page]
  }

  function Items(pages: seq<Page>): seq<Key> {
    if pages == [] then [] else pages[0].items + Items(pages[1..])
  }

  /** The client has reached a page without a next cursor. */
  predicate Finished(pages: seq<Page>) {
    pages != [] && !pages[|pages| - 1].more
  }

  // One page.

  /** `items` lists the rows above the line drawn below its last item, `more` tells whether rows
      are left below that line. */
  ghost predicate IsTop(items: seq<Key>, rows: set<Key>, size: nat, more: bool) {
    && Decreasing(items)
    && (forall x :: x in items ==> x in rows)
    && (!more ==> |items| <= size && forall x :: x in rows ==> x in items)
    && (more ==> |items| == size > 0 &&
                 forall x :: x in rows ==> x in items || Less(x, items[size - 1]))
  }

  /** A page is exactly the rows between its last row and the cursor, in descending order. */
  lemma PageIsTop(keys: set<Key>, size: nat, cursor: Option<Key>)
    requires size >= 1
    ensures var page := Slice(Query(keys, size, cursor), size);
            IsTop(page.items, Below(keys, cursor), size, page.more)
  {
    var rows := Below(keys, cursor);
    var all := Descending(rows);
    var items := Take(all, size);
    assert Slice(Query(keys, size, cursor), size) == Page(items, |all| > size);
    forall x | x in rows
      ensures x in items || (|rows| > size && Less(x, items[size - 1]))
    {
      assert x in all;
      var i :| 0 <= i < |all| && all[i] == x;
      if i < size { assert items[i] == x; }
    }
  }

  // The whole traversal.

  lemma DecreasingConcat(a: seq<Key>, b: seq<Key>)
    requires Decreasing(a) && Decreasing(b)
    requires a != [] ==> forall x :: x in b ==> Less(x, a[|a| - 1])
    ensures Decreasing(a + b)
  {
    var s := a + b;
    forall i, j | 0 <= i < j < |s|
      ensures Less(s[j], s[i])
    {
      if i < |a| <= j { assert s[j] in b; }
    }
  }

  lemma {:induction false} WalkDecreases(tables: seq<set<Key>>, size: nat, cursor: Option<Key>)
    requires size >= 1
    ensures Decreasing(Items(Walk(tables, size, cursor)))
    ensures forall x :: x in Items(Walk(tables, size, cursor)) ==> cursor.None? || Less(x, cursor.value)
    decreases |tables|
  {
    if tables != [] {
      PageIsTop(tables[0], size, cursor);
      WalkUnfolds(tables, size, cursor);
      var page := Slice(Query(tables[0], size, cursor), size);
      if page.more {
        var last := page.items[size - 1];
        WalkDecreases(tables[1..], size, Some(last));
        assert last in page.items && last in Below(tables[0], cursor);
        DecreasingConcat(page.items, Items(Walk(tables[1..], size, Some(last))));
      }
    }
  }

  /** A walk is a page, and then the walk below it. */
  lemma WalkUnfolds(tables: seq<set<Key>>, size: nat, cursor: Option<Key>)
    requires tables != []
    ensures var page := Slice(Query(tables[0], size, cursor), size);
      var rest := if page.more then Walk(tables[1..], size, Some(page.items[|page.items| - 1])) else [];
      Walk(tables, size, cursor) == [page] + rest && Items(Walk(tables, size, cursor)) == page.items + Items(rest)
  {
    var page := Slice(Query(tables[0], size, cursor), size);
    var rest := if page.more then Walk(tables[1..], size, Some(page.items[|page.items| - 1])) else [];
    assert ([page] + rest)[1..] == rest;
  }

  lemma {:induction false} WalkCovers(tables: seq<set<Key>>, size: nat, cursor: Option<Key>, x: Key)
    requires size >= 1 && Finished(Walk(tables, size, cursor))
    requires forall i :: 0 <= i < |Walk(tables, size, cursor)| ==> x in tables[i]
    requires cursor.None? || Less(x, cursor.value)
    ensures x in Items(Walk(tables, size, cursor))
    decreases |tables|
  {
    var page := Slice(Query(tables[0], size, cursor), size);
    WalkUnfolds(tables, size, cursor);
    PageCovers(tables[0], size, cursor, x);
    if x !in page.items {
      var rest := Walk(tables[1..], size, Some(page.items[|page.items| - 1]));
      FinishedBelow(page, rest);
      forall i | 0 <= i < |rest| ensures x in tables[1..][i] {
        assert x in tables[i + 1];
      }
      WalkCovers(tables[1..], size, Some(page.items[|page.items| - 1]), x);
    }
  }

  /** A row below the cursor is on the page or below the next cursor. */
  lemma PageCovers(keys: set<Key>, size: nat, cursor: Option<Key>, x: Key)
    requires size >= 1 && x in keys && (cursor.None? || Less(x, cursor.value))
    ensures var page := Slice(Query(keys, size, cursor), size);
      x in page.items || (page.more && page.items != [] && Less(x, page.items[|page.items| - 1]))
  {
    PageIsTop(keys, size, cursor);
    assert x in Below(keys, cursor);
  }

  lemma FinishedBelow(page: Page, rest: seq<Page>)
    requires page.more && Finished([page] + rest)
    ensures Finished(rest)
  {}

  lemma PageInvents(keys: set<Key>, size: nat, cursor: Option<Key>)
    ensures forall x :: x in Slice(Query(keys, size, cursor), size).items ==> x in keys
  {
    var rows := Descending(Below(keys, cursor));
    var items := Slice(Query(keys, size, cursor), size).items;
    assert forall i :: 0 <= i < |items| ==> items[i] == rows[i] && rows[i] in rows;
  }

  lemma {:induction false} WalkInvents(tables: seq<set<Key>>, size: nat, cursor: Option<Key>, i: nat)
    requires i < |Walk(tables, size, cursor)|
    ensures forall x :: x in Walk(tables, size, cursor)[i].items ==> x in tables[i]
    decreases |tables|
  {
    WalkUnfolds(tables, size, cursor);
    PageInvents(tables[0], size, cursor);
    if i > 0 {
      var page := Slice(Query(tables[0], size, cursor), size);
      WalkInvents(tables[1..], size, Some(page.items[|page.items| - 1]), i - 1);
    }
  }


  function Unchanging(keys: set<Key>, requests: nat): (tables: seq<set<Key>>)
    ensures |tables| == requests && forall i :: 0 <= i < requests ==> tables[i] == keys
  {
    seq(requests, _ => keys)
  }

  lemma {:induction false} DistinctCount(s: seq<Key>)
    requires Decreasing(s)
    ensures |set x | x in s| == |s|
  {
    if s != [] {
      DistinctCount(s[1..]);
      assert (set x | x in s) == (set x | x in s[1..]) + {s[0]};
    }
  }

  /** The rows a full page returned are no longer below its last row. */
  lemma BelowShrinks(keys: set<Key>, cursor: Option<Key>, items: seq<Key>)
    requires items != [] && Decreasing(items) && forall x :: x in items ==> x in Below(keys, cursor)
    ensures |Below(keys, Some(items[|items| - 1]))| <= |Below(keys, cursor)| - |items|
  {
    var last := items[|items| - 1];
    var returned := set x | x in items;
    var rest := Below(keys, Some(last));
    DistinctCount(items);
    assert returned <= Below(keys, cursor);
    assert last in Below(keys, cursor);
    assert rest <= Below(keys, cursor) - returned;
    SubsetCount(rest, Below(keys, cursor) - returned);
  }

  /** On a fixed table the traversal ends: each full page removes `size` rows from those below the
      cursor. */
  lemma {:induction false} WalkFinishes(keys: set<Key>, requests: nat, size: nat, cursor: Option<Key>)
    requires size >= 1
    requires |Below(keys, cursor)| < requests * size
    ensures Finished(Walk(Unchanging(keys, requests), size, cursor))
    decreases requests
  {
    assert requests >= 1;
    var tables := Unchanging(keys, requests);
    assert tables[1..] == Unchanging(keys, requests - 1);
    PageIsTop(keys, size, cursor);
    var page := Slice(Query(keys, size, cursor), size);
    if page.more {
      var last := Some(page.items[size - 1]);
      BelowShrinks(keys, cursor, page.items);
      assert requests * size == (requests - 1) * size + size;
      WalkFinishes(keys, requests - 1, size, last);
      WalkOn(tables, size, cursor, page);
    }
  }

  /** A page with a next one is not the last of the walk. */
  lemma WalkOn(tables: seq<set<Key>>, size: nat, cursor: Option<Key>, page: Page)
    requires tables != [] && page == Slice(Query(tables[0], size, cursor), size) && page.more
    ensures var rest := Walk(tables[1..], size, Some(page.items[|page.items| - 1]));
      Finished(rest) ==> Finished(Walk(tables, size, cursor))
  {}

  lemma {:induction false} PageOf(pages: seq<Page>, x: Key) returns (i: nat)
    requires x in Items(pages)
    ensures i < |pages| && x in pages[i].items
  {
    if x in pages[0].items {
      i := 0;
    } else {
      var j := PageOf(pages[1..], x);
      i := j + 1;
    }
  }

  lemma OccursOnce(items: seq<Key>, x: Key)
    requires Decreasing(items) && x in items
    ensures multiset(items)[x] == 1
  {
    var i :| 0 <= i < |items| && items[i] == x;
    assert items == items[..i] + [x] + items[i + 1..];
    assert x !in items[..i] && x !in items[i + 1..];
  }

  // What the client sees: pages with textual cursors.

  datatype Reply = Reply(items: seq<Key>, next: Option<string>)

  /** One request of the list endpoints. */
  ghost function Fetch(f: Format, keys: set<Key>, size: nat, cursor: Option<string>): Result<Reply> {
    match DecodeCursor(f, cursor)
    case Err(e) => Err(e)
    case Ok(k) =>
      var page := Slice(Query(keys, size, k), size);
      Ok(Reply(page.items,
               if page.more then Some(EncodeCursor(f, page.items[|page.items| - 1])) else None))
  }

  ghost function Follow(f: Format, tables: seq<set<Key>>, size: nat, cursor: Option<string>): seq<Reply> {
    if tables == [] then [] else
      match Fetch(f, tables[0], size, cursor)
      case Err(_) => []
      case Ok(r) => if r.next.Some? then [r] + Follow(f, tables[1..], size, r.next) else [r]
  }

  function Pages(replies: seq<Reply>): (pages: seq<Page>)
    ensures |pages| == |replies|
  {
    seq(|replies|, i requires 0 <= i < |replies| => Page(replies[i].items, replies[i].next.Some?))
  }

  lemma FetchedPage(f: Format, keys: set<Key>, size: nat, cursor: Option<string>, k: Option<Key>)
    requires DecodeCursor(f, cursor) == Ok(k)
    ensures var page := Slice(Query(keys, size, k), size);
      && Fetch(f, keys, size, cursor).Ok?
      && var reply := Fetch(f, keys, size, cursor).value;
      && reply.items == page.items && (reply.next.Some? <==> page.more)
      && (page.more ==> reply.next == Some(EncodeCursor(f, page.items[|page.items| - 1])))
  {}

  lemma PagesCons(r: Reply, rest: seq<Reply>)
    ensures Pages([r] + rest) == [Page(r.items, r.next.Some?)] + Pages(rest)
  {}

  /** One request of the client is one step of the walk. */
  lemma FollowOne(f: Format, tables: seq<set<Key>>, size: nat, cursor: Option<string>, r: Reply)
    requires tables != [] && Fetch(f, tables[0], size, cursor) == Ok(r)
    ensures Follow(f, tables, size, cursor) == if r.next.Some? then [r] + Follow(f, tables[1..], size, r.next) else [r]
  {}

  /** Every cursor the client sends is accepted and means the last row it has seen. */
  lemma {:induction false} CursorsCarryKeys(f: Format, tables: seq<set<Key>>, size: nat,
                                            cursor: Option<string>, k: Option<Key>)
    requires Lossless(f) && DecodeCursor(f, cursor) == Ok(k)
    ensures Pages(Follow(f, tables, size, cursor)) == Walk(tables, size, k)
    decreases |tables|
  {
    if tables != [] {
      var page := Slice(Query(tables[0], size, k), size);
      FetchedPage(f, tables[0], size, cursor, k);
      var reply := Fetch(f, tables[0], size, cursor).value;
      FollowOne(f, tables, size, cursor, reply);
      if page.more {
        var last := page.items[|page.items| - 1];
        CursorRoundTrip(f, last);
        CursorsCarryKeys(f, tables[1..], size, reply.next, Some(last));
        PagesCons(reply, Follow(f, tables[1..], size, reply.next));
      } else {
        PagesCons(reply, []);
      }
    }
  }

  /** Whatever is inserted or deleted between the requests, no row is returned twice and every page
      comes below the one before it. */
  lemma NoRowTwice(f: Format, tables: seq<set<Key>>, size: nat)
    requires Lossless(f) && size >= 1
    ensures var items := Items(Pages(Follow(f, tables, size, None)));
            Decreasing(items) && forall i, j :: 0 <= i < j < |items| ==> items[i] != items[j]
  {
    CursorsCarryKeys(f, tables, size, None, None);
    WalkDecreases(tables, size, None);
  }

  /** A row that satisfies the filter at every request of a finished traversal is returned exactly
      once. */
  lemma EveryLastingRow(f: Format, tables: seq<set<Key>>, size: nat, x: Key)
    requires Lossless(f) && size >= 1
    requires Finished(Pages(Follow(f, tables, size, None)))
    requires forall i :: 0 <= i < |Follow(f, tables, size, None)| <= |tables| ==> x in tables[i]
    ensures multiset(Items(Pages(Follow(f, tables, size, None))))[x] == 1
  {
    CursorsCarryKeys(f, tables, size, None, None);
    assert |Follow(f, tables, size, None)| == |Walk(tables, size, None)|;
    WalkDecreases(tables, size, None);
    WalkCovers(tables, size, None, x);
    OccursOnce(Items(Walk(tables, size, None)), x);
  }

  /** What reply `i` returns was in the database when it was requested. */
  lemma NothingInvented(f: Format, tables: seq<set<Key>>, size: nat, i: nat)
    requires Lossless(f)
    requires i < |Follow(f, tables, size, None)|
    ensures i < |tables| && forall x :: x in Follow(f, tables, size, None)[i].items ==> x in tables[i]
  {
    CursorsCarryKeys(f, tables, size, None, None);
    assert Pages(Follow(f, tables, size, None))[i].items == Follow(f, tables, size, None)[i].items;
    WalkInvents(tables, size, None, i);
  }

  /** On a fixed table, `n` rows are finished after at most `n / size + 1` requests, and the pages
      put together are the table in descending order. */
  lemma FixedTable(f: Format, keys: set<Key>, requests: nat, size: nat)
    requires Lossless(f) && size >= 1 && requests > |keys| / size
    ensures Finished(Pages(Follow(f, Unchanging(keys, requests), size, None)))
    ensures Items(Pages(Follow(f, Unchanging(keys, requests), size, None))) == Descending(keys)
  {
    var tables := Unchanging(keys, requests);
    CursorsCarryKeys(f, tables, size, None, None);
    FixedWalk(keys, requests, size);
  }

  lemma FixedWalk(keys: set<Key>, requests: nat, size: nat)
    requires size >= 1 && requests > |keys| / size
    ensures Finished(Walk(Unchanging(keys, requests), size, None))
    ensures Items(Walk(Unchanging(keys, requests), size, None)) == Descending(keys)
  {
    assert Below(keys, None) == keys;
    assert |keys| < requests * size by {
      assert |keys| == |keys| / size * size + |keys| % size;
      assert (|keys| / size + 1) * size <= requests * size;
    }
    var tables := Unchanging(keys, requests);
    WalkFinishes(keys, requests, size, None);
    WalkDecreases(tables, size, None);
    var pages := Walk(tables, size, None);
    forall x ensures x in Items(pages) <==> x in Descending(keys) {
      if x in keys { WalkCovers(tables, size, None, x); }
      if x in Items(pages) {
        var i := PageOf(pages, x);
        WalkInvents(tables, size, None, i);
      }
    }
    DecreasingUnique(Items(pages), Descending(keys));
  }
}
