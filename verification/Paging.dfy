/** Keyset pagination: pages that continue after the last key seen, and walks
    that follow the cursors (internal/participant/repository.go,
    internal/platform/pagination/pagination.go). */
module Paging {
  import opened Wrappers

  const DEFAULT_LIMIT := 20
  const MAX_LIMIT := 100

  function NormalizeLimit(limit: int): (n: nat)
    ensures 1 <= n <= MAX_LIMIT
    ensures 1 <= limit <= MAX_LIMIT ==> n == limit
    ensures limit < 1 ==> n == 20
    ensures limit > 100 ==> n == 100
  {
    if limit <= 0 then DEFAULT_LIMIT else if limit > MAX_LIMIT then MAX_LIMIT else limit
  }

  /** The order a listing is in: irreflexive, transitive and total. */
  ghost predicate StrictOrder<K(!new)>(less: (K, K) -> bool) {
    && (forall a :: !less(a, a))
    && (forall a, b, c :: less(a, b) && less(b, c) ==> less(a, c))
    && (forall a, b :: a == b || less(a, b) || less(b, a))
  }

  /** A row as the listing sees it: its key, which no other row has, and the rest. */
  datatype Row<K> = Row(key: K, person: string)

  /** The matching rows of a table, in the order of their unique keys. */
  ghost predicate Ascending<K>(rows: seq<Row<K>>, less: (K, K) -> bool) {
    forall i, j :: 0 <= i < j < |rows| ==> less(rows[i].key, rows[j].key)
  }

  predicate Behind<K>(after: Option<K>, key: K, less: (K, K) -> bool) {
    after.Some? ==> less(after.value, key)
  }

  /** The rows behind a key. */
  function Rest<K>(rows: seq<Row<K>>, after: Option<K>, less: (K, K) -> bool): seq<Row<K>> {
    if rows == [] then []
    else Rest(rows[..|rows| - 1], after, less) + if Behind(after, rows[|rows| - 1].key, less) then [rows[|rows| - 1]] else []
  }

  datatype Page<K> = Page(items: seq<Row<K>>, next: Option<K>)

  function PageOf<K>(rows: seq<Row<K>>, after: Option<K>, limit: nat, less: (K, K) -> bool): Page<K>
    requires limit >= 1
  {
    var rest := Rest(rows, after, less);
    if |rest| > limit then Page(rest[..limit], Some(rest[limit - 1].key)) else Page(rest, None)
  }

  /** One page: at most limit + 1 rows are fetched, the extra one only tells
      that there is more. */
  method ListPage<K>(rows: seq<Row<K>>, after: Option<K>, limit: nat, less: (K, K) -> bool) returns (page: Page<K>)
    requires limit >= 1
    ensures page == PageOf(rows, after, limit, less)
  {
    var out := Fetch(rows, after, limit + 1, less);
    if |out| > limit {
      page := Page(out[..limit], Some(out[limit - 1].key));
    } else {
      page := Page(out, None);
    }
  }

  lemma {:induction false} RestNext<K>(rows: seq<Row<K>>, after: Option<K>, i: nat, less: (K, K) -> bool)
    requires i < |rows|
    ensures Rest(rows[..i + 1], after, less) == Rest(rows[..i], after, less) + if Behind(after, rows[i].key, less) then [rows[i]] else []
  {
    assert rows[..i + 1][..i] == rows[..i];
  }

  lemma {:induction false} RestGrows<K>(rows: seq<Row<K>>, after: Option<K>, i: nat, less: (K, K) -> bool)
    requires i <= |rows|
    ensures Rest(rows[..i], after, less) <= Rest(rows, after, less)
  {
    if i < |rows| {
      RestGrows(rows[..|rows| - 1], after, i, less);
      assert rows[..|rows| - 1][..i] == rows[..i];
    } else {
      assert rows[..i] == rows;
    }
  }

  /** The first rows behind a key, at most max of them. */
  method Fetch<K>(rows: seq<Row<K>>, after: Option<K>, max: nat, less: (K, K) -> bool) returns (out: seq<Row<K>>)
    ensures var rest := Rest(rows, after, less);
            out == if |rest| <= max then rest else rest[..max]
  {
    out := [];
    var i := 0;
    while i < |rows| && |out| < max
      invariant 0 <= i <= |rows| && |out| <= max
      invariant out == Rest(rows[..i], after, less)
      decreases |rows| - i
    {
      RestNext(rows, after, i, less);
      if Behind(after, rows[i].key, less) {
        out := out + [rows[i]];
      }
      i := i + 1;
    }
    RestGrows(rows, after, i, less);
    assert i == |rows| ==> rows[..i] == rows;
  }

  // ---- what is behind a key

  lemma {:induction false} RestIsExact<K(!new)>(rows: seq<Row<K>>, after: Option<K>, less: (K, K) -> bool)
    requires StrictOrder(less)
    requires Ascending(rows, less)
    ensures forall r :: r in Rest(rows, after, less) <==> r in rows && Behind(after, r.key, less)
    ensures Ascending(Rest(rows, after, less), less)
  {
    if rows != [] {
      var front, last := rows[..|rows| - 1], rows[|rows| - 1];
      RestIsExact(front, after, less);
      assert rows == front + [last];
      var rest := Rest(front, after, less);
      forall j | 0 <= j < |rest|
        ensures less(rest[j].key, last.key)
      {
        assert rest[j] in front;
      }
    }
  }

  lemma {:induction false} BehindWhenInRest<K(!new)>(rows: seq<Row<K>>, after: Option<K>, i: nat, less: (K, K) -> bool)
    requires StrictOrder(less)
    requires Ascending(rows, less) && i < |Rest(rows, after, less)|
    ensures Behind(after, Rest(rows, after, less)[i].key, less)
  {
    RestIsExact(rows, after, less);
    assert Rest(rows, after, less)[i] in Rest(rows, after, less);
  }

  lemma {:induction false} RestOfRest<K(!new)>(rows: seq<Row<K>>, a: Option<K>, b: K, less: (K, K) -> bool)
    requires StrictOrder(less)
    requires Behind(a, b, less)
    ensures Rest(Rest(rows, a, less), Some(b), less) == Rest(rows, Some(b), less)
  {
    if rows != [] {
      var front, last := rows[..|rows| - 1], rows[|rows| - 1];
      RestOfRest(front, a, b, less);
      if Behind(a, last.key, less) {
        assert Rest(rows, a, less)[..|Rest(front, a, less)|] == Rest(front, a, less);
      } else {
        assert Rest(rows, a, less) == Rest(front, a, less);
      }
    }
  }

  /** Behind the n-th of some ascending rows are the rows after it. */
  lemma {:induction false} RestIsSuffix<K(!new)>(rows: seq<Row<K>>, n: nat, less: (K, K) -> bool)
    requires StrictOrder(less)
    requires Ascending(rows, less) && n < |rows|
    ensures Rest(rows, Some(rows[n].key), less) == rows[n + 1..]
  {
    var front, last := rows[..|rows| - 1], rows[|rows| - 1];
    if n < |rows| - 1 {
      RestIsSuffix(front, n, less);
      assert rows[n + 1..] == front[n + 1..] + [last];
    } else {
      NoneBehind(front, last.key, less);
    }
  }

  lemma {:induction false} NoneBehind<K>(rows: seq<Row<K>>, key: K, less: (K, K) -> bool)
    requires forall i :: 0 <= i < |rows| ==> !less(key, rows[i].key)
    ensures Rest(rows, Some(key), less) == []
  {
    if rows != [] {
      NoneBehind(rows[..|rows| - 1], key, less);
    }
  }

  lemma {:induction false} NothingBefore<K>(rows: seq<Row<K>>, less: (K, K) -> bool)
    ensures Rest(rows, None, less) == rows
  {
    if rows != [] {
      NothingBefore(rows[..|rows| - 1], less);
      assert rows == rows[..|rows| - 1] + [rows[|rows| - 1]];
    }
  }

  // ---- following the cursors over an unchanging table

  /** The items of the pages from a cursor to the end. */
  function Walk<K>(rows: seq<Row<K>>, after: Option<K>, limit: nat, fuel: nat, less: (K, K) -> bool): seq<Row<K>>
    requires limit >= 1
    decreases fuel
  {
    var page := PageOf(rows, after, limit, less);
    if page.next.None? || fuel == 0 then page.items else page.items + Walk(rows, page.next, limit, fuel - 1, less)
  }

  /** Behind the n-th row behind a key are the rows after it. */
  lemma {:induction false} BehindNth<K(!new)>(rows: seq<Row<K>>, after: Option<K>, n: nat, less: (K, K) -> bool)
    requires StrictOrder(less)
    requires Ascending(rows, less) && n < |Rest(rows, after, less)|
    ensures Rest(rows, Some(Rest(rows, after, less)[n].key), less) == Rest(rows, after, less)[n + 1..]
  {
    var rest := Rest(rows, after, less);
    var key := rest[n].key;
    RestIsExact(rows, after, less);
    BehindWhenInRest(rows, after, n, less);
    RestIsSuffix(rest, n, less);
    RestOfRest(rows, after, key, less);
  }

  /** A page that is not the last takes the first rows behind its cursor and
      leaves the others behind its next. */
  lemma {:induction false} NextPage<K(!new)>(rows: seq<Row<K>>, after: Option<K>, limit: nat, less: (K, K) -> bool)
    requires StrictOrder(less)
    requires Ascending(rows, less) && limit >= 1 && |Rest(rows, after, less)| > limit
    ensures var page := PageOf(rows, after, limit, less);
            page.next.Some? && Rest(rows, after, less) == page.items + Rest(rows, page.next, less)
    ensures |PageOf(rows, after, limit, less).items| == limit
  {
    BehindNth(rows, after, limit - 1, less);
    TakeAndLeave(Rest(rows, after, less), limit);
  }

  lemma TakeAndLeave<K>(rest: seq<Row<K>>, limit: nat)
    requires limit <= |rest|
    ensures rest == rest[..limit] + rest[limit..]
  {
  }

  lemma WalkGoesOn<K>(rows: seq<Row<K>>, after: Option<K>, limit: nat, fuel: nat, page: Page<K>, more: seq<Row<K>>, less: (K, K) -> bool)
    requires limit >= 1 && fuel >= 1 && page == PageOf(rows, after, limit, less) && page.next.Some?
    requires Walk(rows, page.next, limit, fuel - 1, less) == more
    ensures Walk(rows, after, limit, fuel, less) == page.items + more
  {
  }

  /** From any cursor, as many further pages as there are rows left are enough,
      and the pages hold exactly the rows behind the cursor, in order, once each. */
  lemma {:induction false} WalkReturnsRest<K(!new)>(rows: seq<Row<K>>, after: Option<K>, limit: nat, fuel: nat, less: (K, K) -> bool)
    requires StrictOrder(less)
    requires Ascending(rows, less) && limit >= 1 && |Rest(rows, after, less)| <= fuel
    ensures Walk(rows, after, limit, fuel, less) == Rest(rows, after, less)
    decreases fuel
  {
    if |Rest(rows, after, less)| > limit {
      NextPage(rows, after, limit, less);
      var page := PageOf(rows, after, limit, less);
      WalkReturnsRest(rows, page.next, limit, fuel - 1, less);
      WalkGoesOn(rows, after, limit, fuel, page, Rest(rows, page.next, less), less);
    }
  }

  /** Following the cursors from the start ends and returns every row once, in order. */
  lemma {:induction false} WalkReturnsEverything<K(!new)>(rows: seq<Row<K>>, limit: nat, less: (K, K) -> bool)
    requires StrictOrder(less)
    requires Ascending(rows, less) && limit >= 1
    ensures Walk(rows, None, limit, |rows|, less) == rows
  {
    NothingBefore(rows, less);
    WalkReturnsRest(rows, None, limit, |rows|, less);
  }

  // ---- following the cursors while the table changes

  /** Each page is read from the table as it is then, from the cursor of the
      page before; the last page has no cursor. */
  ghost predicate IsWalk<K>(tables: seq<seq<Row<K>>>, pages: seq<Page<K>>, limit: nat, less: (K, K) -> bool)
    requires limit >= 1
  {
    && |pages| == |tables| >= 1
    && (forall k :: 0 <= k < |tables| ==> Ascending(tables[k], less))
    && (forall k :: 0 <= k < |pages| ==> pages[k] == PageOf(tables[k], CursorBefore(pages, k), limit, less))
    && (forall k :: 0 <= k < |pages| - 1 ==> pages[k].next.Some?)
    && pages[|pages| - 1].next.None?
  }

  function CursorBefore<K>(pages: seq<Page<K>>, k: nat): Option<K>
    requires k <= |pages|
  {
    if k == 0 then None else pages[k - 1].next
  }

  /** What one page returns lies behind its cursor and not behind its own next. */
  lemma {:induction false} PageLiesBetween<K(!new)>(rows: seq<Row<K>>, after: Option<K>, limit: nat, r: Row<K>, less: (K, K) -> bool)
    requires StrictOrder(less)
    requires Ascending(rows, less) && limit >= 1
    ensures var page := PageOf(rows, after, limit, less);
            && Ascending(page.items, less)
            && (r in page.items <==> r in rows && Behind(after, r.key, less) && (page.next.Some? ==> !less(page.next.value, r.key)))
  {
    var rest := Rest(rows, after, less);
    RestIsExact(rows, after, less);
    if |rest| > limit {
      var last := rest[limit - 1];
      BehindWhenInRest(rows, after, limit - 1, less);
      if r in rest {
        var i :| 0 <= i < |rest| && rest[i] == r;
        if i < limit {
          assert rest[..limit][i] == r;
          assert i < limit - 1 ==> less(r.key, last.key);
        } else {
          assert less(last.key, r.key);
        }
      }
    }
  }

  lemma {:induction false} NextIsBehind<K(!new)>(rows: seq<Row<K>>, after: Option<K>, limit: nat, less: (K, K) -> bool)
    requires StrictOrder(less)
    requires Ascending(rows, less) && limit >= 1 && PageOf(rows, after, limit, less).next.Some?
    ensures Behind(after, PageOf(rows, after, limit, less).next.value, less)
  {
    BehindWhenInRest(rows, after, limit - 1, less);
  }

  /** Every cursor but the last page's leads further. */
  ghost predicate Advances<K>(pages: seq<Page<K>>, less: (K, K) -> bool) {
    && pages != []
    && (forall k :: 0 <= k < |pages| - 1 ==> pages[k].next.Some? && Behind(CursorBefore(pages, k), pages[k].next.value, less))
    && pages[|pages| - 1].next.None?
  }

  lemma {:induction false} WalkAdvances<K(!new)>(tables: seq<seq<Row<K>>>, pages: seq<Page<K>>, limit: nat, less: (K, K) -> bool)
    requires StrictOrder(less)
    requires limit >= 1 && IsWalk(tables, pages, limit, less)
    ensures Advances(pages, less)
  {
    forall k | 0 <= k < |pages| - 1
      ensures Behind(CursorBefore(pages, k), pages[k].next.value, less)
    {
      NextIsBehind(tables[k], CursorBefore(pages, k), limit, less);
    }
  }

  ghost predicate Transits<K(!new)>(key: K, less: (K, K) -> bool) {
    forall a, b :: less(a, b) && less(b, key) ==> less(a, key)
  }

  lemma OrderTransits<K(!new)>(key: K, less: (K, K) -> bool)
    requires StrictOrder(less)
    ensures Transits(key, less)
  {
  }

  /** Cursors only move forward: behind a later one is behind an earlier one. */
  lemma {:induction false} CursorsAscend<K(!new)>(pages: seq<Page<K>>, j: nat, k: nat, key: K, less: (K, K) -> bool)
    requires Transits(key, less)
    requires Advances(pages, less) && j <= k < |pages| && Behind(CursorBefore(pages, k), key, less)
    ensures Behind(CursorBefore(pages, j), key, less)
  {
    if j < k {
      assert pages[k - 1].next.Some?;
      CursorsAscend(pages, j, k - 1, key, less);
    }
  }

  /** The page on which a key's turn comes: behind its cursor, not behind its next. */
  ghost predicate Turn<K>(pages: seq<Page<K>>, k: int, key: K, less: (K, K) -> bool) {
    && 0 <= k < |pages|
    && Behind(CursorBefore(pages, k), key, less)
    && (pages[k].next.Some? ==> !less(pages[k].next.value, key))
  }

  lemma {:induction false} EveryKeyHasATurn<K(!new)>(pages: seq<Page<K>>, from: nat, key: K, less: (K, K) -> bool) returns (k: nat)
    requires StrictOrder(less)
    requires Advances(pages, less) && from < |pages| && Behind(CursorBefore(pages, from), key, less)
    ensures from <= k && Turn(pages, k, key, less)
    decreases |pages| - from
  {
    if pages[from].next.Some? && less(pages[from].next.value, key) {
      k := EveryKeyHasATurn(pages, from + 1, key, less);
    } else {
      k := from;
    }
  }

  /** A key behind a later cursor is behind every next page's cursor before it. */
  lemma {:induction false} BehindEarlierNext<K(!new)>(pages: seq<Page<K>>, j: nat, k: nat, key: K, less: (K, K) -> bool)
    requires Transits(key, less)
    requires Advances(pages, less) && j < k < |pages| && Behind(CursorBefore(pages, k), key, less)
    ensures Behind(pages[j].next, key, less) && pages[j].next.Some?
  {
    assert j < |pages| - 1 && CursorBefore(pages, j + 1) == pages[j].next;
    CursorsAscend(pages, j + 1, k, key, less);
  }

  lemma {:induction false} TurnsAreUnique<K(!new)>(pages: seq<Page<K>>, j: nat, k: nat, key: K, less: (K, K) -> bool)
    requires Transits(key, less)
    requires Advances(pages, less) && Turn(pages, j, key, less) && Turn(pages, k, key, less)
    ensures j == k
  {
    if j < k {
      BehindEarlierNext(pages, j, k, key, less);
    } else if k < j {
      BehindEarlierNext(pages, k, j, key, less);
    }
  }

  /** A row is on a page exactly when it was in the table then and its turn had come. */
  lemma {:induction false} PageHasItsTurn<K(!new)>(tables: seq<seq<Row<K>>>, pages: seq<Page<K>>, limit: nat, k: nat, r: Row<K>, less: (K, K) -> bool)
    requires StrictOrder(less)
    requires limit >= 1 && IsWalk(tables, pages, limit, less) && k < |pages|
    ensures r in pages[k].items <==> r in tables[k] && Turn(pages, k, r.key, less)
    ensures Ascending(pages[k].items, less)
  {
    PageLiesBetween(tables[k], CursorBefore(pages, k), limit, r, less);
  }

  /** With inserts and deletes between the pages: no key is ever returned twice,
      on one page or on two. */
  lemma {:induction false} NothingTwice<K(!new)>(tables: seq<seq<Row<K>>>, pages: seq<Page<K>>, limit: nat,
                                 j: nat, a: nat, k: nat, b: nat, less: (K, K) -> bool)
    requires StrictOrder(less)
    requires limit >= 1 && IsWalk(tables, pages, limit, less)
    requires j < |pages| && k < |pages| && a < |pages[j].items| && b < |pages[k].items|
    requires pages[j].items[a].key == pages[k].items[b].key
    ensures j == k && a == b
  {
    var r, q := pages[j].items[a], pages[k].items[b];
    assert r in pages[j].items && q in pages[k].items;
    PageHasItsTurn(tables, pages, limit, j, r, less);
    PageHasItsTurn(tables, pages, limit, k, q, less);
    WalkAdvances(tables, pages, limit, less);
    OrderTransits(r.key, less);
    TurnsAreUnique(pages, j, k, r.key, less);
  }

  /** And a key that is in the table throughout is returned, with the row it has
      when its page is read. */
  lemma {:induction false} NothingMissed<K(!new)>(tables: seq<seq<Row<K>>>, pages: seq<Page<K>>, limit: nat, key: K, less: (K, K) -> bool)
    returns (k: nat, r: Row<K>)
    requires StrictOrder(less)
    requires limit >= 1 && IsWalk(tables, pages, limit, less)
    requires forall i :: 0 <= i < |tables| ==> exists j :: 0 <= j < |tables[i]| && tables[i][j].key == key
    ensures k < |pages| && r.key == key && r in tables[k] && r in pages[k].items
  {
    WalkAdvances(tables, pages, limit, less);
    k := EveryKeyHasATurn(pages, 0, key, less);
    var j :| 0 <= j < |tables[k]| && tables[k][j].key == key;
    r := tables[k][j];
    PageHasItsTurn(tables, pages, limit, k, r, less);
  }
}
