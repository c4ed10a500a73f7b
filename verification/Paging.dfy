/**
  Keyset pagination, newest first: the delivery list and the tagged-entry scan
  (src/context/delivery.ts:893-939, src/context/broker.ts:574-590, src/akinator/service.ts:187-215).
 */
module Paging {
  import opened Options
  import opened Ordering
  import opened Sequences

  /** What a row is ordered by: a timestamp and its primary key. */
  datatype Key = Key(at: nat, id: string)

  /** ORDER BY at DESC, id ASC */
  predicate Newer(a: Key, b: Key) {
    a.at > b.at || (a.at == b.at && StringLess(a.id, b.id))
  }

  lemma NewerOrder()
    ensures StrictTotal(Newer)
  {
    StringOrder();
  }

  /** The whole table in order. */
  function Sorted(table: set<Key>): seq<Key> {
    NewerOrder();
    Ordered(table, Newer)
  }

  lemma SortedMembers(table: set<Key>)
    ensures forall k :: k in Sorted(table) <==> k in table
  {
    NewerOrder();
    OrderedLists(table, Newer);
    assert forall k :: k in Sorted(table) <==> k in Elements(Sorted(table));
  }

  /** The rows the WHERE clause of a cursor leaves. */
  function Beyond(table: set<Key>, cursor: Option<Key>): set<Key> {
    set k <- table | cursor.None? || k.at < cursor.value.at || (k.at == cursor.value.at && StringLess(cursor.value.id, k.id))
  }

  /** SELECT … ORDER BY … LIMIT n */
  function Rows(table: set<Key>, cursor: Option<Key>, n: nat): seq<Key> {
    Take(Sorted(Beyond(table, cursor)), n)
  }

  datatype Page = Page(items: seq<Key>, nextCursor: Option<Key>)

  /** `listContextDeliveries`: one row more than the limit tells whether to go on. */
  function List(table: set<Key>, cursor: Option<Key>, limit: nat): Page
    requires limit > 0
  {
    var rows := Rows(table, cursor, limit + 1);
    var items := Take(rows, limit);
    Page(items, if |rows| > limit then Some(items[limit - 1]) else None)
  }

  /** The position after which a cursor continues. */
  predicate At(table: set<Key>, cursor: Option<Key>, i: nat) {
    var all := Sorted(table);
    i <= |all| && (if i == 0 then cursor == None else cursor == Some(all[i - 1]))
  }

  /** A cursor taken from the list leaves exactly the rest of the list. */
  lemma BeyondIsRest(table: set<Key>, cursor: Option<Key>, i: nat)
    requires At(table, cursor, i)
    ensures Sorted(Beyond(table, cursor)) == Sorted(table)[i..]
  {
    NewerOrder();
    var all := Sorted(table);
    if i == 0 {
      assert Beyond(table, cursor) == table;
    } else {
      RestOfListing(table, Newer, i, Beyond(table, cursor));
    }
  }

  /** A page is the next stretch of the full list, and its cursor the end of that stretch. */
  lemma PageIsStretch(table: set<Key>, cursor: Option<Key>, i: nat, limit: nat)
    requires limit > 0 && At(table, cursor, i)
    ensures var all, page := Sorted(table), List(table, cursor, limit);
            && page.items == Take(all[i..], limit)
            && (page.nextCursor.None? <==> |all| - i <= limit)
            && (page.nextCursor.Some? ==> At(table, page.nextCursor, i + limit))
  {
    BeyondIsRest(table, cursor, i);
  }

  /**
    The paging loop of `priorData`: following the cursors yields every row once, in order, and
    fails exactly when the list is longer than the pages allowed can hold.
   */
  method ReadAll(table: set<Key>, limit: nat, maxPages: nat) returns (r: Option<seq<Key>>)
    requires limit > 0 && maxPages > 0
    ensures r == if |Sorted(table)| <= limit * maxPages then Some(Sorted(table)) else None
  {
    ghost var all := Sorted(table);
    var items: seq<Key> := [];
    var cursor: Option<Key> := None;
    var page := 0;
    while page < maxPages
      invariant 0 <= page <= maxPages
      invariant |items| == limit * page && At(table, cursor, |items|) && items == all[..|items|]
      invariant page > 0 ==> |items| < |all|
    {
      PageAdds(table, cursor, items, limit);
      Product(limit, page, maxPages);
      var result := List(table, cursor, limit);
      items := items + result.items;
      if result.nextCursor.None? {
        return Some(items);
      }
      cursor := result.nextCursor;
      page := page + 1;
    }
    r := None;
  }

  /** A page prolongs what was read so far by one stretch. */
  lemma PageAdds(table: set<Key>, cursor: Option<Key>, items: seq<Key>, limit: nat)
    requires limit > 0 && At(table, cursor, |items|) && items == Sorted(table)[..|items|]
    ensures var all, page := Sorted(table), List(table, cursor, limit);
            if page.nextCursor.None? then items + page.items == all && |all| <= |items| + limit
            else && |items| + limit < |all| && items + page.items == all[..|items| + limit]
                 && At(table, page.nextCursor, |items| + limit)
  {
    PageIsStretch(table, cursor, |items|, limit);
    StretchAdds(Sorted(table), items, List(table, cursor, limit).items, limit);
  }

  lemma StretchAdds<T>(all: seq<T>, items: seq<T>, more: seq<T>, limit: nat)
    requires |items| <= |all| && items == all[..|items|] && more == Take(all[|items|..], limit)
    ensures items + more == if |all| - |items| <= limit then all else all[..|items| + limit]
  {
  }

  lemma Product(limit: nat, page: nat, maxPages: nat)
    requires page < maxPages
    ensures limit * (page + 1) == limit * page + limit && limit * (page + 1) <= limit * maxPages
  {
    assert limit * maxPages == limit * (page + 1) + limit * (maxPages - page - 1);
  }

  /** Following the cursors without a bound, as a caller does. */
  function Follow(table: set<Key>, cursor: Option<Key>, limit: nat, i: nat): seq<Key>
    requires limit > 0 && At(table, cursor, i)
    decreases |Sorted(table)| - i
  {
    var page := List(table, cursor, limit);
    PageIsStretch(table, cursor, i, limit);
    page.items + if page.nextCursor.None? then [] else Follow(table, page.nextCursor, limit, i + limit)
  }

  lemma StretchThenRest<T>(all: seq<T>, i: nat, limit: nat, items: seq<T>, rest: seq<T>)
    requires i <= |all| && items == Take(all[i..], limit)
    requires rest == if |all| - i <= limit then [] else all[i + limit..]
    ensures items + rest == all[i..]
  {
  }

  lemma {:induction false} FollowIsRest(table: set<Key>, cursor: Option<Key>, limit: nat, i: nat)
    requires limit > 0 && At(table, cursor, i)
    ensures Follow(table, cursor, limit, i) == Sorted(table)[i..]
    decreases |Sorted(table)| - i
  {
    var all, page := Sorted(table), List(table, cursor, limit);
    PageIsStretch(table, cursor, i, limit);
    var rest: seq<Key> := [];
    if page.nextCursor.Some? {
      FollowIsRest(table, page.nextCursor, limit, i + limit);
      rest := Follow(table, page.nextCursor, limit, i + limit);
    }
    assert Follow(table, cursor, limit, i) == page.items + rest;
    StretchThenRest(all, i, limit, page.items, rest);
  }

  /** For every limit: each row exactly once, newest first. */
  lemma FollowingListsEachOnce(table: set<Key>, limit: nat)
    requires limit > 0
    ensures var all := Follow(table, None, limit, 0);
            && Ascending(all, Newer)
            && (forall i, j | 0 <= i < j < |all| :: all[i] != all[j])
            && Elements(all) == table
  {
    FollowIsRest(table, None, limit, 0);
    NewerOrder();
    OrderedLists(table, Newer);
  }

  // ---- the tagged-entry scan ----

  const SCAN_PAGE := 32

  function Matching(keys: seq<Key>, keep: Key -> bool): seq<Key> {
    if keys == [] then []
    else
      var last := |keys| - 1;
      Matching(keys[..last], keep) + if keep(keys[last]) then [keys[last]] else []
  }

  /** The matching keys are exactly those kept, each once and in order. */
  lemma {:induction false} MatchingIsFilter(keys: seq<Key>, keep: Key -> bool)
    ensures Matching(keys, keep) == Filter(keys, keep)
  {
    if keys != [] {
      var last := |keys| - 1;
      MatchingIsFilter(keys[..last], keep);
      FilterAppend(keys[..last], [keys[last]], keep);
      assert keys == keys[..last] + [keys[last]];
      assert Filter([keys[last]], keep) == if keep(keys[last]) then [keys[last]] else [];
    }
  }

  lemma {:induction false} MatchingAppend(a: seq<Key>, b: seq<Key>, keep: Key -> bool)
    ensures Matching(a + b, keep) == Matching(a, keep) + Matching(b, keep)
    decreases |b|
  {
    if b == [] {
      assert a + b == a;
    } else {
      var last := |b| - 1;
      assert (a + b)[..|a + b| - 1] == a + b[..last];
      MatchingAppend(a, b[..last], keep);
    }
  }

  /** One page of the scan, stopping when the result is full. */
  method ScanPage(rows: seq<Key>, retrievable: Key -> bool, before: seq<Key>, limit: nat)
    returns (result: seq<Key>, used: nat)
    requires rows != [] && |before| < limit
    ensures 0 < used <= |rows| && |result| <= limit && (used < |rows| ==> |result| == limit)
    ensures result == before + Matching(rows[..used], retrievable)
  {
    result, used := before, 0;
    while used < |rows|
      invariant 0 <= used <= |rows| && |result| < limit
      invariant result == before + Matching(rows[..used], retrievable)
    {
      assert rows[..used + 1][..used] == rows[..used];
      if retrievable(rows[used]) {
        result := result + [rows[used]];
      }
      used := used + 1;
      if |result| == limit {
        return;
      }
    }
  }

  /** What a page adds to the stretch already scanned. */
  lemma ScannedPrefix(all: seq<Key>, i: nat, n: nat, used: nat, keep: Key -> bool)
    requires i <= |all| && 0 < used <= |Take(all[i..], n)|
    ensures i + used <= |all| && Take(all[i..], n)[used - 1] == all[i + used - 1]
    ensures Matching(all[..i + used], keep) == Matching(all[..i], keep) + Matching(Take(all[i..], n)[..used], keep)
  {
    var rows := Take(all[i..], n);
    assert all[..i] + rows[..used] == all[..i + used];
    MatchingAppend(all[..i], rows[..used], keep);
  }

  /**
    `taggedEntries`: the candidates are scanned a page at a time, those not retrievable are
    skipped, and the result is the first `limit` retrievable ones of the fully ordered list.
   */
  method TaggedEntries(table: set<Key>, retrievable: Key -> bool, limit: nat) returns (result: seq<Key>)
    ensures result == Take(Filter(Sorted(table), retrievable), limit)
  {
    result := [];
    ghost var i := 0;
    var cursor: Option<Key> := None;
    while |result| < limit
      invariant |result| <= limit && Scanned(table, retrievable, cursor, i, result)
      decreases |Sorted(table)| - i
    {
      RowsAreNext(table, cursor, i);
      var rows := Rows(table, cursor, SCAN_PAGE);
      if rows == [] {
        break;
      }
      var before := result;
      var used;
      result, used := ScanPage(rows, retrievable, before, limit);
      ScanAdvances(table, retrievable, cursor, i, before, used);
      cursor := Some(rows[used - 1]);
      i := i + used;
    }
    ScanEnds(table, retrievable, cursor, i, result);
    MatchingIsFilter(Sorted(table), retrievable);
  }

  /** The scan stands behind the first `i` rows and has kept the retrievable ones. */
  ghost predicate Scanned(table: set<Key>, keep: Key -> bool, cursor: Option<Key>, i: nat, result: seq<Key>) {
    At(table, cursor, i) && result == Matching(Sorted(table)[..i], keep)
  }

  lemma RowsAreNext(table: set<Key>, cursor: Option<Key>, i: nat)
    requires At(table, cursor, i)
    ensures Rows(table, cursor, SCAN_PAGE) == Take(Sorted(table)[i..], SCAN_PAGE)
    ensures Rows(table, cursor, SCAN_PAGE) == [] <==> i == |Sorted(table)|
  {
    BeyondIsRest(table, cursor, i);
  }

  lemma ScanAdvances(table: set<Key>, keep: Key -> bool, cursor: Option<Key>, i: nat, before: seq<Key>, used: nat)
    requires Scanned(table, keep, cursor, i, before) && 0 < used <= |Rows(table, cursor, SCAN_PAGE)|
    ensures var rows := Rows(table, cursor, SCAN_PAGE);
            i + used <= |Sorted(table)| && Scanned(table, keep, Some(rows[used - 1]), i + used, before + Matching(rows[..used], keep))
  {
    RowsAreNext(table, cursor, i);
    ScannedPrefix(Sorted(table), i, SCAN_PAGE, used, keep);
  }

  lemma ScanEnds(table: set<Key>, keep: Key -> bool, cursor: Option<Key>, i: nat, result: seq<Key>)
    requires Scanned(table, keep, cursor, i, result)
    ensures result <= Matching(Sorted(table), keep) && (i == |Sorted(table)| ==> result == Matching(Sorted(table), keep))
  {
    var all := Sorted(table);
    MatchingAppend(all[..i], all[i..], keep);
    assert all[..i] + all[i..] == all;
  }
}
