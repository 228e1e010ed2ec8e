/**
  Keyset pagination over any strict total order: a page is the first `limit` keys after the cursor, and
  the next cursor is the last key of a page that was not the last. The table may change between pages.
 */
module Keyset {
  import opened Prelude

  ghost predicate StrictTotal<K(!new)>(less: (K, K) -> bool)
  {
    && (forall a :: !less(a, a))
    && (forall a, b :: a != b ==> less(a, b) || less(b, a))
    && (forall a, b, c :: less(a, b) && less(b, c) ==> less(a, c))
  }

  ghost predicate Increasing<K(!new)>(less: (K, K) -> bool, s: seq<K>)
  {
    forall i, j :: 0 <= i < j < |s| ==> less(s[i], s[j])
  }

  // ----- ORDER BY -----

  predicate IsLeast<K>(less: (K, K) -> bool, s: set<K>, m: K)
  {
    m in s && forall k :: k in s ==> k == m || less(m, k)
  }

  lemma {:induction false} LeastExists<K(!new)>(less: (K, K) -> bool, s: set<K>, some: K)
    requires StrictTotal(less) && some in s
    ensures exists m :: IsLeast(less, s, m)
    decreases s
  {
    if k :| k in s - {some} {
      LeastExists(less, s - {some}, k);
      var m :| IsLeast(less, s - {some}, m);
      assert forall x :: x in s ==> x == some || x in s - {some};
      assert IsLeast(less, s, if less(some, m) then some else m);
    } else {
      assert forall x :: x in s ==> x == some || x in s - {some};
      assert IsLeast(less, s, some);
    }
  }

  lemma PrependLeast<K(!new)>(less: (K, K) -> bool, s: set<K>, m: K, rest: seq<K>)
    requires IsLeast(less, s, m) && Elements(rest) == s - {m} && Increasing(less, rest)
    ensures Elements([m] + rest) == s && Increasing(less, [m] + rest)
  {
    var all := [m] + rest;
    assert all[0] == m;
    forall x | x in s && x != m
      ensures x in all
    {
      assert x in Elements(rest);
      var i :| 0 <= i < |rest| && rest[i] == x;
      assert all[i + 1] == x;
    }
    forall i | 0 <= i < |rest|
      ensures rest[i] in s && rest[i] != m
    {
      assert rest[i] in Elements(rest);
    }
  }

  /** The elements of a set in increasing order. */
  ghost function Sorted<K(!new)>(less: (K, K) -> bool, s: set<K>): (r: seq<K>)
    requires StrictTotal(less)
    ensures Elements(r) == s && Increasing(less, r) && |r| == |s|
  {
    if k :| k in s then
      LeastExists(less, s, k);
      var m :| IsLeast(less, s, m);
      var rest := Sorted(less, s - {m});
      PrependLeast(less, s, m, rest);
      [m] + rest
    else []
  }

  lemma SameEmptiness<K>(a: seq<K>, b: seq<K>)
    requires Elements(a) == Elements(b)
    ensures a == [] <==> b == []
  {
    assert forall s: seq<K> :: s != [] ==> s[0] in Elements(s);
  }

  /** Only one increasing sequence has given elements. */
  lemma {:induction false} IncreasingUnique<K(!new)>(less: (K, K) -> bool, a: seq<K>, b: seq<K>)
    requires StrictTotal(less) && Increasing(less, a) && Increasing(less, b) && Elements(a) == Elements(b)
    ensures a == b
  {
    SameEmptiness(a, b);
    if a != [] {
      assert a[0] in Elements(b) && b[0] in Elements(a);
      assert a[0] == b[0];
      TailElements(less, a);
      TailElements(less, b);
      IncreasingUnique(less, a[1..], b[1..]);
    }
  }

  lemma TailElements<K(!new)>(less: (K, K) -> bool, s: seq<K>)
    requires StrictTotal(less) && Increasing(less, s) && s != []
    ensures Elements(s[1..]) == Elements(s) - {s[0]}
  {
    assert s == [s[0]] + s[1..];
  }

  // ----- one page -----

  function Later<K>(less: (K, K) -> bool, table: set<K>, after: Option<K>): set<K>
  {
    set k | k in table && (after.Some? ==> less(after.value, k))
  }

  function Take<K>(s: seq<K>, n: nat): seq<K>
  {
    if |s| <= n then s else s[..n]
  }

  /** Of limit + 1 rows asked for, the extra one only tells that there is a next page. */
  function FirstPage<K>(all: seq<K>, limit: nat): (seq<K>, Option<K>)
    requires limit > 0
  {
    var scans := Take(all, limit + 1);
    if |scans| > limit then (scans[..limit], Some(scans[limit - 1])) else (scans, None)
  }

  ghost function Page<K(!new)>(less: (K, K) -> bool, table: set<K>, after: Option<K>, limit: nat): (seq<K>, Option<K>)
    requires StrictTotal(less) && limit > 0
  {
    FirstPage(Sorted(less, Later(less, table, after)), limit)
  }

  /** Where a key of a sorted sequence stands relative to the end of the first page. */
  lemma OnFirstPage<K(!new)>(less: (K, K) -> bool, all: seq<K>, limit: nat, i: nat)
    requires StrictTotal(less) && Increasing(less, all) && limit > 0 && i < |all|
    ensures var (page, next) := FirstPage(all, limit);
            && (i < limit ==> i < |page| && page[i] == all[i] && (next.Some? ==> !less(next.value, all[i])))
            && (i >= limit ==> next.Some? && less(next.value, all[i]))
  {
    if i < limit - 1 < |all| {
      assert less(all[i], all[limit - 1]);
    }
    if i > limit - 1 {
      assert less(all[limit - 1], all[i]);
    }
  }

  /** Between the old and the new cursor a page misses nothing and adds nothing. */
  lemma PageIsExact<K(!new)>(less: (K, K) -> bool, table: set<K>, after: Option<K>, limit: nat)
    requires StrictTotal(less) && limit > 0
    ensures var (page, next) := Page(less, table, after, limit);
            && Increasing(less, page) && |page| <= limit
            && (next.Some? ==> |page| == limit && next.value == page[limit - 1])
            && forall k :: k in page <==> k in Later(less, table, after) && (next.Some? ==> !less(next.value, k))
  {
    hide StrictTotal;
    var all := Sorted(less, Later(less, table, after));
    var (page, next) := Page(less, table, after, limit);
    assert page <= all;
    forall k
      ensures k in page <==> k in Later(less, table, after) && (next.Some? ==> !less(next.value, k))
    {
      assert k in Elements(all) <==> k in all;
      if i :| 0 <= i < |all| && all[i] == k {
        OnFirstPage(less, all, limit, i);
      }
      if k in page {
        var i :| 0 <= i < |page| && page[i] == k;
        assert all[i] == k;
        OnFirstPage(less, all, limit, i);
      }
    }
  }

  // ----- a client that follows the cursors -----

  /** The cursor handed out with the last of the pages, one query against each table state in turn. */
  ghost function Cursor<K(!new)>(less: (K, K) -> bool, tables: seq<set<K>>, limit: nat): Option<K>
    requires StrictTotal(less) && limit > 0
    decreases |tables|, 1
  {
    if tables == [] then None else LastPage(less, tables, limit).1
  }

  ghost function LastPage<K(!new)>(less: (K, K) -> bool, tables: seq<set<K>>, limit: nat): (seq<K>, Option<K>)
    requires StrictTotal(less) && limit > 0 && tables != []
    decreases |tables|, 0
  {
    Page(less, tables[|tables| - 1], Cursor(less, tables[..|tables| - 1], limit), limit)
  }

  /** All pages put together. */
  ghost function Walked<K(!new)>(less: (K, K) -> bool, tables: seq<set<K>>, limit: nat): seq<K>
    requires StrictTotal(less) && limit > 0
  {
    if tables == [] then []
    else Walked(less, tables[..|tables| - 1], limit) + LastPage(less, tables, limit).0
  }

  /** A further page is only asked for while a cursor is handed out. */
  ghost predicate Follows<K(!new)>(less: (K, K) -> bool, tables: seq<set<K>>, limit: nat)
    requires StrictTotal(less) && limit > 0
  {
    forall n :: 0 < n < |tables| ==> Cursor(less, tables[..n], limit).Some?
  }

  lemma FollowsPrefix<K(!new)>(less: (K, K) -> bool, tables: seq<set<K>>, limit: nat, n: nat)
    requires StrictTotal(less) && limit > 0 && Follows(less, tables, limit) && n <= |tables|
    ensures Follows(less, tables[..n], limit)
  {
    forall m | 0 < m < n
      ensures Cursor(less, tables[..n][..m], limit).Some?
    {
      assert tables[..n][..m] == tables[..m];
    }
  }

  /** The cursor is the last key returned so far. */
  ghost predicate AtEnd<K>(s: seq<K>, cursor: Option<K>)
  {
    cursor.Some? ==> s != [] && s[|s| - 1] == cursor.value
  }

  lemma AppendPage<K(!new)>(less: (K, K) -> bool, s: seq<K>, cursor: Option<K>, table: set<K>, limit: nat)
    requires StrictTotal(less) && limit > 0
    requires Increasing(less, s) && AtEnd(s, cursor) && (cursor.None? ==> s == [])
    ensures var (page, next) := Page(less, table, cursor, limit);
            Increasing(less, s + page) && AtEnd(s + page, next)
  {
    hide Page;
    PageIsExact(less, table, cursor, limit);
    var (page, next) := Page(less, table, cursor, limit);
    var all := s + page;
    forall i, j | 0 <= i < j < |all|
      ensures less(all[i], all[j])
    {
      if i < |s| <= j {
        assert page[j - |s|] in page && less(cursor.value, all[j]);
        assert i < |s| - 1 ==> less(s[i], cursor.value);
      }
    }
  }

  /**
    Whatever happens to the table between pages, the keys come back in strictly increasing order, so no
    key comes back twice.
   */
  lemma {:induction false} WalkIncreases<K(!new)>(less: (K, K) -> bool, tables: seq<set<K>>, limit: nat)
    requires StrictTotal(less) && limit > 0 && Follows(less, tables, limit)
    ensures Increasing(less, Walked(less, tables, limit)) && NoDuplicates(Walked(less, tables, limit))
    ensures AtEnd(Walked(less, tables, limit), Cursor(less, tables, limit))
  {
    hide Page;
    if tables != [] {
      var n := |tables| - 1;
      FollowsPrefix(less, tables, limit, n);
      WalkIncreases(less, tables[..n], limit);
      assert n == 0 ==> Walked(less, tables[..n], limit) == [];
      AppendPage(less, Walked(less, tables[..n], limit), Cursor(less, tables[..n], limit), tables[n], limit);
    }
  }

  /** Every key that every page's query saw has been returned, or still lies after the cursor. */
  lemma {:induction false} NothingSkipped<K(!new)>(less: (K, K) -> bool, tables: seq<set<K>>, limit: nat, k: K)
    requires StrictTotal(less) && limit > 0 && tables != [] && Follows(less, tables, limit)
    requires forall i :: 0 <= i < |tables| ==> k in tables[i]
    ensures k in Walked(less, tables, limit)
            || (Cursor(less, tables, limit).Some? && less(Cursor(less, tables, limit).value, k))
  {
    hide Page;
    var n := |tables| - 1;
    PageIsExact(less, tables[n], Cursor(less, tables[..n], limit), limit);
    if n > 0 {
      FollowsPrefix(less, tables, limit, n);
      NothingSkipped(less, tables[..n], limit, k);
    }
    assert k in tables[n];
  }

  /** Every key returned was in the table when its page was queried. */
  lemma {:induction false} NothingInvented<K(!new)>(less: (K, K) -> bool, tables: seq<set<K>>, limit: nat, k: K)
    requires StrictTotal(less) && limit > 0 && k in Walked(less, tables, limit)
    ensures exists i :: 0 <= i < |tables| && k in tables[i]
  {
    hide Page, StrictTotal;
    if tables != [] {
      var n := |tables| - 1;
      PageIsExact(less, tables[n], Cursor(less, tables[..n], limit), limit);
      if k in Walked(less, tables[..n], limit) {
        NothingInvented(less, tables[..n], limit, k);
      }
    }
  }

  /** A finished traversal returns every key that was there throughout exactly once. */
  lemma CompleteWalk<K(!new)>(less: (K, K) -> bool, tables: seq<set<K>>, limit: nat, k: K)
    requires StrictTotal(less) && limit > 0 && tables != [] && Follows(less, tables, limit)
    requires Cursor(less, tables, limit).None?
    requires forall i :: 0 <= i < |tables| ==> k in tables[i]
    ensures k in Walked(less, tables, limit) && NoDuplicates(Walked(less, tables, limit))
  {
    NothingSkipped(less, tables, limit, k);
    WalkIncreases(less, tables, limit);
  }

  // ----- a table that stands still -----

  function Still<K>(table: set<K>, n: nat): seq<set<K>>
  {
    seq(n, i => table)
  }

  lemma RestOfSorted<K(!new)>(less: (K, K) -> bool, table: set<K>, m: nat)
    requires StrictTotal(less) && 0 < m <= |table|
    ensures Sorted(less, Later(less, table, Some(Sorted(less, table)[m - 1]))) == Sorted(less, table)[m..]
  {
    var all := Sorted(less, table);
    var later := Later(less, table, Some(all[m - 1]));
    forall k
      ensures k in all[m..] <==> k in later
    {
      assert k in Elements(all) <==> k in all;
      if k in all {
        var i :| 0 <= i < |all| && all[i] == k;
        assert i < m - 1 ==> less(all[i], all[m - 1]);
        assert i > m - 1 ==> less(all[m - 1], all[i]) && all[m..][i - m] == k;
      }
    }
    assert Elements(all[m..]) == later;
    IncreasingUnique(less, Sorted(less, later), all[m..]);
  }

  /** Where a walk stands after m keys. */
  ghost function Place<K(!new)>(less: (K, K) -> bool, table: set<K>, m: nat): Option<K>
    requires StrictTotal(less)
  {
    if 0 < m <= |table| then Some(Sorted(less, table)[m - 1]) else None
  }

  lemma StillPage<K(!new)>(less: (K, K) -> bool, table: set<K>, limit: nat, m: nat)
    requires StrictTotal(less) && limit > 0 && m <= |table|
    ensures var (page, next) := Page(less, table, Place(less, table, m), limit);
            && Take(Sorted(less, table), m) + page == Take(Sorted(less, table), m + limit)
            && next == if |table| > m + limit then Place(less, table, m + limit) else None
  {
    hide StrictTotal, Increasing, FirstPage;
    if m == 0 {
      assert Later(less, table, None) == table;
    } else {
      RestOfSorted(less, table, m);
    }
    PageOfRest(Sorted(less, table), m, limit);
  }

  lemma PageOfRest<K>(all: seq<K>, m: nat, limit: nat)
    requires limit > 0 && m <= |all|
    ensures var (page, next) := FirstPage(all[m..], limit);
            && Take(all, m) + page == Take(all, m + limit)
            && next == if |all| > m + limit then Some(all[m + limit - 1]) else None
  {
  }

  /**
    On a table that stands still, n pages return the first n * limit keys of the sorted table, and the
    traversal is finished exactly when that is all of it.
   */
  lemma {:induction false} StillWalk<K(!new)>(less: (K, K) -> bool, table: set<K>, limit: nat, n: nat)
    requires StrictTotal(less) && limit > 0 && n > 0 && (n == 1 || (n - 1) * limit < |table|)
    ensures Walked(less, Still(table, n), limit) == Take(Sorted(less, table), n * limit)
    ensures Cursor(less, Still(table, n), limit) == if |table| > n * limit then Place(less, table, n * limit) else None
    ensures Follows(less, Still(table, n), limit)
  {
    hide Page, Sorted, StrictTotal;
    var m := (n - 1) * limit;
    assert Still(table, n)[..n - 1] == Still(table, n - 1);
    assert n * limit == m + limit && (n == 1 ==> m == 0);
    if n > 1 {
      assert (n - 2) * limit <= m;
      StillWalk(less, table, limit, n - 1);
      StillFollows(less, table, limit, n);
    }
    assert Cursor(less, Still(table, n - 1), limit) == Place(less, table, m);
    assert Walked(less, Still(table, n - 1), limit) == Take(Sorted(less, table), m);
    StillPage(less, table, limit, m);
    var pages := Still(table, n);
    assert |pages| == n && pages[n - 1] == table && pages[..n - 1] == Still(table, n - 1);
    assert LastPage(less, pages, limit) == Page(less, table, Place(less, table, m), limit);
  }

  lemma StillFollows<K(!new)>(less: (K, K) -> bool, table: set<K>, limit: nat, n: nat)
    requires StrictTotal(less) && limit > 0 && n > 1 && Follows(less, Still(table, n - 1), limit)
    requires Cursor(less, Still(table, n - 1), limit).Some?
    ensures Follows(less, Still(table, n), limit)
  {
    hide StrictTotal, Cursor;
    forall m | 0 < m < n
      ensures Cursor(less, Still(table, n)[..m], limit).Some?
    {
      assert Still(table, n)[..m] == Still(table, n - 1)[..m];
      assert Still(table, n - 1)[..n - 1] == Still(table, n - 1);
    }
  }

  /** The number of pages a table takes. */
  function Pages(size: nat, limit: nat): nat
    requires limit > 0
  {
    if size == 0 then 1 else (size - 1) / limit + 1
  }

  /** Following the cursors over a table that stands still ends after Pages(...) pages with the whole sorted table. */
  lemma StillWalkEnds<K(!new)>(less: (K, K) -> bool, table: set<K>, limit: nat)
    requires StrictTotal(less) && limit > 0
    ensures var n := Pages(|table|, limit);
            && Follows(less, Still(table, n), limit)
            && Cursor(less, Still(table, n), limit).None?
            && Walked(less, Still(table, n), limit) == Sorted(less, table)
  {
    var n := Pages(|table|, limit);
    EnoughPages(|table|, limit);
    StillWalk(less, table, limit, n);
  }

  lemma EnoughPages(size: nat, limit: nat)
    requires limit > 0
    ensures var n := Pages(size, limit); n > 0 && size <= n * limit && (n == 1 || (n - 1) * limit < size)
  {
    if size > 0 {
      var q := (size - 1) / limit;
      assert size - 1 == q * limit + (size - 1) % limit;
    }
  }
}
