/**
  Paged endpoints in general: rows are ordered by one column and then the id, and an opaque text carries the
  client from page to page. Whatever an endpoint does, once each request is a page of the keyset, every
  traversal has the keyset's properties.
 */
module Paging {
  import opened Prelude
  import opened Decimal
  import opened Base64Url
  import opened Keyset

  /** Row ids start at 1 and live in signed 64-bit columns. */
  type Id = x: int | 1 <= x < INT64_LIMIT witness 1

  // ----- orders -----

  /** What a row is sorted by: one column, then the id. The field that the order does not use stays at zero. */
  datatype Key = Key(num: Int64, text: Bytes, id: Id)

  /** Bytewise order of names. */
  predicate Before(a: string, b: string)
  {
    b != "" && (a == "" || a[0] < b[0] || (a[0] == b[0] && Before(a[1..], b[1..])))
  }

  lemma {:induction false} BeforeTotal(a: string, b: string)
    ensures !Before(a, a)
    ensures a != b ==> Before(a, b) || Before(b, a)
  {
    if a != "" {
      BeforeTotal(a[1..], if b != "" then b[1..] else "");
      assert b != "" && a[0] == b[0] && a[1..] == b[1..] ==> a == [a[0]] + a[1..] && b == [b[0]] + b[1..];
    }
  }

  lemma {:induction false} BeforeTransitive(a: string, b: string, c: string)
    requires Before(a, b) && Before(b, c)
    ensures Before(a, c)
  {
    if a != "" && a[0] == b[0] == c[0] {
      BeforeTransitive(a[1..], b[1..], c[1..]);
    }
  }

  /** The order of SQLite's default collation. */
  function Bytewise(): (r: (string, string) -> bool)
    ensures StrictTotal(r)
  {
    BytewiseIsTotal();
    (a, b) => Before(a, b)
  }

  lemma BytewiseIsTotal()
    ensures StrictTotal((a: string, b: string) => Before(a, b))
  {
    hide Before;
    forall a: string, b: string
      ensures !Before(a, a) && (a != b ==> Before(a, b) || Before(b, a))
    {
      BeforeTotal(a, b);
    }
    forall a: string, b: string, c: string | Before(a, b) && Before(b, c)
      ensures Before(a, c)
    {
      BeforeTransitive(a, b, c);
    }
  }

  /** How the database compares names: any order that tells all different names apart. */
  type Collation = before: (string, string) -> bool | StrictTotal(before) ghost witness Bytewise()

  datatype Order = ByNum(numUp: bool, idUp: bool) | ByText(names: Collation)

  predicate LessBy(o: Order, a: Key, b: Key)
  {
    match o
    case ByNum(numUp, idUp) =>
      if a.num != b.num then (if numUp then a.num < b.num else a.num > b.num)
      else if a.id != b.id then (if idUp then a.id < b.id else a.id > b.id)
      else Before(a.text, b.text)
    case ByText(names) =>
      if a.text != b.text then names(a.text, b.text)
      else if a.id != b.id then a.id < b.id
      else a.num < b.num
  }

  function Less(o: Order): (Key, Key) -> bool
  {
    (a, b) => LessBy(o, a, b)
  }

  /** Every order used for paging is a strict total order, ids breaking all ties. */
  lemma LessIsTotal(o: Order)
    ensures StrictTotal(Less(o))
  {
    hide Before;
    BytewiseIsTotal();
    TotalByParts(o, (a, b) => Before(a, b));
  }

  lemma TotalByParts(o: Order, bytes: (string, string) -> bool)
    requires StrictTotal(bytes) && forall a, b :: bytes(a, b) == Before(a, b)
    ensures StrictTotal(Less(o))
  {
    hide Before;
  }

  // ----- endpoints -----

  datatype Result = Rows(ids: seq<Id>, next: string) | InvalidSort | InvalidFilter | BadCursor

  function Ids(keys: seq<Key>): seq<Id>
  {
    seq(|keys|, i requires 0 <= i < |keys| => keys[i].id)
  }

  /**
    One paged endpoint: its answer to a cursor text, the keys it lists for a table, the page size, the text
    it hands out for a place, and the keys it can stop at.
   */
  datatype Endpoint<!T> = Endpoint(fetch: (T, string) -> Result, keys: T -> set<Key>, order: Order, size: nat,
                                   text: Option<Key> -> string, fits: Key -> bool)

  ghost function PageOf(o: Order, keys: set<Key>, after: Option<Key>, size: nat): (seq<Key>, Option<Key>)
    requires size > 0
  {
    LessIsTotal(o);
    Page(Less(o), keys, after, size)
  }

  /** For the text of a place, the answer is the page after that place, with the text of the next place. */
  ghost predicate Answers<T>(e: Endpoint<T>, table: T, after: Option<Key>)
    requires e.size > 0
  {
    (after.Some? ==> e.fits(after.value)) ==>
      var (page, next) := PageOf(e.order, e.keys(table), after, e.size);
      e.fetch(table, e.text(after)) == Rows(Ids(page), e.text(next)) && (next.Some? ==> e.fits(next.value))
  }

  ghost predicate Serves<T(!new)>(e: Endpoint<T>)
  {
    && e.size > 0
    && e.text(None) == "" && (forall k :: e.fits(k) ==> e.text(Some(k)) != "")
    && (forall table, after :: Answers(e, table, after))
  }

  // ----- a client that follows the texts -----

  function Flat(pages: seq<seq<Id>>): seq<Id>
  {
    if pages == [] then [] else Flat(pages[..|pages| - 1]) + pages[|pages| - 1]
  }

  /** Page i was answered from tables[i] for the text received with page i - 1, and asked for when there was one. */
  ghost predicate Traversal<T>(e: Endpoint<T>, tables: seq<T>, texts: seq<string>, pages: seq<seq<Id>>)
  {
    && |texts| == |tables| + 1 && |pages| == |tables| && texts[0] == ""
    && (forall i :: 0 <= i < |tables| ==> e.fetch(tables[i], texts[i]) == Rows(pages[i], texts[i + 1]))
    && (forall i :: 0 < i < |tables| ==> texts[i] != "")
  }

  function KeySets<T>(e: Endpoint<T>, tables: seq<T>): seq<set<Key>>
  {
    seq(|tables|, i requires 0 <= i < |tables| => e.keys(tables[i]))
  }

  lemma IdsAppended(a: seq<Key>, b: seq<Key>)
    ensures Ids(a + b) == Ids(a) + Ids(b)
  {
  }

  /** A traversal by texts is a walk by keys. */
  lemma {:induction false} TraversalIsWalk<T(!new)>(e: Endpoint<T>, tables: seq<T>, texts: seq<string>,
                                                    pages: seq<seq<Id>>)
    requires Serves(e) && StrictTotal(Less(e.order)) && Traversal(e, tables, texts, pages)
    ensures var less, sets := Less(e.order), KeySets(e, tables);
            && Follows(less, sets, e.size)
            && Flat(pages) == Ids(Walked(less, sets, e.size))
            && texts[|tables|] == e.text(Cursor(less, sets, e.size))
            && (Cursor(less, sets, e.size).Some? ==> e.fits(Cursor(less, sets, e.size).value))
  {
    hide StrictTotal, Page;
    var less, sets := Less(e.order), KeySets(e, tables);
    if tables != [] {
      var n := |tables| - 1;
      assert Traversal(e, tables[..n], texts[..n + 1], pages[..n]);
      TraversalIsWalk(e, tables[..n], texts[..n + 1], pages[..n]);
      assert sets[..n] == KeySets(e, tables[..n]);
      var after := Cursor(less, sets[..n], e.size);
      assert Answers(e, tables[n], after);
      assert e.fetch(tables[n], texts[n]) == Rows(pages[n], texts[n + 1]);
      IdsAppended(Walked(less, sets[..n], e.size), Page(less, sets[n], after, e.size).0);
      FollowsOnce(less, sets, e.size);
    }
  }

  lemma FollowsOnce(less: (Key, Key) -> bool, sets: seq<set<Key>>, size: nat)
    requires StrictTotal(less) && size > 0 && sets != []
    requires Follows(less, sets[..|sets| - 1], size)
    requires |sets| > 1 ==> Cursor(less, sets[..|sets| - 1], size).Some?
    ensures Follows(less, sets, size)
  {
    hide StrictTotal, Cursor;
    var n := |sets| - 1;
    forall m | 0 < m < |sets|
      ensures Cursor(less, sets[..m], size).Some?
    {
      if m < n {
        assert sets[..n][..m] == sets[..m];
      }
    }
  }

  /** In no table the image has another sort key than k. */
  ghost predicate OnlyKey<T>(e: Endpoint<T>, tables: seq<T>, id: Id, k: Key)
  {
    forall i, x :: 0 <= i < |tables| && x in e.keys(tables[i]) && x.id == id ==> x == k
  }

  /** While rows come and go between pages, no row whose sort key stays as it is comes back twice. */
  lemma NeverTwice<T(!new)>(e: Endpoint<T>, tables: seq<T>, texts: seq<string>, pages: seq<seq<Id>>, id: Id, k: Key)
    requires Serves(e) && Traversal(e, tables, texts, pages) && OnlyKey(e, tables, id, k)
    ensures multiset(Flat(pages))[id] <= 1
  {
    hide StrictTotal, Traversal, Less, Serves;
    LessIsTotal(e.order);
    assert e.size > 0 by { ServesSize(e); }
    TraversalIsWalk(e, tables, texts, pages);
    var less, sets := Less(e.order), KeySets(e, tables);
    var walked := Walked(less, sets, e.size);
    WalkIncreases(less, sets, e.size);
    forall p | 0 <= p < |walked| && walked[p].id == id
      ensures walked[p] == k
    {
      NothingInvented(less, sets, e.size, walked[p]);
    }
    AtMostOnce(Flat(pages), id);
  }

  lemma ServesSize<T(!new)>(e: Endpoint<T>)
    requires Serves(e)
    ensures e.size > 0
  {
  }

  lemma {:induction false} AtMostOnce(s: seq<Id>, x: Id)
    requires forall p, q :: 0 <= p < q < |s| ==> !(s[p] == x && s[q] == x)
    ensures multiset(s)[x] <= 1
  {
    if s != [] {
      var n := |s| - 1;
      assert s == s[..n] + [s[n]];
      AtMostOnce(s[..n], x);
      if s[n] == x {
        assert x !in s[..n];
        assert x !in multiset(s[..n]);
      }
    }
  }

  /** A finished traversal returns every row that was listed throughout with the same sort key exactly once. */
  lemma ExactlyOnce<T(!new)>(e: Endpoint<T>, tables: seq<T>, texts: seq<string>, pages: seq<seq<Id>>, k: Key)
    requires Serves(e) && Traversal(e, tables, texts, pages) && OnlyKey(e, tables, k.id, k)
    requires tables != [] && texts[|tables|] == ""
    requires forall i :: 0 <= i < |tables| ==> k in e.keys(tables[i])
    ensures multiset(Flat(pages))[k.id] == 1
  {
    hide StrictTotal, Less;
    NeverTwice(e, tables, texts, pages, k.id, k);
    LessIsTotal(e.order);
    TraversalIsWalk(e, tables, texts, pages);
    var less, sets := Less(e.order), KeySets(e, tables);
    assert Cursor(less, sets, e.size).None?;
    NothingSkipped(less, sets, e.size, k);
    var p :| 0 <= p < |Walked(less, sets, e.size)| && Walked(less, sets, e.size)[p] == k;
    assert Flat(pages)[p] == k.id;
    assert k.id in multiset(Flat(pages));
  }

  /** The whole list of a table, in order. */
  ghost function Listing<T>(e: Endpoint<T>, table: T): seq<Key>
  {
    LessIsTotal(e.order);
    Sorted(Less(e.order), e.keys(table))
  }

  /** Over a table that stands still n pages are the first n * size rows, all of them exactly when no text is left. */
  lemma StillTraversal<T(!new)>(e: Endpoint<T>, table: T, n: nat, texts: seq<string>, pages: seq<seq<Id>>)
    requires Serves(e) && n > 0 && Traversal(e, seq(n, i => table), texts, pages)
    ensures Flat(pages) == Ids(Take(Listing(e, table), n * e.size))
    ensures texts[n] == "" <==> |e.keys(table)| <= n * e.size
    ensures texts[n] == "" ==> n == Pages(|e.keys(table)|, e.size)
  {
    hide StrictTotal, Less, Sorted;
    LessIsTotal(e.order);
    TraversalIsWalk(e, seq(n, i => table), texts, pages);
    var less, keys := Less(e.order), e.keys(table);
    assert KeySets(e, seq(n, i => table)) == Still(keys, n);
    EnoughLeft(less, keys, e.size, n);
    StillWalk(less, keys, e.size, n);
    if |keys| <= n * e.size {
      PagesUnique(|keys|, e.size, n);
    }
  }

  lemma PagesUnique(size: nat, limit: nat, n: nat)
    requires limit > 0 && n > 0 && size <= n * limit && (n == 1 || (n - 1) * limit < size)
    ensures n == Pages(size, limit)
  {
    EnoughPages(size, limit);
    var m := Pages(size, limit);
    if m < n {
      MorePages(m, n - 1, limit);
    } else if n < m {
      MorePages(n, m - 1, limit);
    }
  }

  lemma MorePages(a: nat, b: nat, limit: nat)
    requires a <= b
    ensures a * limit <= b * limit
  {
  }

  /** Asking for the n-th page of a still table means that the pages before did not exhaust it. */
  lemma {:induction false} EnoughLeft(less: (Key, Key) -> bool, table: set<Key>, limit: nat, n: nat)
    requires StrictTotal(less) && limit > 0 && n > 0 && Follows(less, Still(table, n), limit)
    ensures n == 1 || (n - 1) * limit < |table|
  {
    hide StrictTotal, Sorted, Page;
    if n > 1 {
      FollowsPrefix(less, Still(table, n), limit, n - 1);
      assert Still(table, n)[..n - 1] == Still(table, n - 1);
      EnoughLeft(less, table, limit, n - 1);
      StillWalk(less, table, limit, n - 1);
      assert Cursor(less, Still(table, n)[..n - 1], limit).Some?;
    }
  }
}
