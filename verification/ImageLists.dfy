/** The paged list of a user's images: its sorts, and the WHERE clause that a cursor text turns into. */
module ImageLists {
  import opened Prelude
  import opened Decimal
  import opened Base64Url
  import opened Cursors
  import opened Keyset
  import opened Paging

  datatype Row = Row(name: Bytes, size: Int64, pos: Int64)

  type Table = map<Id, Row>

  // ----- the list -----

  predicate KnownSort(sort: string)
  {
    sort == "" || sort == "date" || sort == "size" || sort == "name" || sort == "position"
  }

  /** The order of a sort; names compare as the database compares them. */
  function OrderSpec(sort: string, names: Collation): Order
    requires KnownSort(sort)
  {
    if sort == "name" then ByText(names)
    else if sort == "position" then ByNum(true, false)
    else ByNum(false, false)
  }

  function NormSort(sort: string): string
  {
    if sort == "" then "date" else sort
  }

  /** The numeric column of a sort; dates are stood for by the id. */
  function Column(sort: string, id: Id, row: Row): Int64
  {
    if sort == "size" then row.size else if sort == "position" then row.pos else id
  }

  function KeyOf(sort: string, id: Id, row: Row): Key
  {
    if sort == "name" then Key(0, row.name, id) else Key(Column(sort, id, row), "", id)
  }

  /** The condition that a cursor adds to the query. */
  predicate SqlAfter(sort: string, names: Collation, cur: ListCursor, id: Id, row: Row)
  {
    if sort == "position" then row.pos > cur.valInt || (row.pos == cur.valInt && id < cur.id)
    else if sort == "name" then names(cur.valStr, row.name) || (row.name == cur.valStr && id > cur.id)
    else
      var col := Column(sort, id, row);
      col < cur.valInt || (col == cur.valInt && id < cur.id)
  }

  function NextCursor(sort: string, last: Key): ListCursor
    requires KnownSort(sort)
  {
    if sort == "name" then ListCursor(NormSort(sort), 0, last.text, last.id)
    else ListCursor(NormSort(sort), last.num, "", last.id)
  }

  function PageSize(limit: int): nat
  {
    if limit <= 0 then 24 else limit
  }

  /** One request. `keep` holds owner, liveness, expiry and filters; None is a filter that is refused. */
  ghost function List(names: Collation, table: Table, keep: Option<(Id, Row) -> bool>, sort: string, cursor: string,
                      limit: int): Result
  {
    var cur := DecodeListCursor(cursor);
    if !KnownSort(sort) then InvalidSort
    else if keep.None? then InvalidFilter
    else if cursor != "" && (cur.None? || cur.value.sort != NormSort(sort)) then BadCursor
    else
      var order := OrderSpec(sort, names);
      LessIsTotal(order);
      var matching := set id | id in table && keep.value(id, table[id])
                               && (cursor != "" ==> SqlAfter(sort, names, cur.value, id, table[id]))
                          :: KeyOf(sort, id, table[id]);
      var scans := Take(Sorted(Less(order), matching), PageSize(limit) + 1);
      if |scans| > PageSize(limit) then
        Rows(Ids(scans[..PageSize(limit)]), EncodeListCursor(NextCursor(sort, scans[PageSize(limit) - 1])))
      else Rows(Ids(scans), "")
  }

  // ----- a request is a page of the keyset -----

  function Keys(table: Table, keep: (Id, Row) -> bool, sort: string): set<Key>
  {
    set id | id in table && keep(id, table[id]) :: KeyOf(sort, id, table[id])
  }

  /** Keys that rows of this sort can have. */
  predicate Shaped(sort: string, k: Key)
  {
    if sort == "name" then k.num == 0
    else k.text == "" && (sort != "size" && sort != "position" ==> k.num == k.id)
  }

  /** The cursor text for a place in the list. */
  function TextOf(sort: string, after: Option<Key>): string
    requires KnownSort(sort)
  {
    if after.None? then "" else EncodeListCursor(NextCursor(sort, after.value))
  }

  /** The text of a place is never the empty string and decodes to the place. */
  lemma PlaceRoundTrip(sort: string, k: Key)
    requires KnownSort(sort)
    ensures TextOf(sort, Some(k)) != ""
    ensures DecodeListCursor(TextOf(sort, Some(k))) == Some(NextCursor(sort, k))
  {
    ListCursorRoundTrip(NextCursor(sort, k));
    assert DecodeListCursor("").None?;
  }

  /** The WHERE clause built from a place selects exactly the rows that ORDER BY puts after it. */
  lemma ClauseIsOrder(names: Collation, sort: string, k: Key, id: Id, row: Row)
    requires KnownSort(sort) && Shaped(sort, k)
    ensures SqlAfter(sort, names, NextCursor(sort, k), id, row)
            <==> LessBy(OrderSpec(sort, names), k, KeyOf(sort, id, row))
  {
    BeforeTotal("", "");
  }

  lemma ListIsPage(names: Collation, table: Table, keep: (Id, Row) -> bool, sort: string, after: Option<Key>,
                   limit: int)
    requires KnownSort(sort) && (after.Some? ==> Shaped(sort, after.value))
    requires StrictTotal(Less(OrderSpec(sort, names)))
    ensures var (page, next) := Page(Less(OrderSpec(sort, names)), Keys(table, keep, sort), after, PageSize(limit));
            && List(names, table, Some(keep), sort, TextOf(sort, after), limit) == Rows(Ids(page), TextOf(sort, next))
            && (next.Some? ==> Shaped(sort, next.value))
  {
    hide StrictTotal, EncodeListCursor, DecodeListCursor, LessBy, SqlAfter, Sorted;
    var less := Less(OrderSpec(sort, names));
    var text := TextOf(sort, after);
    if after.Some? {
      PlaceRoundTrip(sort, after.value);
    }
    var matching := set id | id in table && keep(id, table[id])
                             && (text != "" ==> SqlAfter(sort, names, DecodeListCursor(text).value, id, table[id]))
                        :: KeyOf(sort, id, table[id]);
    MatchingIsLater(names, table, keep, sort, after, matching);
    var (page, next) := Page(less, Keys(table, keep, sort), after, PageSize(limit));
    if next.Some? {
      PageIsExact(less, Keys(table, keep, sort), after, PageSize(limit));
      assert next.value in page && next.value in Keys(table, keep, sort);
    }
  }

  lemma MatchingIsLater(names: Collation, table: Table, keep: (Id, Row) -> bool, sort: string, after: Option<Key>,
                        matching: set<Key>)
    requires KnownSort(sort) && (after.Some? ==> Shaped(sort, after.value))
    requires matching == set id | id in table && keep(id, table[id])
                                  && (after.Some? ==>
                                        SqlAfter(sort, names, NextCursor(sort, after.value), id, table[id]))
                             :: KeyOf(sort, id, table[id])
    ensures matching == Later(Less(OrderSpec(sort, names)), Keys(table, keep, sort), after)
  {
    hide LessBy, SqlAfter;
    if after.Some? {
      forall id | id in table
        ensures SqlAfter(sort, names, NextCursor(sort, after.value), id, table[id])
                <==> LessBy(OrderSpec(sort, names), after.value, KeyOf(sort, id, table[id]))
      {
        ClauseIsOrder(names, sort, after.value, id, table[id]);
      }
    }
    assert forall id :: id in table ==> KeyOf(sort, id, table[id]).id == id;
  }

  /** A cursor of one sort is refused by a list in another. */
  lemma CursorsDoNotMix(names: Collation, table: Table, keep: (Id, Row) -> bool, sort: string, other: string, k: Key,
                        limit: int)
    requires KnownSort(sort) && KnownSort(other)
    ensures List(names, table, Some(keep), other, TextOf(sort, Some(k)), limit) == BadCursor
            <==> !(sort == other || ((sort == "" || sort == "date") && (other == "" || other == "date")))
  {
    PlaceRoundTrip(sort, k);
  }

  /** The list as a paged endpoint. */
  ghost function ListEndpoint(names: Collation, keep: (Id, Row) -> bool, sort: string, limit: int): Endpoint<Table>
    requires KnownSort(sort)
  {
    Endpoint((table, text) => List(names, table, Some(keep), sort, text, limit), table => Keys(table, keep, sort),
             OrderSpec(sort, names), PageSize(limit), after => TextOf(sort, after), k => Shaped(sort, k))
  }

  /** In every sort the list hands out a page of the keyset for every text it has handed out before. */
  lemma ListServes(names: Collation, keep: (Id, Row) -> bool, sort: string, limit: int)
    requires KnownSort(sort)
    ensures Serves(ListEndpoint(names, keep, sort, limit))
  {
    hide List, Keys, Page, TextOf, Shaped;
    var e := ListEndpoint(names, keep, sort, limit);
    LessIsTotal(e.order);
    NoText(sort);
    forall k | e.fits(k)
      ensures e.text(Some(k)) != ""
    {
      PlaceRoundTrip(sort, k);
    }
    forall table: Table, after: Option<Key>
      ensures Answers(e, table, after)
    {
      if after.Some? ==> Shaped(sort, after.value) {
        ListIsPage(names, table, keep, sort, after, limit);
      }
    }
  }

  lemma NoText(sort: string)
    requires KnownSort(sort)
    ensures TextOf(sort, None) == ""
  {
  }

  /** Images come back under one sort key only if every table in which they are listed gives them that key. */
  lemma UnchangedKey(names: Collation, keep: (Id, Row) -> bool, sort: string, limit: int, tables: seq<Table>, id: Id,
                     k: Key)
    requires KnownSort(sort)
    ensures OnlyKey(ListEndpoint(names, keep, sort, limit), tables, id, k)
            <==> forall i :: 0 <= i < |tables| && id in tables[i] && keep(id, tables[i][id]) ==>
                   KeyOf(sort, id, tables[i][id]) == k
  {
    hide OrderSpec;
    var e := ListEndpoint(names, keep, sort, limit);
    forall i | 0 <= i < |tables| && id in tables[i] && keep(id, tables[i][id])
      ensures KeyOf(sort, id, tables[i][id]) in e.keys(tables[i]) && KeyOf(sort, id, tables[i][id]).id == id
    {
    }
  }
}
