/** What the paged lists return, said of the rows' own columns: which rows, in which order, in pages of which size. */
module ListOrders {
  import opened Prelude
  import opened Decimal
  import opened Cursors
  import opened Keyset
  import opened Paging
  import opened ImageLists
  import opened OtherLists

  // ----- from keys back to rows -----

  /** `key` gives every id the key it is listed under. */
  ghost predicate KeysOf(keys: set<Key>, key: map<Id, Key>)
  {
    && (forall k :: k in keys ==> k.id in key && key[k.id] == k)
    && (forall id :: id in key ==> key[id].id == id && key[id] in keys)
  }

  lemma IdsInOrder(o: Order, s: seq<Key>, key: map<Id, Key>)
    requires Increasing(Less(o), s) && forall k :: k in s ==> k.id in key && key[k.id] == k
    ensures forall i :: 0 <= i < |Ids(s)| ==> Ids(s)[i] in key
    ensures forall i, j :: 0 <= i < j < |Ids(s)| ==> LessBy(o, key[Ids(s)[i]], key[Ids(s)[j]])
  {
    hide LessBy;
    forall i | 0 <= i < |Ids(s)|
      ensures Ids(s)[i] in key && key[Ids(s)[i]] == s[i]
    {
      assert s[i] in s;
    }
    forall i, j | 0 <= i < j < |Ids(s)|
      ensures LessBy(o, key[Ids(s)[i]], key[Ids(s)[j]])
    {
      assert Less(o)(s[i], s[j]);
    }
  }

  /** The answer to one query holds matching rows in order. */
  lemma AnswerInOrder(o: Order, matching: set<Key>, size: nat, text: Key -> string, key: map<Id, Key>)
    requires size > 0 && forall k :: k in matching ==> k.id in key && key[k.id] == k
    ensures Answer(o, matching, size, text).Rows?
    ensures var ids := Answer(o, matching, size, text).ids;
            && (forall i :: 0 <= i < |ids| ==> ids[i] in key)
            && (forall i, j :: 0 <= i < j < |ids| ==> LessBy(o, key[ids[i]], key[ids[j]]))
  {
    hide StrictTotal, LessBy;
    LessIsTotal(o);
    PageIsExact(Less(o), matching, None, size);
    IdsInOrder(o, PageOf(o, matching, None, size).0, key);
  }

  /** Every page is full but the last. */
  lemma PagesFull<T(!new)>(e: Endpoint<T>, tables: seq<T>, texts: seq<string>, pages: seq<seq<Id>>, i: nat)
    requires Serves(e) && Traversal(e, tables, texts, pages) && i < |tables|
    ensures |pages[i]| <= e.size && (texts[i + 1] != "" ==> |pages[i]| == e.size)
  {
    hide StrictTotal, Page;
    LessIsTotal(e.order);
    assert Traversal(e, tables[..i], texts[..i + 1], pages[..i]);
    TraversalIsWalk(e, tables[..i], texts[..i + 1], pages[..i]);
    var after := Cursor(Less(e.order), KeySets(e, tables[..i]), e.size);
    assert Answers(e, tables[i], after) && tables[..i] == tables[..i][..|tables[..i]|];
    PageIsExact(Less(e.order), e.keys(tables[i]), after, e.size);
    var (page, next) := PageOf(e.order, e.keys(tables[i]), after, e.size);
    assert texts[i] == e.text(after);
    assert e.fetch(tables[i], texts[i]) == Rows(pages[i], texts[i + 1]);
    assert pages[i] == Ids(page) && texts[i + 1] == e.text(next);
  }

  lemma IdsAreKeys(all: seq<Key>, keys: set<Key>, key: map<Id, Key>)
    requires KeysOf(keys, key) && Elements(all) == keys
    ensures forall id :: id in Ids(all) <==> id in key
  {
    assert forall k :: k in all <==> k in Elements(all);
    forall id
      ensures id in Ids(all) <==> id in key
    {
      if id in key {
        assert key[id] in all;
        var i :| 0 <= i < |all| && all[i] == key[id];
        assert Ids(all)[i] == id;
      }
    }
  }

  /** Over a table that stands still a finished traversal returns every row once, in order, in full pages. */
  lemma WholeInOrder<T(!new)>(e: Endpoint<T>, table: T, key: map<Id, Key>, texts: seq<string>, pages: seq<seq<Id>>)
    requires Serves(e) && KeysOf(e.keys(table), key) && pages != []
    requires Traversal(e, seq(|pages|, i => table), texts, pages) && texts[|pages|] == ""
    ensures forall id :: id in Flat(pages) <==> id in key
    ensures forall i, j :: 0 <= i < j < |Flat(pages)| ==> LessBy(e.order, key[Flat(pages)[i]], key[Flat(pages)[j]])
    ensures forall i :: 0 <= i < |pages| ==>
              |pages[i]| <= e.size && (i + 1 < |pages| ==> |pages[i]| == e.size)
  {
    hide StrictTotal, LessBy, Serves;
    LessIsTotal(e.order);
    var tables := seq(|pages|, i => table);
    StillTraversal(e, table, |pages|, texts, pages);
    var all := Listing(e, table);
    assert Flat(pages) == Ids(all);
    assert forall k :: k in all <==> k in Elements(all);
    IdsInOrder(e.order, all, key);
    IdsAreKeys(all, e.keys(table), key);
    forall i | 0 <= i < |pages|
      ensures |pages[i]| <= e.size && (i + 1 < |pages| ==> |pages[i]| == e.size)
    {
      PagesFull(e, tables, texts, pages, i);
    }
  }

  // ----- the list of a user's images -----

  function ImageKeys(table: Table, keep: (Id, Row) -> bool, sort: string): map<Id, Key>
  {
    map id | id in table && keep(id, table[id]) :: KeyOf(sort, id, table[id])
  }

  lemma PrefixOfSorted(less: (Key, Key) -> bool, sorted: seq<Key>, page: seq<Key>, matching: set<Key>)
    requires Increasing(less, sorted) && Elements(sorted) == matching && page <= sorted
    ensures Increasing(less, page) && forall k :: k in page ==> k in matching
  {
    assert forall k :: k in page ==> k in Elements(sorted);
  }

  /** The keys behind an answer. */
  lemma ListedKeys(names: Collation, table: Table, keep: (Id, Row) -> bool, sort: string, cursor: string, limit: int)
    returns (page: seq<Key>)
    requires List(names, table, Some(keep), sort, cursor, limit).Rows?
    ensures KnownSort(sort) && Increasing(Less(OrderSpec(sort, names)), page)
    ensures List(names, table, Some(keep), sort, cursor, limit).ids == Ids(page)
    ensures forall k :: k in page ==>
              k.id in ImageKeys(table, keep, sort) && ImageKeys(table, keep, sort)[k.id] == k
  {
    hide StrictTotal, SqlAfter, LessBy, EncodeListCursor, DecodeListCursor, Increasing;
    var order := OrderSpec(sort, names);
    LessIsTotal(order);
    var cur := DecodeListCursor(cursor);
    var matching := set id | id in table && keep(id, table[id])
                             && (cursor != "" ==> SqlAfter(sort, names, cur.value, id, table[id]))
                        :: KeyOf(sort, id, table[id]);
    var sorted := Sorted(Less(order), matching);
    var scans := Take(sorted, PageSize(limit) + 1);
    page := if |scans| > PageSize(limit) then scans[..PageSize(limit)] else scans;
    PrefixOfSorted(Less(order), sorted, page, matching);
  }

  /** Every answer lists kept images by the column its sort names, ids breaking ties as the sort has it. */
  lemma ListOrder(names: Collation, table: Table, keep: (Id, Row) -> bool, sort: string, cursor: string, limit: int)
    requires List(names, table, Some(keep), sort, cursor, limit).Rows?
    ensures var ids := List(names, table, Some(keep), sort, cursor, limit).ids;
            && (forall i :: 0 <= i < |ids| ==> ids[i] in table && keep(ids[i], table[ids[i]]))
            && forall i, j :: 0 <= i < j < |ids| ==>
                 var a, b := table[ids[i]], table[ids[j]];
                 && (sort == "size" ==> a.size > b.size || (a.size == b.size && ids[i] > ids[j]))
                 && (sort == "position" ==> a.pos < b.pos || (a.pos == b.pos && ids[i] > ids[j]))
                 && (sort == "name" ==> names(a.name, b.name) || (a.name == b.name && ids[i] < ids[j]))
                 && (sort == "" || sort == "date" ==> ids[i] > ids[j])
  {
    hide StrictTotal, List, LessBy, KeyOf, OrderSpec, Increasing, Ids;
    var page := ListedKeys(names, table, keep, sort, cursor, limit);
    IdsInOrder(OrderSpec(sort, names), page, ImageKeys(table, keep, sort));
    InSortByKeys(names, table, keep, sort, Ids(page));
  }

  /** Ids ordered by their keys are ordered by the columns. */
  lemma InSortByKeys(names: Collation, table: Table, keep: (Id, Row) -> bool, sort: string, ids: seq<Id>)
    requires KnownSort(sort) && forall i :: 0 <= i < |ids| ==> ids[i] in ImageKeys(table, keep, sort)
    requires var key := ImageKeys(table, keep, sort);
             forall i, j :: 0 <= i < j < |ids| ==> LessBy(OrderSpec(sort, names), key[ids[i]], key[ids[j]])
    ensures forall i, j :: 0 <= i < j < |ids| ==> InSort(names, table, sort, ids[i], ids[j])
  {
    hide LessBy, KeyOf, OrderSpec, InSort;
    forall i, j | 0 <= i < j < |ids|
      ensures InSort(names, table, sort, ids[i], ids[j])
    {
      LessInSort(names, table, sort, ids[i], ids[j]);
    }
  }

  /** Image a comes before image b, by the columns. */
  predicate InSort(names: Collation, table: Table, sort: string, a: Id, b: Id)
    requires a in table && b in table
  {
    && (sort == "size" ==> table[a].size > table[b].size || (table[a].size == table[b].size && a > b))
    && (sort == "position" ==> table[a].pos < table[b].pos || (table[a].pos == table[b].pos && a > b))
    && (sort == "name" ==> names(table[a].name, table[b].name) || (table[a].name == table[b].name && a < b))
    && (sort == "" || sort == "date" ==> a > b)
  }

  lemma LessInSort(names: Collation, table: Table, sort: string, a: Id, b: Id)
    requires KnownSort(sort) && a in table && b in table
    requires LessBy(OrderSpec(sort, names), KeyOf(sort, a, table[a]), KeyOf(sort, b, table[b]))
    ensures InSort(names, table, sort, a, b)
  {
    BeforeTotal("", "");
  }

  /**
    A list refuses a sort it does not know, then a filter, then a cursor that does not decode or was made in another
    sort, date being the default; everything else it answers.
   */
  lemma ListRefusals(names: Collation, table: Table, keep: Option<(Id, Row) -> bool>, sort: string, cursor: string,
                     limit: int)
    ensures var known := sort == "" || sort == "date" || sort == "size" || sort == "name" || sort == "position";
            var cur := DecodeListCursor(cursor);
            var fits := cursor == "" || (cur.Some? && cur.value.sort == if sort == "" then "date" else sort);
            var answer := List(names, table, keep, sort, cursor, limit);
            && (answer == InvalidSort <==> !known)
            && (answer == InvalidFilter <==> known && keep.None?)
            && (answer == BadCursor <==> known && keep.Some? && !fits)
            && (answer.Rows? <==> known && keep.Some? && fits)
  {
    hide Sorted, StrictTotal, SqlAfter, EncodeListCursor, DecodeListCursor, LessBy;
  }

  /** The default sort is the one by date. */
  lemma DateIsDefault(names: Collation, table: Table, keep: Option<(Id, Row) -> bool>, cursor: string, limit: int)
    ensures List(names, table, keep, "", cursor, limit) == List(names, table, keep, "date", cursor, limit)
  {
    hide Sorted, StrictTotal, EncodeListCursor, DecodeListCursor, LessBy, Take, Ids;
    var cur := DecodeListCursor(cursor);
    if keep.Some? && (cursor == "" || (cur.Some? && cur.value.sort == "date")) {
      LessIsTotal(OrderSpec("date", names));
      var one := set id | id in table && keep.value(id, table[id])
                          && (cursor != "" ==> SqlAfter("", names, cur.value, id, table[id]))
                     :: KeyOf("", id, table[id]);
      var two := set id | id in table && keep.value(id, table[id])
                          && (cursor != "" ==> SqlAfter("date", names, cur.value, id, table[id]))
                     :: KeyOf("date", id, table[id]);
      assert one == two;
    }
  }

  /** A client that starts without a cursor and follows the texts until there is none. */
  ghost predicate FollowsList(names: Collation, table: Table, keep: (Id, Row) -> bool, sort: string, limit: int,
                              texts: seq<string>, pages: seq<seq<Id>>)
  {
    && pages != [] && |texts| == |pages| + 1 && texts[0] == "" && texts[|pages|] == ""
    && (forall i :: 0 < i < |pages| ==> texts[i] != "")
    && (forall i :: 0 <= i < |pages| ==>
          List(names, table, Some(keep), sort, texts[i], limit) == Rows(pages[i], texts[i + 1]))
  }

  /** Over a table that stands still the pages are all kept images, once each, sorted by column, cut by the limit. */
  lemma WholeList(names: Collation, table: Table, keep: (Id, Row) -> bool, sort: string, limit: int,
                  texts: seq<string>, pages: seq<seq<Id>>)
    requires FollowsList(names, table, keep, sort, limit, texts, pages)
    ensures var ids := Flat(pages);
            && (forall id :: id in ids <==> id in table && keep(id, table[id]))
            && forall i, j :: 0 <= i < j < |ids| ==>
                 var a, b := table[ids[i]], table[ids[j]];
                 && (sort == "size" ==> a.size > b.size || (a.size == b.size && ids[i] > ids[j]))
                 && (sort == "position" ==> a.pos < b.pos || (a.pos == b.pos && ids[i] > ids[j]))
                 && (sort == "name" ==> names(a.name, b.name) || (a.name == b.name && ids[i] < ids[j]))
                 && (sort == "" || sort == "date" ==> ids[i] > ids[j])
    ensures forall i :: 0 <= i < |pages| ==>
              var size := if limit <= 0 then 24 else limit;
              |pages[i]| <= size && (i + 1 < |pages| ==> |pages[i]| == size)
  {
    hide List, Serves, LessBy, KeyOf, OrderSpec, Keys;
    var e := KnownEndpoint(names, table, keep, sort, limit, texts, pages);
    ListServes(names, keep, sort, limit);
    var key := ImageKeys(table, keep, sort);
    ImageKeysOf(table, keep, sort);
    var tables := seq(|pages|, i => table);
    assert forall i :: 0 <= i < |pages| ==> e.fetch(tables[i], texts[i]) == Rows(pages[i], texts[i + 1]);
    WholeInOrder(e, table, key, texts, pages);
    InSortByKeys(names, table, keep, sort, Flat(pages));
  }

  lemma KnownEndpoint(names: Collation, table: Table, keep: (Id, Row) -> bool, sort: string, limit: int,
                      texts: seq<string>, pages: seq<seq<Id>>) returns (e: Endpoint<Table>)
    requires FollowsList(names, table, keep, sort, limit, texts, pages)
    ensures KnownSort(sort) && e == ListEndpoint(names, keep, sort, limit)
  {
    assert List(names, table, Some(keep), sort, texts[0], limit) == Rows(pages[0], texts[1]);
    e := ListEndpoint(names, keep, sort, limit);
  }

  lemma ImageKeysOf(table: Table, keep: (Id, Row) -> bool, sort: string)
    ensures KeysOf(Keys(table, keep, sort), ImageKeys(table, keep, sort))
  {
    var key := ImageKeys(table, keep, sort);
    forall id | id in key
      ensures key[id] in Keys(table, keep, sort) && key[id].id == id
    {
    }
  }

  // ----- the trash -----

  function TrashKeys(trash: set<Id>): map<Id, Key>
  {
    map id | id in trash :: IdKey(id)
  }

  /** Every answer of the trash list holds trashed images, latest ids first. */
  lemma TrashOrder(trash: set<Id>, cursor: string, limit: int)
    requires TrashList(trash, cursor, limit).Rows?
    ensures var ids := TrashList(trash, cursor, limit).ids;
            && (forall i :: 0 <= i < |ids| ==> ids[i] in trash)
            && (forall i, j :: 0 <= i < j < |ids| ==> ids[i] > ids[j])
  {
    hide Answer, DecodeListCursor, TrashText;
    var cur := DecodeListCursor(cursor);
    var matching := set id | id in trash && (cursor != "" ==> id < cur.value.id) :: IdKey(id);
    AnswerInOrder(DESCENDING, matching, TrashPageSize(limit), TrashText, TrashKeys(trash));
  }

  /** The trash takes the cursors it made, by their own sort name, and refuses those of the image list. */
  lemma TrashRefusals(trash: set<Id>, cursor: string, limit: int)
    ensures TrashList(trash, cursor, limit) == BadCursor <==>
            && cursor != ""
            && (DecodeListCursor(cursor).None? || DecodeListCursor(cursor).value.sort != "trash")
    ensures forall sort, k :: KnownSort(sort) ==> TrashList(trash, TextOf(sort, Some(k)), limit) == BadCursor
  {
    hide PageOf, DecodeListCursor, EncodeListCursor, TrashText;
    forall sort, k | KnownSort(sort)
      ensures TrashList(trash, TextOf(sort, Some(k)), limit) == BadCursor
    {
      PlaceRoundTrip(sort, k);
    }
  }

  lemma WholeTrash(trash: set<Id>, limit: int, texts: seq<string>, pages: seq<seq<Id>>)
    requires pages != [] && |texts| == |pages| + 1 && texts[0] == "" && texts[|pages|] == ""
    requires forall i :: 0 < i < |pages| ==> texts[i] != ""
    requires forall i :: 0 <= i < |pages| ==> TrashList(trash, texts[i], limit) == Rows(pages[i], texts[i + 1])
    ensures forall id :: id in Flat(pages) <==> id in trash
    ensures forall i, j :: 0 <= i < j < |Flat(pages)| ==> Flat(pages)[i] > Flat(pages)[j]
    ensures forall i :: 0 <= i < |pages| ==>
              var size := if limit <= 0 then 24 else limit;
              |pages[i]| <= size && (i + 1 < |pages| ==> |pages[i]| == size)
  {
    hide TrashList, Serves;
    TrashServes(limit);
    WholeInOrder(TrashEndpoint(limit), trash, TrashKeys(trash), texts, pages);
  }

  // ----- the feed by views -----

  function ViewKeys(views: Views): map<Id, Key>
  {
    map id | id in views :: Key(views[id], "", id)
  }

  /** Every answer of the feed holds listed images, most viewed first, then latest. */
  lemma HotOrder(views: Views, cursor: string, limit: int)
    requires HotFeed(views, cursor, limit).Rows?
    ensures var ids := HotFeed(views, cursor, limit).ids;
            && (forall i :: 0 <= i < |ids| ==> ids[i] in views)
            && forall i, j :: 0 <= i < j < |ids| ==>
                 views[ids[i]] > views[ids[j]] || (views[ids[i]] == views[ids[j]] && ids[i] > ids[j])
  {
    hide Answer, DecodeFeedCursor, HotText;
    var cur := DecodeFeedCursor(cursor);
    var matching := set id | id in views
                             && (cursor != "" ==> views[id] < cur.value.val
                                                  || (views[id] == cur.value.val && id < cur.value.id))
                        :: Key(views[id], "", id);
    AnswerInOrder(DESCENDING, matching, FeedPageSize(limit), HotText, ViewKeys(views));
  }

  lemma HotRefusals(views: Views, cursor: string, limit: int)
    ensures HotFeed(views, cursor, limit) == BadCursor <==>
            && cursor != ""
            && (DecodeFeedCursor(cursor).None? || DecodeFeedCursor(cursor).value.sort != "hot")
  {
    hide PageOf, DecodeFeedCursor, HotText;
  }

  lemma WholeFeed(views: Views, limit: int, texts: seq<string>, pages: seq<seq<Id>>)
    requires pages != [] && |texts| == |pages| + 1 && texts[0] == "" && texts[|pages|] == ""
    requires forall i :: 0 < i < |pages| ==> texts[i] != ""
    requires forall i :: 0 <= i < |pages| ==> HotFeed(views, texts[i], limit) == Rows(pages[i], texts[i + 1])
    ensures var ids := Flat(pages);
            && (forall id :: id in ids <==> id in views)
            && forall i, j :: 0 <= i < j < |ids| ==>
                 views[ids[i]] > views[ids[j]] || (views[ids[i]] == views[ids[j]] && ids[i] > ids[j])
    ensures forall i :: 0 <= i < |pages| ==>
              var size := if limit <= 0 then 24 else if limit > 60 then 60 else limit;
              |pages[i]| <= size && (i + 1 < |pages| ==> |pages[i]| == size)
  {
    hide HotFeed, Serves;
    HotServes(limit);
    WholeInOrder(HotEndpoint(limit), views, ViewKeys(views), texts, pages);
  }

  // ----- the stream of public albums -----

  /** Every answer of the stream holds listed albums, latest ids first. */
  lemma AlbumOrder(albums: set<Id>, cursor: string, limit: int)
    ensures AlbumStream(albums, cursor, limit).Rows?
    ensures var ids := AlbumStream(albums, cursor, limit).ids;
            && (forall i :: 0 <= i < |ids| ==> ids[i] in albums)
            && (forall i, j :: 0 <= i < j < |ids| ==> ids[i] > ids[j])
  {
    hide Answer, AlbumText;
    AnswerInOrder(DESCENDING, AlbumsMatching(albums, cursor), FeedPageSize(limit), AlbumText, TrashKeys(albums));
  }

  predicate Blank(s: string)
  {
    forall c :: c in s ==> IsSpace(c)
  }

  lemma {:induction false} TrimmedInside(before: string, s: string, after: string)
    requires Blank(before) && Blank(after) && s != "" && !IsSpace(s[0]) && !IsSpace(s[|s| - 1])
    ensures Trimmed(before + s + after) == s
    decreases |before| + |after|
  {
    hide IsSpace;
    var t := before + s + after;
    if before != "" {
      assert t[0] == before[0] && before[0] in before;
      assert t[1..] == before[1..] + s + after;
      TrimmedInside(before[1..], s, after);
    } else if after != "" {
      assert t[0] == s[0] && t[|t| - 1] == after[|after| - 1] && after[|after| - 1] in after;
      assert t[..|t| - 1] == before + s + after[..|after| - 1];
      TrimmedInside(before, s, after[..|after| - 1]);
    } else {
      assert t == s;
    }
  }

  /** Blanks around a numeral make no difference, and zero or anything but a numeral is no cursor. */
  lemma StreamCursors(albums: set<Id>, before: string, n: nat, after: string, other: string, limit: int)
    requires Blank(before) && Blank(after)
    requires exists c :: c in other && !IsDigit(c) && !IsSpace(c)
    ensures AlbumStream(albums, before + FormatUint(n) + after, limit) == AlbumStream(albums, FormatUint(n), limit)
    ensures AlbumStream(albums, "0", limit) == AlbumStream(albums, "", limit)
    ensures AlbumStream(albums, other, limit) == AlbumStream(albums, "", limit)
  {
    hide Answer, FormatUint, Trimmed;
    FormatUintIsNumeral(n);
    var s := FormatUint(n);
    assert s[0] in s && s[|s| - 1] in s;
    TrimmedInside(before, s, after);
    TrimmedInside("", s, "");
    assert "" + s + "" == s;
    TrimmedInside("", "0", "");
    assert "" + "0" + "" == "0" && Value("0") == 0;
    NoPlace();
    var c :| c in other && !IsDigit(c) && !IsSpace(c);
    TrimmedKeeps(other, c);
    assert AlbumsMatching(albums, "0") == AlbumsMatching(albums, "");
    assert AlbumsMatching(albums, other) == AlbumsMatching(albums, "");
  }

  lemma {:induction false} TrimmedKeeps(s: string, c: char)
    requires c in s && !IsSpace(c)
    ensures c in Trimmed(s)
    decreases |s|
  {
    hide IsSpace;
    if IsSpace(s[0]) {
      TrimmedKeeps(s[1..], c);
    } else if IsSpace(s[|s| - 1]) {
      TrimmedKeeps(s[..|s| - 1], c);
    }
  }

  lemma WholeStream(albums: set<Id>, limit: int, texts: seq<string>, pages: seq<seq<Id>>)
    requires pages != [] && |texts| == |pages| + 1 && texts[0] == "" && texts[|pages|] == ""
    requires forall i :: 0 < i < |pages| ==> texts[i] != ""
    requires forall i :: 0 <= i < |pages| ==> AlbumStream(albums, texts[i], limit) == Rows(pages[i], texts[i + 1])
    ensures forall id :: id in Flat(pages) <==> id in albums
    ensures forall i, j :: 0 <= i < j < |Flat(pages)| ==> Flat(pages)[i] > Flat(pages)[j]
    ensures forall i :: 0 <= i < |pages| ==>
              var size := if limit <= 0 then 24 else if limit > 60 then 60 else limit;
              |pages[i]| <= size && (i + 1 < |pages| ==> |pages[i]| == size)
  {
    hide AlbumStream, Serves;
    AlbumsServe(limit);
    WholeInOrder(AlbumEndpoint(limit), albums, TrashKeys(albums), texts, pages);
  }

  // ----- the images of a public album -----

  /** Every answer holds images of the album, by position, then latest first. */
  lemma GridOrder(positions: Positions, cursor: string, limit: int)
    ensures AlbumImages(positions, cursor, limit).Rows?
    ensures var ids := AlbumImages(positions, cursor, limit).ids;
            && (forall i :: 0 <= i < |ids| ==> ids[i] in positions)
            && forall i, j :: 0 <= i < j < |ids| ==>
                 positions[ids[i]] < positions[ids[j]]
                 || (positions[ids[i]] == positions[ids[j]] && ids[i] > ids[j])
  {
    hide Answer, PlaceText, ParsePlace;
    AnswerInOrder(BY_POSITION, ImagesMatching(positions, cursor), GridPageSize(limit), PlaceText, ViewKeys(positions));
  }

  lemma WholeGrid(positions: Positions, limit: int, texts: seq<string>, pages: seq<seq<Id>>)
    requires pages != [] && |texts| == |pages| + 1 && texts[0] == "" && texts[|pages|] == ""
    requires forall i :: 0 < i < |pages| ==> texts[i] != ""
    requires forall i :: 0 <= i < |pages| ==> AlbumImages(positions, texts[i], limit) == Rows(pages[i], texts[i + 1])
    ensures var ids := Flat(pages);
            && (forall id :: id in ids <==> id in positions)
            && forall i, j :: 0 <= i < j < |ids| ==>
                 positions[ids[i]] < positions[ids[j]]
                 || (positions[ids[i]] == positions[ids[j]] && ids[i] > ids[j])
    ensures forall i :: 0 <= i < |pages| ==>
              var size := if limit <= 0 then 24 else if limit > 100 then 100 else limit;
              |pages[i]| <= size && (i + 1 < |pages| ==> |pages[i]| == size)
  {
    hide AlbumImages, Serves;
    GridServes(limit);
    WholeInOrder(GridEndpoint(limit), positions, ViewKeys(positions), texts, pages);
  }
}
