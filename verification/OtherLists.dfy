/** The other paged lists: the trash, the public feed by views, the public album stream and a public album's images. */
module OtherLists {
  import opened Prelude
  import opened Decimal
  import opened Cursors
  import opened Keyset
  import opened Paging

  const DESCENDING := ByNum(false, false)

  /** The rows of a query cut after the page, and the last one when there is a further page. */
  ghost function Answer(o: Order, matching: set<Key>, size: nat, text: Key -> string): Result
    requires size > 0
  {
    var (page, next) := PageOf(o, matching, None, size);
    Rows(Ids(page), if next.Some? then text(next.value) else "")
  }

  /** A query whose condition selects what lies after a place answers with the page after that place. */
  lemma AnswerIsPage(o: Order, keys: set<Key>, after: Option<Key>, size: nat, text: Key -> string, matching: set<Key>)
    requires size > 0 && matching == Later(Less(o), keys, after)
    ensures var (page, next) := PageOf(o, keys, after, size);
            && Answer(o, matching, size, text) == Rows(Ids(page), if next.Some? then text(next.value) else "")
            && (next.Some? ==> next.value in keys)
  {
    hide StrictTotal, Less;
    LessIsTotal(o);
    assert Later(Less(o), matching, None) == matching;
    PageIsExact(Less(o), keys, after, size);
    var (page, next) := PageOf(o, keys, after, size);
    assert next.Some? ==> next.value in page;
  }

  // ----- the trash -----

  /** Lists in order of ids alone. */
  function IdKey(id: Id): Key
  {
    Key(0, "", id)
  }

  function IdKeys(trash: set<Id>): set<Key>
  {
    set id | id in trash :: IdKey(id)
  }

  function TrashText(k: Key): string
  {
    EncodeListCursor(ListCursor("trash", 0, "", k.id))
  }

  function TrashPageSize(limit: int): nat
  {
    if limit <= 0 then 24 else limit
  }

  ghost function TrashList(trash: set<Id>, cursor: string, limit: int): Result
  {
    var cur := DecodeListCursor(cursor);
    if cursor != "" && (cur.None? || cur.value.sort != "trash") then BadCursor
    else
      var matching := set id | id in trash && (cursor != "" ==> id < cur.value.id) :: IdKey(id);
      Answer(DESCENDING, matching, TrashPageSize(limit), TrashText)
  }

  ghost function TrashEndpoint(limit: int): Endpoint<set<Id>>
  {
    Endpoint((trash, text) => TrashList(trash, text, limit), IdKeys, DESCENDING, TrashPageSize(limit),
             (after: Option<Key>) => if after.Some? then TrashText(after.value) else "", (k: Key) => k == IdKey(k.id))
  }

  lemma TrashAnswers(limit: int, trash: set<Id>, after: Option<Key>)
    ensures Answers(TrashEndpoint(limit), trash, after)
  {
    hide StrictTotal, EncodeListCursor, DecodeListCursor, Answer, PageOf, Less;
    var e := TrashEndpoint(limit);
    if after.Some? ==> e.fits(after.value) {
      if after.Some? {
        TrashTextRoundTrip(after.value);
      }
      var text := e.text(after);
      var matching := set id | id in trash && (text != "" ==> id < DecodeListCursor(text).value.id) :: IdKey(id);
      assert matching == Later(Less(DESCENDING), IdKeys(trash), after) by { LessDescending(); }
      AnswerIsPage(DESCENDING, IdKeys(trash), after, e.size, TrashText, matching);
    }
  }

  /** The order of most lists, spelled out. */
  lemma LessDescending()
    ensures forall a: Key, b: Key :: a.text == b.text == "" ==>
              (Less(DESCENDING)(a, b) <==> a.num > b.num || (a.num == b.num && a.id > b.id))
  {
  }

  lemma TrashServes(limit: int)
    ensures Serves(TrashEndpoint(limit))
  {
    hide TrashList, TrashText, Answers;
    forall k: Key
      ensures TrashText(k) != ""
    {
      TrashTextRoundTrip(k);
    }
    forall trash: set<Id>, after: Option<Key>
      ensures Answers(TrashEndpoint(limit), trash, after)
    {
      TrashAnswers(limit, trash, after);
    }
  }

  lemma TrashTextRoundTrip(k: Key)
    ensures TrashText(k) != "" && DecodeListCursor(TrashText(k)) == Some(ListCursor("trash", 0, "", k.id))
  {
    ListCursorRoundTrip(ListCursor("trash", 0, "", k.id));
    assert DecodeListCursor("").None?;
  }

  // ----- the public feed, most viewed first -----

  type Views = map<Id, Int64>

  function FeedPageSize(limit: int): nat
  {
    if limit <= 0 then 24 else if limit > 60 then 60 else limit
  }

  function FeedKeys(views: Views): set<Key>
  {
    set id | id in views :: Key(views[id], "", id)
  }

  function HotText(k: Key): string
  {
    EncodeFeedCursor(FeedCursor("hot", k.num, k.id))
  }

  ghost function HotFeed(views: Views, cursor: string, limit: int): Result
  {
    var cur := DecodeFeedCursor(cursor);
    if cursor != "" && (cur.None? || cur.value.sort != "hot") then BadCursor
    else
      var matching := set id | id in views
                               && (cursor != "" ==> views[id] < cur.value.val
                                                    || (views[id] == cur.value.val && id < cur.value.id))
                          :: Key(views[id], "", id);
      Answer(DESCENDING, matching, FeedPageSize(limit), HotText)
  }

  ghost function HotEndpoint(limit: int): Endpoint<Views>
  {
    Endpoint((views, text) => HotFeed(views, text, limit), FeedKeys, DESCENDING, FeedPageSize(limit),
             (after: Option<Key>) => if after.Some? then HotText(after.value) else "", (k: Key) => k.text == "")
  }

  lemma HotAnswers(limit: int, views: Views, after: Option<Key>)
    ensures Answers(HotEndpoint(limit), views, after)
  {
    hide StrictTotal, EncodeFeedCursor, DecodeFeedCursor, Answer, PageOf, Less;
    var e := HotEndpoint(limit);
    if after.Some? ==> e.fits(after.value) {
      if after.Some? {
        HotTextRoundTrip(after.value);
      }
      var text := e.text(after);
      var cur := DecodeFeedCursor(text);
      var matching := set id | id in views
                               && (text != "" ==> views[id] < cur.value.val
                                                  || (views[id] == cur.value.val && id < cur.value.id))
                          :: Key(views[id], "", id);
      assert matching == Later(Less(DESCENDING), FeedKeys(views), after) by { LessDescending(); }
      AnswerIsPage(DESCENDING, FeedKeys(views), after, e.size, HotText, matching);
    }
  }

  lemma HotServes(limit: int)
    ensures Serves(HotEndpoint(limit))
  {
    hide HotFeed, HotText, Answers;
    forall k: Key
      ensures HotText(k) != ""
    {
      HotTextRoundTrip(k);
    }
    forall views: Views, after: Option<Key>
      ensures Answers(HotEndpoint(limit), views, after)
    {
      HotAnswers(limit, views, after);
    }
  }

  lemma HotTextRoundTrip(k: Key)
    ensures HotText(k) != "" && DecodeFeedCursor(HotText(k)) == Some(FeedCursor("hot", k.num, k.id))
  {
    FeedCursorRoundTrip(FeedCursor("hot", k.num, k.id));
    assert DecodeFeedCursor("").None?;
  }

  // ----- the stream of public albums -----

  function AlbumText(k: Key): string
  {
    FormatUint(k.id)
  }

  predicate IsSpace(c: char)
  {
    || '\U{09}' <= c <= '\U{0D}' || c == ' ' || c == '\U{85}' || c == '\U{A0}' || c == '\U{1680}'
    || '\U{2000}' <= c <= '\U{200A}' || c == '\U{2028}' || c == '\U{2029}' || c == '\U{202F}' || c == '\U{205F}'
    || c == '\U{3000}'
  }

  /** Without the blanks at both ends. */
  function Trimmed(s: string): string
  {
    if s == "" then ""
    else if IsSpace(s[0]) then Trimmed(s[1..])
    else if IsSpace(s[|s| - 1]) then Trimmed(s[..|s| - 1])
    else s
  }

  /** A text that is not a positive numeral between blanks is taken for no cursor at all. */
  function AlbumsMatching(albums: set<Id>, cursor: string): set<Key>
  {
    var n := ParseUint(Trimmed(cursor));
    set id | id in albums && (n.Some? && n.value > 0 ==> id < n.value) :: IdKey(id)
  }

  ghost function AlbumStream(albums: set<Id>, cursor: string, limit: int): Result
  {
    Answer(DESCENDING, AlbumsMatching(albums, cursor), FeedPageSize(limit), AlbumText)
  }

  ghost function AlbumEndpoint(limit: int): Endpoint<set<Id>>
  {
    Endpoint((albums, text) => AlbumStream(albums, text, limit), IdKeys, DESCENDING,
             FeedPageSize(limit), (after: Option<Key>) => if after.Some? then AlbumText(after.value) else "",
             (k: Key) => k == IdKey(k.id))
  }

  lemma AlbumTextRoundTrip(k: Key)
    ensures AlbumText(k) != "" && ParseUint(Trimmed(AlbumText(k))) == Some(k.id)
  {
    FormatUintIsNumeral(k.id);
    var s := AlbumText(k);
    assert s[0] in s && s[|s| - 1] in s;
  }

  lemma AlbumsAnswer(limit: int, albums: set<Id>, after: Option<Key>)
    ensures Answers(AlbumEndpoint(limit), albums, after)
  {
    hide StrictTotal, FormatUint, Answer, PageOf, Less, Trimmed;
    var e := AlbumEndpoint(limit);
    if after.Some? ==> e.fits(after.value) {
      if after.Some? {
        AlbumTextRoundTrip(after.value);
      }
      NoPlace();
      var matching := AlbumsMatching(albums, e.text(after));
      assert matching == Later(Less(DESCENDING), IdKeys(albums), after) by { LessDescending(); }
      AnswerIsPage(DESCENDING, IdKeys(albums), after, e.size, AlbumText, matching);
    }
  }

  lemma AlbumsServe(limit: int)
    ensures Serves(AlbumEndpoint(limit))
  {
    hide AlbumStream, AlbumText, Answers;
    forall k: Key
      ensures AlbumText(k) != ""
    {
      AlbumTextRoundTrip(k);
    }
    forall albums: set<Id>, after: Option<Key>
      ensures Answers(AlbumEndpoint(limit), albums, after)
    {
      AlbumsAnswer(limit, albums, after);
    }
  }

  // ----- the images of a public album -----

  /** Album positions by image id. */
  type Positions = map<Id, Int64>

  const BY_POSITION := ByNum(true, false)

  function GridPageSize(limit: int): nat
  {
    if limit <= 0 then 24 else if limit > 100 then 100 else limit
  }

  function PlaceText(k: Key): string
  {
    FormatInt(k.num) + ":" + FormatUint(k.id)
  }

  /** The position and id of a "pos:id" text. */
  function ParsePlace(s: string): Option<(Int64, UInt64)>
  {
    var parts := Cut(s, ':');
    if parts.None? then None
    else
      var pos, id := ParseInt(parts.value.0), ParseUint(parts.value.1);
      if pos.None? || id.None? || id.value == 0 then None else Some((pos.value, id.value))
  }

  /** "pos:id" continues after that place; a lone id, an old cursor, only bounds the ids; anything else is none. */
  function ImagesMatching(positions: Positions, cursor: string): set<Key>
  {
    var place, lone := ParsePlace(cursor), ParseUint(cursor);
    set id | id in positions
             && (place.Some? ==> positions[id] > place.value.0
                                 || (positions[id] == place.value.0 && id < place.value.1))
             && (place.None? && lone.Some? && lone.value > 0 ==> id < lone.value)
        :: Key(positions[id], "", id)
  }

  ghost function AlbumImages(positions: Positions, cursor: string, limit: int): Result
  {
    Answer(BY_POSITION, ImagesMatching(positions, cursor), GridPageSize(limit), PlaceText)
  }

  function GridKeys(positions: Positions): set<Key>
  {
    set id | id in positions :: Key(positions[id], "", id)
  }

  ghost function GridEndpoint(limit: int): Endpoint<Positions>
  {
    Endpoint((positions, text) => AlbumImages(positions, text, limit), GridKeys,
             BY_POSITION, GridPageSize(limit),
             (after: Option<Key>) => if after.Some? then PlaceText(after.value) else "",
             (k: Key) => k.text == "")
  }

  lemma PlaceTextRoundTrip(k: Key)
    ensures PlaceText(k) != "" && ParsePlace(PlaceText(k)) == Some((k.num, k.id))
  {
    var magnitude: int := k.num;
    FormatUintIsNumeral(if magnitude < 0 then -magnitude else magnitude);
    assert forall c :: c in FormatInt(k.num) ==> IsDigit(c) || c == '-';
    CutJoined(FormatInt(k.num), FormatUint(k.id), ':');
    IntRoundTrip(k.num);
    UintRoundTrip(k.id);
  }

  lemma GridAnswers(limit: int, positions: Positions, after: Option<Key>)
    ensures Answers(GridEndpoint(limit), positions, after)
  {
    hide StrictTotal, PlaceText, Answer, ParsePlace, PageOf, Less, ParseUint;
    var e := GridEndpoint(limit);
    if after.Some? ==> e.fits(after.value) {
      if after.Some? {
        PlaceTextRoundTrip(after.value);
      }
      NoPlace();
      var matching := ImagesMatching(positions, e.text(after));
      assert matching == Later(Less(BY_POSITION), GridKeys(positions), after) by { LessByPosition(); }
      AnswerIsPage(BY_POSITION, GridKeys(positions), after, e.size, PlaceText, matching);
    }
  }

  lemma LessByPosition()
    ensures forall a: Key, b: Key :: a.text == b.text == "" ==>
              (Less(BY_POSITION)(a, b) <==> a.num < b.num || (a.num == b.num && a.id > b.id))
  {
  }

  lemma GridServes(limit: int)
    ensures Serves(GridEndpoint(limit))
  {
    hide AlbumImages, PlaceText, Answers;
    forall k: Key
      ensures PlaceText(k) != ""
    {
      PlaceTextRoundTrip(k);
    }
    forall positions: Positions, after: Option<Key>
      ensures Answers(GridEndpoint(limit), positions, after)
    {
      GridAnswers(limit, positions, after);
    }
  }

  lemma {:induction false} NothingToCut(s: string, at: char)
    requires at !in s
    ensures Cut(s, at).None?
  {
    if s != "" {
      assert s[0] in s;
      NothingToCut(s[1..], at);
    }
  }

  /** A lone id selects the images with lower ids, whatever their positions. */
  lemma LoneIdMatches(positions: Positions, id: Id)
    ensures ImagesMatching(positions, FormatUint(id))
            == set i | i in positions && i < id :: Key(positions[i], "", i)
  {
    FormatUintIsNumeral(id);
    UintRoundTrip(id);
    NothingToCut(FormatUint(id), ':');
  }

  /** In the album, lower ids never come at earlier positions. */
  predicate IdsFollowPositions(positions: Positions)
  {
    forall a, b :: a in positions && b in positions && a > b ==> positions[a] <= positions[b]
  }

  /** A lone id continues the listing. */
  ghost predicate LoneIdContinues(positions: Positions, id: Id)
    requires id in positions
  {
    ImagesMatching(positions, FormatUint(id))
    == Later(Less(BY_POSITION), GridKeys(positions), Some(Key(positions[id], "", id)))
  }

  /** Old cursors, a lone id, continue the listing from every image if and only if positions follow the ids. */
  lemma LoneIdsContinueIff(positions: Positions)
    ensures (forall id :: id in positions ==> LoneIdContinues(positions, id)) <==> IdsFollowPositions(positions)
  {
    hide ImagesMatching, Less, FormatUint;
    LessByPosition();
    forall id | id in positions
      ensures LoneIdContinues(positions, id) <==>
              forall i :: i in positions && i != id ==> (i < id <==> AfterInGrid(positions, id, i))
    {
      LoneIdMatches(positions, id);
      var lower := set i | i in positions && i < id :: Key(positions[i], "", i);
      var later := Later(Less(BY_POSITION), GridKeys(positions), Some(Key(positions[id], "", id)));
      forall i | i in positions
        ensures Key(positions[i], "", i) in lower <==> i < id
        ensures Key(positions[i], "", i) in later <==> AfterInGrid(positions, id, i)
      {
      }
    }
    if IdsFollowPositions(positions) {
    } else {
      var a, b :| a in positions && b in positions && a > b && positions[a] > positions[b];
      assert b < a && !AfterInGrid(positions, a, b);
    }
  }

  /** Image i comes after image id: at a later position, or at the same one with a lower id. */
  predicate AfterInGrid(positions: Positions, id: Id, i: Id)
    requires id in positions && i in positions
  {
    positions[i] > positions[id] || (positions[i] == positions[id] && i < id)
  }

  lemma NoPlace()
    ensures ParsePlace("").None? && ParseUint("").None? && Trimmed("") == ""
  {
  }
}
