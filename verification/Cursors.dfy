/** The opaque page cursors of image lists and of the public feed: fields joined by a separator, then base64url. */
module Cursors {
  import opened Prelude
  import opened Decimal
  import opened Base64Url

  const SEPARATOR := '\U{1F}'

  /** The cut of a string at its first separator. */
  function Cut(s: string, at: char): Option<(string, string)>
  {
    if s == "" then None
    else if s[0] == at then Some(("", s[1..]))
    else
      var rest := Cut(s[1..], at);
      if rest.None? then None else Some(([s[0]] + rest.value.0, rest.value.1))
  }

  /** The three parts of a string split at its first two separators. */
  function SplitInThree(s: string): Option<(string, string, string)>
  {
    var first := Cut(s, SEPARATOR);
    if first.None? then None
    else
      var second := Cut(first.value.1, SEPARATOR);
      if second.None? then None else Some((first.value.0, second.value.0, second.value.1))
  }

  predicate NoSeparator(s: string)
  {
    SEPARATOR !in s
  }

  function Joined(a: string, b: string, c: string): string
  {
    a + [SEPARATOR] + b + [SEPARATOR] + c
  }

  lemma {:induction false} CutJoined(a: string, b: string, at: char)
    requires at !in a
    ensures Cut(a + [at] + b, at) == Some((a, b))
  {
    var s := a + [at] + b;
    if a == "" {
      assert s[1..] == b;
    } else {
      assert s[0] == a[0] && a[0] in a;
      CutJoined(a[1..], b, at);
      assert s[1..] == a[1..] + [at] + b;
      assert [a[0]] + a[1..] == a;
    }
  }

  lemma {:induction false} CutHasNoSeparator(s: string)
    ensures Cut(s, SEPARATOR).Some? ==> NoSeparator(Cut(s, SEPARATOR).value.0)
  {
    if s != "" {
      CutHasNoSeparator(s[1..]);
    }
  }

  lemma SplitJoined(a: string, b: string, c: string)
    requires NoSeparator(a) && NoSeparator(b)
    ensures SplitInThree(Joined(a, b, c)) == Some((a, b, c))
  {
    assert Joined(a, b, c) == a + [SEPARATOR] + (b + [SEPARATOR] + c);
    CutJoined(a, b + [SEPARATOR] + c, SEPARATOR);
    CutJoined(b, c, SEPARATOR);
  }

  /** Numerals and base64url text are bytes without a separator. */
  lemma PlainText(s: string)
    requires (forall c :: c in s ==> IsDigit(c) || c == '-') || InAlphabet(s)
    ensures NoSeparator(s) && forall c :: c in s ==> c as int < 256
  {
    assert ValueOf(SEPARATOR).None?;
    forall c | c in s && ValueOf(c).Some?
      ensures c as int < 256
    {
    }
  }

  lemma NumeralsArePlain(x: int)
    ensures NoSeparator(FormatInt(x)) && forall c :: c in FormatInt(x) ==> c as int < 256
  {
    FormatUintIsNumeral(if x < 0 then -x else x);
    PlainText(FormatInt(x));
  }

  // ----- the cursor of image lists -----

  datatype ListCursor = ListCursor(sort: Bytes, valInt: Int64, valStr: Bytes, id: UInt64)

  /** The value a cursor of this sort carries, as text. */
  function CursorText(c: ListCursor): Bytes
  {
    NumeralsArePlain(c.valInt);
    if c.sort == "name" then c.valStr else FormatInt(c.valInt)
  }

  function ListCursorRaw(c: ListCursor): Bytes
  {
    EncodedAlphabet(CursorText(c));
    PlainText(Encode(CursorText(c)));
    NumeralsArePlain(c.id);
    Joined(c.sort, Encode(CursorText(c)), FormatUint(c.id))
  }

  function EncodeListCursor(c: ListCursor): string
  {
    Encode(ListCursorRaw(c))
  }

  /** None stands for the format error. */
  function DecodeListCursor(s: string): Option<ListCursor>
  {
    var outer := Decode(s);
    if outer.None? then None
    else
      var parts := SplitInThree(outer.value);
      if parts.None? then None
      else
        SplitBytes(outer.value);
        var value := Decode(parts.value.1);
        var id := ParseUint(parts.value.2);
        if value.None? || id.None? then None
        else if parts.value.0 == "name" then Some(ListCursor(parts.value.0, 0, value.value, id.value))
        else
          var number := ParseInt(value.value);
          if number.None? then None else Some(ListCursor(parts.value.0, number.value, "", id.value))
  }

  lemma {:induction false} CutBytes(s: Bytes)
    ensures Cut(s, SEPARATOR).Some? ==>
              && (forall c :: c in Cut(s, SEPARATOR).value.0 ==> c as int < 256)
              && (forall c :: c in Cut(s, SEPARATOR).value.1 ==> c as int < 256)
  {
    if s != "" {
      CutBytes(s[1..]);
      assert s[0] in s;
    }
  }

  lemma SplitBytes(s: Bytes)
    ensures SplitInThree(s).Some? ==> forall c :: c in SplitInThree(s).value.0 ==> c as int < 256
  {
    CutBytes(s);
  }

  /** A cursor with the field that its sort does not use left at zero. */
  function Normal(c: ListCursor): ListCursor
  {
    if c.sort == "name" then c.(valInt := 0) else c.(valStr := "")
  }

  /**
    Decoding an encoded list cursor gives it back for every 64-bit value, every id and every byte string as
    name, if and only if the sort itself holds no separator.
   */
  lemma ListCursorRoundTrip(c: ListCursor)
    ensures DecodeListCursor(EncodeListCursor(c)) == Some(Normal(c)) <==> NoSeparator(c.sort)
  {
    RoundTrip(ListCursorRaw(c));
    CutHasNoSeparator(ListCursorRaw(c));
    if NoSeparator(c.sort) {
      EncodedAlphabet(CursorText(c));
      PlainText(Encode(CursorText(c)));
      SplitJoined(c.sort, Encode(CursorText(c)), FormatUint(c.id));
      RoundTrip(CursorText(c));
      UintRoundTrip(c.id);
      IntRoundTrip(c.valInt);
    }
  }

  // ----- the cursor of the public feed -----

  datatype FeedCursor = FeedCursor(sort: Bytes, val: Int64, id: UInt64)

  function FeedCursorRaw(c: FeedCursor): Bytes
  {
    NumeralsArePlain(c.val);
    NumeralsArePlain(c.id);
    Joined(c.sort, FormatInt(c.val), FormatUint(c.id))
  }

  function EncodeFeedCursor(c: FeedCursor): string
  {
    Encode(FeedCursorRaw(c))
  }

  function DecodeFeedCursor(s: string): Option<FeedCursor>
  {
    var outer := Decode(s);
    if outer.None? then None
    else
      var parts := SplitInThree(outer.value);
      if parts.None? then None
      else
        SplitBytes(outer.value);
        var val := ParseInt(parts.value.1);
        var id := ParseUint(parts.value.2);
        if val.None? || id.None? then None else Some(FeedCursor(parts.value.0, val.value, id.value))
  }

  lemma FeedCursorRoundTrip(c: FeedCursor)
    ensures DecodeFeedCursor(EncodeFeedCursor(c)) == Some(c) <==> NoSeparator(c.sort)
  {
    RoundTrip(FeedCursorRaw(c));
    CutHasNoSeparator(FeedCursorRaw(c));
    if NoSeparator(c.sort) {
      NumeralsArePlain(c.val);
      SplitJoined(c.sort, FormatInt(c.val), FormatUint(c.id));
      UintRoundTrip(c.id);
      IntRoundTrip(c.val);
    }
  }

  /** The layouts: fields around the unit separator, and in a list cursor the value encoded once more. */
  lemma CursorLayouts(c: ListCursor, f: FeedCursor)
    ensures Decode(EncodeListCursor(c))
            == Some(c.sort + "\U{1F}" + Encode(if c.sort == "name" then c.valStr else FormatInt(c.valInt)) + "\U{1F}"
                    + FormatUint(c.id))
    ensures Decode(EncodeFeedCursor(f))
            == Some(f.sort + "\U{1F}" + FormatInt(f.val) + "\U{1F}" + FormatUint(f.id))
  {
    hide Encode, Decode, FormatInt, FormatUint;
    RoundTrip(ListCursorRaw(c));
    RoundTrip(FeedCursorRaw(f));
  }
}
