/**
  The base64url encoding without padding, section 5 of RFC 4648, on byte strings (strings of characters
  below 256). The decoder is the lenient one of the Go library: it skips CR and LF and ignores the unused
  low bits of a last, incomplete group.
 */
module Base64Url {
  import opened Prelude

  type Bytes = s: string | forall c :: c in s ==> c as int < 256

  type Sextet = v: int | 0 <= v < 64

  function CharOf(v: Sextet): (c: char)
    ensures ValueOf(c) == Some(v)
  {
    if v < 26 then 'A' + v as char
    else if v < 52 then 'a' + (v - 26) as char
    else if v < 62 then '0' + (v - 52) as char
    else if v == 62 then '-'
    else '_'
  }

  function ValueOf(c: char): Option<Sextet>
  {
    if 'A' <= c <= 'Z' then Some((c - 'A') as int)
    else if 'a' <= c <= 'z' then Some((c - 'a') as int + 26)
    else if '0' <= c <= '9' then Some((c - '0') as int + 52)
    else if c == '-' then Some(62)
    else if c == '_' then Some(63)
    else None
  }

  predicate InAlphabet(s: string)
  {
    forall c :: c in s ==> ValueOf(c).Some?
  }

  // ----- encoding -----

  /** Three bytes to four characters; one or two bytes at the end to two or three. */
  function Encode(b: Bytes): string
  {
    if b == "" then ""
    else if |b| == 1 then Encode1(b[0] as int)
    else if |b| == 2 then Encode2(b[0] as int, b[1] as int)
    else Encode3(b[0] as int, b[1] as int, b[2] as int) + Encode(b[3..])
  }

  type Byte = x: int | 0 <= x < 256

  function Encode1(x: Byte): string
  {
    [CharOf(x / 4), CharOf(x % 4 * 16)]
  }

  function Encode2(x: Byte, y: Byte): string
  {
    [CharOf(x / 4), CharOf(x % 4 * 16 + y / 16), CharOf(y % 16 * 4)]
  }

  function Encode3(x: Byte, y: Byte, z: Byte): string
  {
    [CharOf(x / 4), CharOf(x % 4 * 16 + y / 16), CharOf(y % 16 * 4 + z / 64), CharOf(z % 64)]
  }

  // ----- decoding -----

  /** Line ends are skipped wherever they stand. */
  function WithoutLineEnds(s: string): string
  {
    if s == "" then ""
    else if s[0] == '\r' || s[0] == '\n' then WithoutLineEnds(s[1..])
    else [s[0]] + WithoutLineEnds(s[1..])
  }

  function Decode(s: string): Option<Bytes>
  {
    DecodeGroups(WithoutLineEnds(s))
  }

  /** Four characters to three bytes; two or three characters at the end to one or two, a single one is an error. */
  function DecodeGroups(s: string): Option<Bytes>
  {
    if s == "" then Some("")
    else if |s| == 1 then None
    else if ValueOf(s[0]).None? || ValueOf(s[1]).None? then None
    else
      var x := High(ValueOf(s[0]).value, ValueOf(s[1]).value);
      if |s| == 2 then Some([x])
      else if ValueOf(s[2]).None? then None
      else
        var y := Middle(ValueOf(s[1]).value, ValueOf(s[2]).value);
        if |s| == 3 then Some([x, y])
        else if ValueOf(s[3]).None? then None
        else
          var z := Low(ValueOf(s[2]).value, ValueOf(s[3]).value);
          var rest := DecodeGroups(s[4..]);
          if rest.None? then None else Some([x, y, z] + rest.value)
  }

  function High(a: Sextet, b: Sextet): (c: char)
    ensures c as int < 256
  {
    (a * 4 + b / 16) as char
  }

  function Middle(b: Sextet, c: Sextet): (r: char)
    ensures r as int < 256
  {
    (b % 16 * 16 + c / 4) as char
  }

  function Low(c: Sextet, d: Sextet): (r: char)
    ensures r as int < 256
  {
    (c % 4 * 64 + d) as char
  }

  // ----- what the characters stand for -----

  /** Examples: those of section 10 of RFC 4648, and the two characters in which the alphabets of base64 differ. */
  lemma Examples()
    ensures Encode("") == "" && Encode("f") == "Zg" && Encode("fo") == "Zm8" && Encode("foo") == "Zm9v"
    ensures Encode("\U{FB}\U{FF}") == "-_8"
  {
  }

  function Digit64(c: char): int
  {
    if ValueOf(c).Some? then ValueOf(c).value else 0
  }

  /** A group of bytes, as one number in base 256, is its characters as one in base 64, filled up with zeros. */
  lemma GroupsAreNumbers(x: Byte, y: Byte, z: Byte)
    ensures var a := Encode3(x, y, z);
            |a| == 4 && Digit64(a[0]) * 262144 + Digit64(a[1]) * 4096 + Digit64(a[2]) * 64 + Digit64(a[3])
                        == x * 65536 + y * 256 + z
    ensures var a := Encode2(x, y);
            |a| == 3 && Digit64(a[0]) * 4096 + Digit64(a[1]) * 64 + Digit64(a[2]) == (x * 256 + y) * 4
    ensures var a := Encode1(x);
            |a| == 2 && Digit64(a[0]) * 64 + Digit64(a[1]) == x * 16
  {
  }

  // ----- round trip -----

  lemma BitsBack(x: Byte, y: Byte, z: Byte)
    ensures High(x / 4, x % 4 * 16) as int == x
    ensures High(x / 4, x % 4 * 16 + y / 16) as int == x
    ensures Middle(x % 4 * 16 + y / 16, y % 16 * 4) as int == y
    ensures Middle(x % 4 * 16 + y / 16, y % 16 * 4 + z / 64) as int == y
    ensures Low(y % 16 * 4 + z / 64, z % 64) as int == z
  {
  }

  lemma {:induction false} EncodedAlphabet(b: Bytes)
    ensures InAlphabet(Encode(b))
  {
    if |b| > 2 {
      EncodedAlphabet(b[3..]);
    }
  }

  lemma {:induction false} NoLineEndsIn(s: string)
    requires InAlphabet(s)
    ensures WithoutLineEnds(s) == s
  {
    if s != "" {
      assert s[0] in s;
      NoLineEndsIn(s[1..]);
    }
  }

  lemma OneByte(x: Byte)
    ensures DecodeGroups(Encode1(x)) == Some([x as char])
  {
    BitsBack(x, 0, 0);
    assert High(x / 4, x % 4 * 16) == x as char;
  }

  lemma TwoBytes(x: Byte, y: Byte)
    ensures DecodeGroups(Encode2(x, y)) == Some([x as char, y as char])
  {
    BitsBack(x, y, 0);
    assert High(x / 4, x % 4 * 16 + y / 16) == x as char;
    assert Middle(x % 4 * 16 + y / 16, y % 16 * 4) == y as char;
  }

  lemma ShortGroupRoundTrip(b: Bytes)
    requires 1 <= |b| <= 2
    ensures DecodeGroups(Encode(b)) == Some(b)
  {
    hide DecodeGroups, Encode1, Encode2;
    if |b| == 1 {
      OneByte(b[0] as int);
      assert b == [b[0]];
    } else {
      TwoBytes(b[0] as int, b[1] as int);
      assert b == [b[0], b[1]];
    }
  }

  lemma ThreeBytes(x: Byte, y: Byte, z: Byte)
    ensures High(x / 4, x % 4 * 16 + y / 16) == x as char
    ensures Middle(x % 4 * 16 + y / 16, y % 16 * 4 + z / 64) == y as char
    ensures Low(y % 16 * 4 + z / 64, z % 64) == z as char
  {
    BitsBack(x, y, z);
  }

  /** A full group decodes to its three bytes, followed by whatever the rest decodes to. */
  lemma FullGroup(x: Byte, y: Byte, z: Byte, rest: string)
    requires DecodeGroups(rest).Some?
    ensures DecodeGroups(Encode3(x, y, z) + rest)
            == Some([x as char, y as char, z as char] + DecodeGroups(rest).value)
  {
    hide High, Middle, Low, CharOf, ValueOf;
    ThreeBytes(x, y, z);
    var s := Encode3(x, y, z) + rest;
    assert s[4..] == rest;
    assert ValueOf(s[0]) == Some(x / 4) && ValueOf(s[1]) == Some(x % 4 * 16 + y / 16);
    assert ValueOf(s[2]) == Some(y % 16 * 4 + z / 64) && ValueOf(s[3]) == Some(z % 64);
  }

  lemma FullGroupFirst(b: Bytes)
    requires |b| > 2 && DecodeGroups(Encode(b[3..])) == Some(b[3..])
    ensures DecodeGroups(Encode(b)) == Some(b)
  {
    hide DecodeGroups, Encode3;
    FullGroup(b[0] as int, b[1] as int, b[2] as int, Encode(b[3..]));
    assert b == [b[0], b[1], b[2]] + b[3..];
  }

  lemma {:induction false} GroupsRoundTrip(b: Bytes)
    ensures DecodeGroups(Encode(b)) == Some(b)
  {
    if |b| > 2 {
      GroupsRoundTrip(b[3..]);
      FullGroupFirst(b);
    } else if |b| > 0 {
      ShortGroupRoundTrip(b);
    }
  }

  /** Decoding an encoded byte string gives it back. */
  lemma RoundTrip(b: Bytes)
    ensures Decode(Encode(b)) == Some(b)
  {
    EncodedAlphabet(b);
    NoLineEndsIn(Encode(b));
    GroupsRoundTrip(b);
  }
}
