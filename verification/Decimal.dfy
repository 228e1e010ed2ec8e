/** Decimal numerals as the cursors and limiter keys use them: formatting and range-checked parsing. */
module Decimal {
  import opened Prelude

  const INT64_LIMIT: int := 0x8000_0000_0000_0000
  const UINT64_LIMIT: int := 0x1_0000_0000_0000_0000

  type Int64 = x: int | -INT64_LIMIT <= x < INT64_LIMIT
  type UInt64 = x: int | 0 <= x < UINT64_LIMIT

  predicate IsDigit(c: char)
  {
    '0' <= c <= '9'
  }

  function Digit(d: nat): (c: char)
    requires d < 10
    ensures IsDigit(c) && DigitValue(c) == d
  {
    '0' + d as char
  }

  function DigitValue(c: char): (d: nat)
    requires IsDigit(c)
    ensures d < 10
  {
    (c - '0') as nat
  }

  predicate AllDigits(s: string)
  {
    forall c :: c in s ==> IsDigit(c)
  }

  function FormatUint(n: nat): string
  {
    if n < 10 then [Digit(n)] else FormatUint(n / 10) + [Digit(n % 10)]
  }

  function FormatInt(x: int): string
  {
    if x < 0 then "-" + FormatUint(-x) else FormatUint(x)
  }

  /** The number a string of digits stands for. */
  function Value(s: string): nat
    requires AllDigits(s)
  {
    if s == "" then 0 else Value(s[..|s| - 1]) * 10 + DigitValue(s[|s| - 1])
  }

  /** Unsigned 64-bit: at least one digit, digits only, no overflow. */
  function ParseUint(s: string): Option<UInt64>
  {
    if s == "" || !AllDigits(s) || Value(s) >= UINT64_LIMIT then None else Some(Value(s))
  }

  /** Signed 64-bit: an optional sign before an unsigned numeral within range. */
  function ParseInt(s: string): Option<Int64>
  {
    var negative := s != "" && s[0] == '-';
    var rest := if s != "" && (s[0] == '-' || s[0] == '+') then s[1..] else s;
    var n := ParseUint(rest);
    if n.None? then None
    else
      var magnitude: int := n.value;
      if negative then (if magnitude > INT64_LIMIT then None else Some(-magnitude))
      else (if magnitude >= INT64_LIMIT then None else Some(magnitude))
  }

  lemma {:induction false} FormatUintIsNumeral(n: nat)
    ensures FormatUint(n) != "" && AllDigits(FormatUint(n)) && Value(FormatUint(n)) == n
  {
    if n >= 10 {
      FormatUintIsNumeral(n / 10);
      var s := FormatUint(n / 10) + [Digit(n % 10)];
      assert s[..|s| - 1] == FormatUint(n / 10);
    } else {
      assert [Digit(n)][..0] == "";
    }
  }

  /** Plain decimal notation, without leading zeros. */
  lemma NumeralExamples(n: nat)
    ensures FormatUint(0) == "0" && FormatUint(1907) == "1907" && FormatInt(-60) == "-60"
    ensures n > 0 ==> FormatUint(n)[0] != '0'
  {
    FormatUintIsNumeral(n);
    assert FormatUint(190) == FormatUint(19) + ['0'] && FormatUint(19) == "1" + ['9'];
    if n > 0 {
      NoLeadingZero(n);
    }
  }

  lemma {:induction false} NoLeadingZero(n: nat)
    requires n > 0
    ensures FormatUint(n) != "" && FormatUint(n)[0] != '0'
  {
    if n >= 10 {
      NoLeadingZero(n / 10);
    } else {
      assert DigitValue(Digit(n)) == n;
    }
  }

  lemma UintRoundTrip(n: UInt64)
    ensures ParseUint(FormatUint(n)) == Some(n)
  {
    FormatUintIsNumeral(n);
  }

  lemma IntRoundTrip(x: Int64)
    ensures ParseInt(FormatInt(x)) == Some(x)
  {
    hide FormatUint;
    var magnitude: int := x;
    magnitude := if x < 0 then -magnitude else magnitude;
    FormatUintIsNumeral(magnitude);
    var digits := FormatUint(magnitude);
    assert digits[0] in digits;
    if x < 0 {
      assert ("-" + digits)[1..] == digits;
    }
  }

  /** A numeral of up to n digits stays below the n-th power of ten, so a 64-bit value needs at most 20. */
  function Pow10(n: nat): nat
  {
    if n == 0 then 1 else 10 * Pow10(n - 1)
  }

  lemma TwentyDigitsSuffice()
    ensures UINT64_LIMIT <= Pow10(20)
  {
    assert Pow10(4) == 10_000;
    assert Pow10(8) == 100_000_000;
    assert Pow10(12) == 1_000_000_000_000;
    assert Pow10(16) == 10_000_000_000_000_000;
    assert Pow10(20) == 100_000_000_000_000_000_000;
  }

  /** The digits still to be written in front. */
  function Front(rest: nat): string
  {
    if rest == 0 then "" else FormatUint(rest)
  }

  lemma LastDigit(rest: nat, i: nat, tail: string)
    requires 0 < rest < Pow10(i)
    ensures i > 0 && rest / 10 < Pow10(i - 1)
    ensures Front(rest) + tail == Front(rest / 10) + ([Digit(rest % 10)] + tail)
  {
  }

  /** Fills a 20-byte buffer from its end; the buffer is always long enough. */
  method Itoa(u: UInt64) returns (s: string)
    ensures s == FormatUint(u)
  {
    hide Pow10;
    if u == 0 {
      return "0";
    }
    var b := new char[20];
    var i := b.Length;
    var rest: nat := u;
    TwentyDigitsSuffice();
    while rest > 0
      invariant 0 <= i <= b.Length && rest < Pow10(i)
      invariant Front(rest) + b[i..] == FormatUint(u)
      decreases rest
    {
      LastDigit(rest, i, b[i..]);
      ghost var tail := b[i..];
      i := i - 1;
      b[i] := Digit(rest % 10);
      assert b[i..] == [Digit(rest % 10)] + tail;
      rest := rest / 10;
    }
    s := b[i..];
  }
}
