/** Numbers as text: the parts of strconv and encoding/hex the codecs rely on. */
module Numerals {
  import opened Wrappers
  import opened Bytes

  /** The value of one digit character, in either case; None for any other character. */
  function DigitValue(c: char): (d: Option<nat>)
    ensures d.Some? ==> d.value < 36
  {
    if '0' <= c <= '9' then Some(c as int - '0' as int)
    else if 'a' <= c <= 'z' then Some(c as int - 'a' as int + 10)
    else if 'A' <= c <= 'Z' then Some(c as int - 'A' as int + 10)
    else None
  }

  function DigitChar(d: nat): (c: char)
    requires d < 16
    ensures DigitValue(c) == Some(d)
    ensures '0' <= c <= '9' || 'a' <= c <= 'f'
    ensures d < 10 ==> '0' <= c <= '9'
    ensures c == '0' <==> d == 0
  {
    if d < 10 then '0' + d as char else 'a' + (d - 10) as char
  }

  predicate Decimal(s: string) {
    forall i :: 0 <= i < |s| ==> '0' <= s[i] <= '9'
  }

  predicate Hex(s: string) {
    forall i :: 0 <= i < |s| ==> '0' <= s[i] <= '9' || 'a' <= s[i] <= 'f'
  }

  /** `n` without its last digit, and that digit. */
  function LastDigit(n: nat, base: nat): (r: (nat, nat))
    requires base == 10 || base == 16
    ensures n == r.0 * base + r.1 && r.1 < base
    ensures n < base ==> r.0 == 0 && r.1 == n
    ensures n >= base ==> 0 < r.0 < n
  {
    if base == 10 then (n / 10, n % 10) else (n / 16, n % 16)
  }

  /** FormatUint: the shortest numeral of `n`. */
  function Digits(n: nat, base: nat): (s: string)
    requires base == 10 || base == 16
    ensures |s| > 0
    ensures s[0] == '0' ==> s == "0"
    ensures Hex(s)
    ensures base == 10 ==> Decimal(s)
  {
    var (high, last) := LastDigit(n, base);
    if n < base then [DigitChar(last)] else Digits(high, base) + [DigitChar(last)]
  }

  /** The number a run of digits denotes in `base`; None when a character is no digit of the base. */
  function Value(s: string, base: nat): (v: Option<nat>) {
    if s == "" then Some(0)
    else
      var high :- Value(s[..|s| - 1], base);
      var d :- DigitValue(s[|s| - 1]);
      if d < base then Some(high * base + d) else None
  }

  lemma {:induction false} ValueOfDigits(n: nat, base: nat)
    requires base == 10 || base == 16
    ensures Value(Digits(n, base), base) == Some(n)
  {
    var s := Digits(n, base);
    if n < base {
      assert s[..0] == "";
    } else {
      var high := LastDigit(n, base).0;
      ValueOfDigits(high, base);
      assert s[..|s| - 1] == Digits(high, base);
    }
  }

  lemma {:induction false} DigitsOfZero(n: nat, base: nat)
    requires base == 10 || base == 16
    requires Digits(n, base) == "0"
    ensures n == 0
  {
    ValueOfDigits(n, base);
    ValueOfDigits(0, base);
  }

  /** strconv.ParseUint with an explicit base. */
  function ParseUint(s: string, base: nat, limit: nat): (v: Option<nat>)
    ensures v.Some? ==> v.value < limit
  {
    if s == "" then None
    else
      var n :- Value(s, base);
      if n < limit then Some(n) else None
  }

  lemma ParseUintOfDigits(n: nat, base: nat, limit: nat)
    requires (base == 10 || base == 16) && n < limit
    ensures ParseUint(Digits(n, base), base, limit) == Some(n)
  {
    ValueOfDigits(n, base);
  }

  function Lower(c: char): char {
    if 'A' <= c <= 'Z' then c - 'A' + 'a' else c
  }

  /** strconv.ParseUint with base 0: the base comes from a 0b, 0o, 0x or 0 prefix. */
  function ParseUint0(s: string): Option<nat> {
    if s == "" then None
    else if s[0] != '0' then Value(s, 10)
    else if |s| >= 3 && Lower(s[1]) == 'b' then Value(s[2..], 2)
    else if |s| >= 3 && Lower(s[1]) == 'o' then Value(s[2..], 8)
    else if |s| >= 3 && Lower(s[1]) == 'x' then Value(s[2..], 16)
    else Value(s[1..], 8)
  }

  /** strconv.ParseInt(s, 0, 64) on text without underscores. */
  function ParseInt0(s: string): (v: Option<int>)
    ensures v.Some? ==> -TWO_63 <= v.value < TWO_63
  {
    if s == "" then None
    else
      var negative := s[0] == '-';
      var n :- ParseUint0(if s[0] == '-' || s[0] == '+' then s[1..] else s);
      if negative then if n <= TWO_63 then Some(-(n as int)) else None
      else if n < TWO_63 then Some(n) else None
  }

  /** strconv.FormatInt(n, 10). */
  function FormatInt(n: int): (s: string)
    ensures |s| > 0
    ensures s[0] == '-' || '0' <= s[0] <= '9'
    ensures Decimal(s[1..])
  {
    if n < 0 then "-" + Digits(-n, 10) else Digits(n, 10)
  }

  /** A rendered integer is read back as itself: base detection never mistakes its first digit for a prefix. */
  lemma ParseIntOfFormat(n: int)
    requires -TWO_63 <= n < TWO_63
    ensures ParseInt0(FormatInt(n)) == Some(n)
  {
    var m := if n < 0 then -n else n;
    var s := Digits(m, 10);
    ValueOfDigits(m, 10);
    assert ParseUint0(s) == Some(m) by {
      if s[0] == '0' {
        DigitsOfZero(m, 10);
        assert s[1..] == "";
      }
    }
    if n < 0 {
      assert FormatInt(n)[1..] == s;
    }
  }

  // --- encoding/hex ---------------------------------------------------

  function HexDigit(c: char): (d: Option<nat>)
    ensures d.Some? ==> d.value < 16
  {
    var d :- DigitValue(c);
    if d < 16 then Some(d) else None
  }

  function HexEncode(data: seq<byte>): (s: string)
    ensures |s| == 2 * |data|
    ensures Hex(s)
  {
    if data == [] then ""
    else [DigitChar(data[0] as int / 16), DigitChar(data[0] as int % 16)] + HexEncode(data[1..])
  }

  /** hex.DecodeString: an odd length or a non-hex character is an error. */
  function HexDecode(s: string): Option<seq<byte>> {
    if s == "" then Some([])
    else if |s| == 1 then None
    else
      var hi :- HexDigit(s[0]);
      var lo :- HexDigit(s[1]);
      var rest :- HexDecode(s[2..]);
      Some([(16 * hi + lo) as byte] + rest)
  }

  lemma {:induction false} HexRoundTrip(data: seq<byte>)
    ensures HexDecode(HexEncode(data)) == Some(data)
  {
    if data != [] {
      HexRoundTrip(data[1..]);
      var hi, lo := data[0] as int / 16, data[0] as int % 16;
      var rest := HexEncode(data[1..]);
      var text := [DigitChar(hi), DigitChar(lo)] + rest;
      assert text[0] == DigitChar(hi) && text[1] == DigitChar(lo) && text[2..] == rest;
      assert HexEncode(data) == text;
      assert [data[0]] + data[1..] == data;
    }
  }
}
