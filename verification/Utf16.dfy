/** UTF-16LE as unicode/utf16 encodes and decodes it (section 2 of RFC 2781). */
module Utf16 {
  import opened Bytes

  type unit = u: int | 0 <= u < 0x1_0000

  const REPLACEMENT: char := '\U{FFFD}'

  predicate HighSurrogate(u: unit) { 0xD800 <= u < 0xDC00 }

  predicate LowSurrogate(u: unit) { 0xDC00 <= u < 0xE000 }

  /** The one or two units of a scalar value. */
  function Units(c: char): (us: seq<unit>)
    ensures |us| == 1 || |us| == 2
  {
    var n := c as int;
    if n < 0x1_0000 then [n]
    else [0xD800 + (n - 0x1_0000) / 0x400, 0xDC00 + (n - 0x1_0000) % 0x400]
  }

  /** Decoding: a surrogate pair is one scalar; a lone surrogate is the replacement character. */
  function Decode(us: seq<unit>): string {
    if us == [] then ""
    else if HighSurrogate(us[0]) && |us| > 1 && LowSurrogate(us[1]) then
      var high, low := us[0] as int - 0xD800, us[1] as int - 0xDC00;
      [(0x1_0000 + high * 0x400 + low) as char] + Decode(us[2..])
    else if HighSurrogate(us[0]) || LowSurrogate(us[0]) then [REPLACEMENT] + Decode(us[1..])
    else [us[0] as char] + Decode(us[1..])
  }

  function Encode(s: string): seq<unit> {
    if s == "" then [] else Units(s[0]) + Encode(s[1..])
  }

  lemma DecodeUnits(c: char, rest: seq<unit>)
    ensures Decode(Units(c) + rest) == [c] + Decode(rest)
  {
    var us := Units(c);
    if |us| == 2 {
      assert (us + rest)[2..] == rest;
    } else {
      assert (us + rest)[1..] == rest;
    }
  }

  /** Surrogate pairs survive: every text is decoded from its own encoding. */
  lemma {:induction false} DecodeOfEncode(s: string)
    ensures Decode(Encode(s)) == s
  {
    if s != "" {
      DecodeOfEncode(s[1..]);
      DecodeUnits(s[0], Encode(s[1..]));
      assert s == [s[0]] + s[1..];
    }
  }

  // --- little-endian bytes --------------------------------------------

  function ToBytes(us: seq<unit>): (b: seq<byte>)
    ensures |b| == 2 * |us|
  {
    if us == [] then [] else Le16(us[0]) + ToBytes(us[1..])
  }

  /** The whole units in `b`; a stray last byte is dropped. */
  function FromBytes(b: seq<byte>): (us: seq<unit>)
    ensures |us| == |b| / 2
  {
    if |b| < 2 then [] else [Word16(b)] + FromBytes(b[2..])
  }

  lemma {:induction false} FromBytesOfToBytes(us: seq<unit>)
    ensures FromBytes(ToBytes(us)) == us
  {
    if us != [] {
      FromBytesOfToBytes(us[1..]);
      Word16OfLe16(us[0], ToBytes(us[1..]));
      assert ToBytes(us)[2..] == ToBytes(us[1..]);
    }
  }

  /** The bytes of a text, with no terminator. */
  function Utf16le(s: string): seq<byte> { ToBytes(Encode(s)) }

  function Utf16Text(b: seq<byte>): string { Decode(FromBytes(b)) }

  lemma TextOfUtf16le(s: string)
    ensures Utf16Text(Utf16le(s)) == s
  {
    FromBytesOfToBytes(Encode(s));
    DecodeOfEncode(s);
  }

  lemma {:induction false} ToBytesAppend(a: seq<unit>, b: seq<unit>)
    ensures ToBytes(a + b) == ToBytes(a) + ToBytes(b)
  {
    if a == [] {
      assert a + b == b;
    } else {
      hide Le16;
      ToBytesAppend(a[1..], b);
      assert (a + b)[1..] == a[1..] + b;
      assert Le16(a[0]) + (ToBytes(a[1..]) + ToBytes(b)) == Le16(a[0]) + ToBytes(a[1..]) + ToBytes(b);
    }
  }

  /** utf16le, unit by unit. */
  method EncodeUtf16le(s: string) returns (b: seq<byte>)
    ensures b == Utf16le(s)
  {
    var units := Encode(s);
    b := [];
    for i := 0 to |units|
      invariant b == ToBytes(units[..i])
    {
      b := b + Le16(units[i]);
      ToBytesAppend(units[..i], [units[i]]);
      assert ToBytes([units[i]]) == Le16(units[i]) + ToBytes([]);
      assert units[..i + 1] == units[..i] + [units[i]];
    }
    assert units[..|units|] == units;
  }

  /** utf16Decode, filling its array of units in place. */
  method DecodeUtf16le(b: seq<byte>) returns (s: string)
    ensures s == Utf16Text(b)
  {
    var units := new unit[|b| / 2](_ => 0);
    for i := 0 to units.Length
      invariant forall k :: 0 <= k < i ==> units[k] == b[2 * k] as int + 256 * (b[2 * k + 1] as int)
    {
      units[i] := b[2 * i] as int + 256 * (b[2 * i + 1] as int);
    }
    forall k | 0 <= k < units.Length
      ensures units[k] == FromBytes(b)[k]
    {
      UnitAt(b, k);
    }
    assert units[..] == FromBytes(b);
    s := Decode(units[..]);
  }

  lemma {:induction false} UnitAt(b: seq<byte>, k: nat)
    requires k < |b| / 2
    ensures FromBytes(b)[k] == b[2 * k] as int + 256 * (b[2 * k + 1] as int)
  {
    if k > 0 {
      UnitAt(b[2..], k - 1);
    }
  }
}
