/**
 What UTF-16 and UTF-8 are, apart from any codec: scalar values and their units or bytes (section 2 of RFC 2781,
 section 3 of RFC 3629), and what is left of units that are no scalar.
 */
module Unicode {
  import opened Bytes
  import opened Utf16
  import opened Utf8

  // --- UTF-16 ----------------------------------------------------------

  /** A scalar value, or a surrogate without its other half. */
  datatype Piece = Scalar(c: char) | Lone(u: unit)

  predicate Surrogate(u: unit) { 0xD800 <= u < 0xE000 }

  /** The units of a scalar: itself, or two surrogates with ten bits each of what is above 0x10000. */
  predicate IsUnits(c: char, us: seq<unit>) {
    || (|us| == 1 && us[0] == c as int && !Surrogate(us[0]))
    || (|us| == 2 && 0xD800 <= us[0] < 0xDC00 && 0xDC00 <= us[1] < 0xE000
        && c as int == 0x10000 + (us[0] as int - 0xD800) * 0x400 + (us[1] as int - 0xDC00))
  }

  lemma UnitsAreUnits(c: char)
    ensures IsUnits(c, Units(c))
  {
  }

  lemma UnitsAreUnique(c: char, us: seq<unit>)
    requires IsUnits(c, us)
    ensures us == Units(c)
  {
  }

  function PieceUnits(p: Piece): seq<unit> {
    match p case Scalar(c) => Units(c) case Lone(u) => [u]
  }

  function AllUnits(ps: seq<Piece>): seq<unit> {
    if ps == [] then [] else PieceUnits(ps[0]) + AllUnits(ps[1..])
  }

  /** Lone surrogates are surrogates, and no two of them make a pair. */
  predicate Apart(ps: seq<Piece>) {
    && (forall i :: 0 <= i < |ps| && ps[i].Lone? ==> Surrogate(ps[i].u))
    && (forall i :: 0 <= i < |ps| - 1 && ps[i].Lone? && ps[i].u < 0xDC00 && ps[i + 1].Lone? ==> ps[i + 1].u < 0xDC00)
  }

  /** The text: a lone surrogate is U+FFFD. */
  function PieceText(p: Piece): char {
    match p case Scalar(c) => c case Lone(_) => '\U{FFFD}'
  }

  function TextOf(ps: seq<Piece>): string {
    seq(|ps|, i requires 0 <= i < |ps| => PieceText(ps[i]))
  }

  lemma {:induction false} PiecesDecode(ps: seq<Piece>)
    requires Apart(ps)
    ensures Decode(AllUnits(ps)) == TextOf(ps)
  {
    if ps != [] {
      var more := ps[1..];
      forall i | 0 <= i < |more|
        ensures more[i] == ps[i + 1]
      {
      }
      assert Apart(more);
      PiecesDecode(more);
      assert TextOf(ps) == [PieceText(ps[0])] + TextOf(more);
      match ps[0] {
        case Scalar(c) => DecodeUnits(c, AllUnits(more));
        case Lone(u) =>
          var us := [u] + AllUnits(more);
          assert us[1..] == AllUnits(more);
          if more != [] {
            FirstUnit(more);
          }
      }
    }
  }

  lemma FirstUnit(ps: seq<Piece>)
    requires ps != []
    ensures AllUnits(ps) != [] && AllUnits(ps)[0] == PieceUnits(ps[0])[0]
    ensures ps[0].Scalar? ==> !LowSurrogate(AllUnits(ps)[0])
  {
  }

  /** Any units are such pieces, in one way. */
  lemma {:induction false} UnitsArePieces(us: seq<unit>) returns (ps: seq<Piece>)
    ensures Apart(ps) && AllUnits(ps) == us
    decreases |us|
  {
    ps := [];
    if us != [] {
      if HighSurrogate(us[0]) && |us| > 1 && LowSurrogate(us[1]) {
        var c := (0x10000 + (us[0] as int - 0xD800) * 0x400 + (us[1] as int - 0xDC00)) as char;
        var more := UnitsArePieces(us[2..]);
        ps := [Scalar(c)] + more;
        UnitsAreUnique(c, us[..2]);
        assert us == us[..2] + us[2..] && ps[1..] == more;
      } else {
        var more := UnitsArePieces(us[1..]);
        var p := if Surrogate(us[0]) then Lone(us[0]) else Scalar(us[0] as char);
        ps := [p] + more;
        assert us == [us[0]] + us[1..] && ps[1..] == more;
        if more != [] {
          FirstUnit(more);
        }
      }
    }
  }

  ghost predicate Reads(us: seq<unit>, s: string) {
    exists ps :: Apart(ps) && AllUnits(ps) == us && TextOf(ps) == s
  }

  /** Decoding gives each scalar for its units, and U+FFFD for each surrogate that is alone. */
  lemma DecodeIsPieces(us: seq<unit>, s: string)
    ensures Decode(us) == s <==> Reads(us, s)
  {
    var ps := UnitsArePieces(us);
    PiecesDecode(ps);
    if Reads(us, s) {
      var qs :| Apart(qs) && AllUnits(qs) == us && TextOf(qs) == s;
      PiecesDecode(qs);
    }
  }

  // --- UTF-8 -----------------------------------------------------------

  /** The bytes of a scalar: six bits in each but the first. */
  function CharBytes(c: char): (b: seq<byte>)
    ensures |b| >= 1
  {
    var n := c as int;
    if n < 0x80 then [n as byte]
    else if n < 0x800 then [(0xC0 + n / 64) as byte, (0x80 + n % 64) as byte]
    else if n < 0x10000 then [(0xE0 + n / 4096) as byte, (0x80 + n / 64 % 64) as byte, (0x80 + n % 64) as byte]
    else [(0xF0 + n / 262144) as byte, (0x80 + n / 4096 % 64) as byte, (0x80 + n / 64 % 64) as byte, (0x80 + n % 64) as byte]
  }

  function TextBytes(s: string): seq<byte> {
    if s == "" then [] else CharBytes(s[0]) + TextBytes(s[1..])
  }

  lemma CharIsLead(c: char, rest: seq<byte>)
    ensures Lead(CharBytes(c) + rest) == |CharBytes(c)|
  {
    var n := c as int;
    var b := CharBytes(c);
    FrontBytes(b, rest);
    if n < 0x800 {
    } else if n < 0x10000 {
      ThreeForm(n / 4096, n / 64 % 64, n % 64, n);
    } else {
      FourForm(n / 262144, n / 4096 % 64, n / 64 % 64, n % 64, n);
    }
    hide CharBytes;
  }

  lemma FrontBytes(b: seq<byte>, rest: seq<byte>)
    ensures forall i :: 0 <= i < |b| ==> (b + rest)[i] == b[i]
  {
  }

  lemma ThreeForm(a: nat, b: nat, d: nat, n: nat)
    requires 0x800 <= n < 0x10000 && !(0xD800 <= n < 0xE000)
    requires a == n / 4096 && b == n / 64 % 64 && d == n % 64
    ensures Three((0xE0 + a) as byte, (0x80 + b) as byte) && Tail((0x80 + d) as byte)
  {
    assert n / 64 == 64 * a + b;
  }

  lemma FourForm(a: nat, b: nat, d: nat, e: nat, n: nat)
    requires 0x10000 <= n < 0x110000
    requires a == n / 262144 && b == n / 4096 % 64 && d == n / 64 % 64 && e == n % 64
    ensures Four((0xF0 + a) as byte, (0x80 + b) as byte) && Tail((0x80 + d) as byte) && Tail((0x80 + e) as byte)
  {
    assert n / 4096 == 64 * a + b;
  }

  lemma SixBits(high: nat, low: nat)
    requires low < 64
    ensures (high * 64 + low) / 64 == high && (high * 64 + low) % 64 == low
  {
  }

  lemma ThreeBytes(s: seq<byte>, a: nat, b: nat, d: nat) returns (c: char)
    requires |s| >= 3 && Three(s[0], s[1]) && Tail(s[2])
    requires s[0] as int == 0xE0 + a && s[1] as int == 0x80 + b && s[2] as int == 0x80 + d
    ensures CharBytes(c) == s[..3]
  {
    var high := a * 64 + b;
    var n := high * 64 + d;
    SixBits(high, d);
    SixBits(a, b);
    assert n / 4096 == n / 64 / 64;
    c := n as char;
    hide Three;
  }

  lemma FourBytes(s: seq<byte>, a: nat, b: nat, d: nat, e: nat) returns (c: char)
    requires |s| >= 4 && Four(s[0], s[1]) && Tail(s[2]) && Tail(s[3])
    requires s[0] as int == 0xF0 + a && s[1] as int == 0x80 + b && s[2] as int == 0x80 + d && s[3] as int == 0x80 + e
    ensures CharBytes(c) == s[..4]
  {
    var top := a * 64 + b;
    var high := top * 64 + d;
    var n := high * 64 + e;
    SixBits(high, e);
    SixBits(top, d);
    SixBits(a, b);
    assert n / 4096 == n / 64 / 64 && n / 262144 == n / 64 / 64 / 64;
    c := n as char;
    hide Four;
  }

  lemma LeadIsChar(s: seq<byte>) returns (c: char)
    requires Lead(s) > 0
    ensures CharBytes(c) == s[..Lead(s)]
  {
    var k := Lead(s);
    if k == 1 {
      c := s[0] as char;
    } else if k == 2 {
      var a, b := s[0] as int - 0xC0, s[1] as int - 0x80;
      SixBits(a, b);
      c := (a * 64 + b) as char;
    } else if k == 3 {
      hide CharBytes;
      c := ThreeBytes(s, s[0] as int - 0xE0, s[1] as int - 0x80, s[2] as int - 0x80);
    } else {
      hide CharBytes;
      c := FourBytes(s, s[0] as int - 0xF0, s[1] as int - 0x80, s[2] as int - 0x80, s[3] as int - 0x80);
    }
  }

  lemma {:induction false} TextIsValid(s: string)
    ensures Valid(TextBytes(s))
  {
    if s != "" {
      hide Lead, CharBytes;
      TextIsValid(s[1..]);
      CharIsLead(s[0], TextBytes(s[1..]));
      var b := TextBytes(s);
      assert b[|CharBytes(s[0])|..] == TextBytes(s[1..]);
    }
  }

  lemma OneMore(c: char, more: string)
    ensures TextBytes([c] + more) == CharBytes(c) + TextBytes(more)
  {
    hide CharBytes;
    assert ([c] + more)[1..] == more;
  }

  lemma NoText()
    ensures TextBytes("") == []
  {
  }

  lemma ValidNext(b: seq<byte>)
    requires Valid(b) && b != []
    ensures Lead(b) > 0 && Valid(b[Lead(b)..])
  {
    hide Lead;
  }

  lemma {:induction false} ValidIsText(b: seq<byte>) returns (s: string)
    requires Valid(b)
    ensures TextBytes(s) == b
    decreases |b|
  {
    hide *;
    s := "";
    if b == [] {
      NoText();
    } else {
      ValidNext(b);
      var n := Lead(b);
      var c := LeadIsChar(b);
      var more := ValidIsText(b[n..]);
      s := [c] + more;
      OneMore(c, more);
      assert b == b[..n] + b[n..];
    }
  }

  /** The bytes of some text. */
  ghost predicate IsUtf8(b: seq<byte>) { exists s :: TextBytes(s) == b }

  /** Bytes are well-formed if and only if they are those of some text. */
  lemma ValidIsUtf8(b: seq<byte>)
    ensures Valid(b) <==> IsUtf8(b)
  {
    if Valid(b) {
      var s := ValidIsText(b);
    }
    if s :| TextBytes(s) == b {
      TextIsValid(s);
    }
  }
}
