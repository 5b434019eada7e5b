/** Access-control entries and their wire form (sd/ace.go; section 2.4.4 of MS-DTYP). */
module Aces {
  import opened Wrappers
  import opened Bytes
  import opened Sid

  // --- flags -----------------------------------------------------------

  /** An ACE's flags byte, bit by bit from the lowest. */
  datatype Flags = Flags(oi: bool, ci: bool, np: bool, io: bool, inherited: bool, spare: bool, success: bool, failure: bool)

  function Bit(b: bool): (n: nat)
    ensures n <= 1
  {
    if b then 1 else 0
  }

  /** Four bits as a number, lowest first. */
  function Nibble(a: bool, b: bool, c: bool, d: bool): (n: nat)
    ensures n < 16
  {
    Bit(a) + 2 * Bit(b) + 4 * Bit(c) + 8 * Bit(d)
  }

  function FlagsByte(f: Flags): byte {
    (Nibble(f.oi, f.ci, f.np, f.io) + 16 * Nibble(f.inherited, f.spare, f.success, f.failure)) as byte
  }

  function Odd(n: nat): bool { n % 2 == 1 }

  function FlagsOf(b: byte): Flags { FlagsAt(b as int % 16, b as int / 16) }

  function FlagsAt(low: nat, high: nat): Flags {
    Flags(Odd(low), Odd(low / 2), Odd(low / 4), Odd(low / 8), Odd(high), Odd(high / 2), Odd(high / 4), Odd(high / 8))
  }

  lemma BitsOfNibble(a: bool, b: bool, c: bool, d: bool)
    ensures var n := Nibble(a, b, c, d); Odd(n) == a && Odd(n / 2) == b && Odd(n / 4) == c && Odd(n / 8) == d
  {
    var n := Nibble(a, b, c, d);
    assert n / 2 == Bit(b) + 2 * Bit(c) + 4 * Bit(d) && n / 4 == Bit(c) + 2 * Bit(d) && n / 8 == Bit(d);
  }

  lemma NibbleOfBits(n: nat)
    requires n < 16
    ensures Nibble(Odd(n), Odd(n / 2), Odd(n / 4), Odd(n / 8)) == n
  {
    assert n / 4 == n / 2 / 2 && n / 8 == n / 4 / 2 && n / 8 < 2;
    assert n == 2 * (n / 2) + n % 2 && n / 2 == 2 * (n / 4) + n / 2 % 2 && n / 4 == 2 * (n / 8) + n / 4 % 2;
  }

  lemma FlagsOfByte(f: Flags)
    ensures FlagsOf(FlagsByte(f)) == f
  {
    var low, high := Nibble(f.oi, f.ci, f.np, f.io), Nibble(f.inherited, f.spare, f.success, f.failure);
    BitsOfNibble(f.oi, f.ci, f.np, f.io);
    BitsOfNibble(f.inherited, f.spare, f.success, f.failure);
    hide Nibble, Odd;
    assert FlagsAt(low, high) == f;
    hide FlagsAt;
    SplitByte(low, high);
  }

  lemma SplitByte(low: nat, high: nat)
    requires low < 16
    ensures (low + 16 * high) % 16 == low && (low + 16 * high) / 16 == high
  {
  }

  // --- types -----------------------------------------------------------

  const ALLOWED: byte := 0x00
  const DENIED: byte := 0x01
  const AUDIT: byte := 0x02
  const ALARM: byte := 0x03
  const ALLOWED_OBJECT: byte := 0x05
  const ALARM_OBJECT: byte := 0x08
  const MANDATORY_LABEL: byte := 0x11

  /** Types whose body is a mask and a SID. */
  predicate IsSimple(kind: byte) { kind <= ALARM || kind == MANDATORY_LABEL }

  /** Types whose body is a mask, GUIDs that may be missing, and a SID. */
  predicate IsObject(kind: byte) { ALLOWED_OBJECT <= kind <= ALARM_OBJECT }

  /** Types that need the directory-services ACL revision. */
  predicate NeedsDs(kind: byte) { 0x05 <= kind <= 0x10 }

  /** An ACE. `raw`, when there is one, is the whole body and the structured fields are ignored. */
  datatype Ace = Ace(kind: byte, flags: Flags, mask: u32, sid: SID, objectType: Option<Guid>, inheritedType: Option<Guid>,
                     raw: Option<seq<byte>>)

  // --- wire form -------------------------------------------------------

  function GuidBytes(g: Option<Guid>): seq<byte> {
    match g case None => [] case Some(bytes) => bytes
  }

  /** Which GUIDs are present. */
  function Presence(a: Ace): nat {
    Bit(a.objectType.Some?) + 2 * Bit(a.inheritedType.Some?)
  }

  function ObjectBody(a: Ace): seq<byte> {
    Le32(a.mask as int) + Le32(Presence(a)) + GuidBytes(a.objectType) + GuidBytes(a.inheritedType) + Encoded(a.sid)
  }

  /** The bytes after the header; None for a type with no structured form and no raw body. */
  function Body(a: Ace): Option<seq<byte>> {
    if a.raw.Some? then a.raw
    else if IsObject(a.kind) then Some(ObjectBody(a))
    else if IsSimple(a.kind) then Some(Le32(a.mask as int) + Encoded(a.sid))
    else None
  }

  /** A 4-byte header and the body, if the size fits 16 bits: only a raw body can be too long. */
  function Marshal(a: Ace): (r: Option<seq<byte>>)
    ensures r.Some? <==> if a.raw.Some? then |a.raw.value| <= 0xFFFB else IsSimple(a.kind) || IsObject(a.kind)
    ensures r.Some? ==> 4 <= |r.value| < TWO_16 && r.value[0] == a.kind && Word16(r.value[2..]) == |r.value|
  {
    var body :- Body(a);
    assert 4 + |body| <= 0xFFFF ==> Word16(([a.kind, FlagsByte(a.flags)] + Le16(4 + |body|) + body)[2..]) == 4 + |body| by {
      SizeField([a.kind, FlagsByte(a.flags)], body);
    }
    if 4 + |body| > 0xFFFF then None
    else Some([a.kind, FlagsByte(a.flags)] + Le16(4 + |body|) + body)
  }

  lemma SizeField(front: seq<byte>, body: seq<byte>)
    requires |front| == 2
    ensures 4 + |body| < TWO_16 ==> Word16((front + Le16(4 + |body|) + body)[2..]) == 4 + |body|
  {
    if 4 + |body| < TWO_16 {
      Word16OfLe16(4 + |body|, body);
      assert (front + Le16(4 + |body|) + body)[2..] == Le16(4 + |body|) + body;
    }
  }

  function GuidAt(body: seq<byte>, off: nat, present: bool): (r: Option<(Option<Guid>, nat)>)
    requires off <= |body|
    ensures r.Some? ==> off <= r.value.1 <= |body|
  {
    if !present then Some((None, off))
    else if |body| < off + 16 then None
    else Some((Some(body[off..off + 16]), off + 16))
  }

  function ParseObject(kind: byte, flags: Flags, body: seq<byte>): Option<Ace> {
    if |body| < 8 then None
    else
      var present := Word32(body[4..]);
      var (objectType, off) :- GuidAt(body, 8, Odd(present));
      var (inheritedType, end) :- GuidAt(body, off, Odd(present / 2));
      var sid :- ParseSID(body[end..]);
      Some(Ace(kind, flags, Word32(body) as u32, sid, objectType, inheritedType, None))
  }

  /** The ACE of a type and body. An empty raw body is no body at all: appending nothing to nil leaves nil. */
  function ParseBody(kind: byte, flags: Flags, body: seq<byte>): Option<Ace> {
    if IsSimple(kind) then
      if |body| < 4 then None
      else
        var sid :- ParseSID(body[4..]);
        Some(Ace(kind, flags, Word32(body) as u32, sid, None, None, None))
    else if IsObject(kind) then ParseObject(kind, flags, body)
    else Some(Ace(kind, flags, 0, NO_SID, None, None, if body == [] then None else Some(body)))
  }

  /** One ACE at the start of `buf`, and its size. */
  function Parse(buf: seq<byte>): (r: Option<(Ace, nat)>)
    ensures r.Some? ==> 4 <= r.value.1 <= |buf| && r.value.1 < TWO_16
  {
    if |buf| < 4 then None
    else
      var size := Word16(buf[2..]);
      if size < 4 || size > |buf| then None
      else
        var a :- ParseBody(buf[0], FlagsOf(buf[1]), buf[4..size]);
        Some((a, size))
  }

  /** objectBody, appending to a buffer. */
  method AppendObjectBody(a: Ace) returns (b: seq<byte>)
    ensures b == ObjectBody(a)
  {
    var present := 0;
    if a.objectType.Some? {
      present := present + 1;
    }
    if a.inheritedType.Some? {
      present := present + 2;
    }
    b := Le32(a.mask as int);
    b := b + Le32(present);
    if a.objectType.Some? {
      b := b + a.objectType.value;
    }
    if a.inheritedType.Some? {
      b := b + a.inheritedType.value;
    }
    b := b + Encoded(a.sid);
  }

  // --- round trips -----------------------------------------------------

  /** An ACE in the form a parse gives: nothing set that its type does not use. */
  predicate Clean(a: Ace) {
    if IsSimple(a.kind) then IsValid(a.sid) && a.objectType.None? && a.inheritedType.None? && a.raw.None?
    else if IsObject(a.kind) then IsValid(a.sid) && a.raw.None?
    else
      && a.mask == 0 && a.sid == NO_SID && a.objectType.None? && a.inheritedType.None?
      && a.raw.Some? && a.raw.value != []
  }

  lemma Word32Back(n: nat, rest: seq<byte>)
    requires n < TWO_32
    ensures Word32(Le32(n) + rest) == n
  {
    Word32OfLe32(n, rest);
  }

  lemma SimpleBack(a: Ace)
    requires IsSimple(a.kind) && Clean(a)
    ensures ParseBody(a.kind, a.flags, Body(a).value) == Some(a)
  {
    hide Le32, Word32, ParseSID;
    var body := Le32(a.mask as int) + Encoded(a.sid);
    Word32Back(a.mask as int, Encoded(a.sid));
    ParseOfEncoded(a.sid, []);
    assert Encoded(a.sid) + [] == Encoded(a.sid) == body[4..];
  }

  lemma PresenceBits(a: Ace)
    ensures Odd(Presence(a)) == a.objectType.Some? && Odd(Presence(a) / 2) == a.inheritedType.Some?
  {
  }

  lemma GuidBack(body: seq<byte>, off: nat, g: Option<Guid>)
    requires off + |GuidBytes(g)| <= |body| && body[off..][..|GuidBytes(g)|] == GuidBytes(g)
    ensures GuidAt(body, off, g.Some?) == Some((g, off + |GuidBytes(g)|))
  {
    if g.Some? {
      assert body[off..off + 16] == body[off..][..16];
    }
  }

  lemma ObjectBack(a: Ace)
    requires IsObject(a.kind) && Clean(a)
    ensures ParseBody(a.kind, a.flags, Body(a).value) == Some(a)
  {
    hide Le32, Word32, ParseSID, GuidAt, Odd, Presence, GuidBytes;
    var o, i, s := GuidBytes(a.objectType), GuidBytes(a.inheritedType), Encoded(a.sid);
    var m, p, body := Le32(a.mask as int), Le32(Presence(a)), ObjectBody(a);
    PresenceBits(a);
    PresenceFits(a);
    BodyLayout(m, p, o, i, s);
    Word32Back(a.mask as int, p + (o + (i + s)));
    Word32Back(Presence(a), o + (i + s));
    GuidBack(body, 8, a.objectType);
    GuidBack(body, 8 + |o|, a.inheritedType);
    ParseOfEncoded(a.sid, []);
    assert s + [] == s;
  }

  lemma BodyLayout(m: seq<byte>, p: seq<byte>, o: seq<byte>, i: seq<byte>, s: seq<byte>)
    requires |m| == 4 && |p| == 4
    ensures var b := m + p + o + i + s;
            && b == m + (p + (o + (i + s))) && b[4..] == p + (o + (i + s))
            && b[8..][..|o|] == o && b[8 + |o|..][..|i|] == i && b[8 + |o| + |i|..] == s
  {
  }

  lemma PresenceFits(a: Ace)
    ensures Presence(a) < 4
  {
  }

  lemma ParseOfFrame(kind: byte, flags: Flags, body: seq<byte>, rest: seq<byte>)
    requires 4 + |body| < TWO_16
    ensures var buf := [kind, FlagsByte(flags)] + Le16(4 + |body|) + body + rest;
            Parse(buf) == match ParseBody(kind, flags, body) case None => None case Some(a) => Some((a, 4 + |body|))
  {
    hide FlagsByte, FlagsOf, ParseBody, Le16, Word16;
    var buf := [kind, FlagsByte(flags)] + Le16(4 + |body|) + body + rest;
    FlagsOfByte(flags);
    Word16OfLe16(4 + |body|, body + rest);
    assert buf[2..] == Le16(4 + |body|) + (body + rest);
    assert buf[4..4 + |body|] == body;
  }

  /** A marshalled ACE is read back as itself exactly when it is in canonical form. */
  lemma MarshalParses(a: Ace, rest: seq<byte>)
    requires Marshal(a).Some?
    ensures Parse(Marshal(a).value + rest) == Some((a, |Marshal(a).value|)) <==> Clean(a)
  {
    hide FlagsByte, FlagsOf, Le16;
    ParseOfFrame(a.kind, a.flags, Body(a).value, rest);
    if Clean(a) {
      if IsSimple(a.kind) {
        SimpleBack(a);
      } else if IsObject(a.kind) {
        ObjectBack(a);
      }
    }
    if ParseBody(a.kind, a.flags, Body(a).value).Some? {
      ParsedIsCanonical(a.kind, a.flags, Body(a).value);
    }
  }

  /** Whatever is parsed is canonical, or is an empty body that cannot be marshalled at all. */
  lemma ParsedIsCanonical(kind: byte, flags: Flags, body: seq<byte>)
    requires ParseBody(kind, flags, body).Some?
    ensures var a := ParseBody(kind, flags, body).value; a.kind == kind && a.flags == flags && (Clean(a) || Marshal(a) == None)
  {
    hide FlagsByte, Le32, Word32;
  }

  // --- any bytes -------------------------------------------------------

  /** Bytes whose fixed front says `mask` and has a SID behind it; whatever follows the SID is ignored. */
  predicate SimpleLies(body: seq<byte>, a: Ace) {
    IsValid(a.sid) && Le32(a.mask as int) + Encoded(a.sid) <= body
  }

  /** Bytes with a mask, a presence word of which two bits count, the GUIDs those bits announce, and a SID. */
  predicate ObjectLies(body: seq<byte>, a: Ace) {
    && IsValid(a.sid) && |body| >= 8
    && Odd(Word32(body[4..])) == a.objectType.Some? && Odd(Word32(body[4..]) / 2) == a.inheritedType.Some?
    && Le32(a.mask as int) + body[4..8] + GuidBytes(a.objectType) + GuidBytes(a.inheritedType) + Encoded(a.sid) <= body
  }

  /** What the body of an ACE of a type says. */
  predicate BodyLies(body: seq<byte>, a: Ace) {
    if IsSimple(a.kind) then SimpleLies(body, a) && a.objectType.None? && a.inheritedType.None? && a.raw.None?
    else if IsObject(a.kind) then ObjectLies(body, a) && a.raw.None?
    else
      && a.mask == 0 && a.sid == NO_SID && a.objectType.None? && a.inheritedType.None?
      && a.raw == if body == [] then None else Some(body)
  }

  lemma MaskIsFront(body: seq<byte>, mask: u32)
    requires |body| >= 4
    ensures Word32(body) == mask as int <==> Le32(mask as int) <= body
  {
    Le32OfWord32(body);
    Word32Back(mask as int, body[4..]);
    assert Le32(mask as int) <= body ==> body == Le32(mask as int) + body[4..];
  }

  lemma SimpleIsRead(body: seq<byte>, a: Ace)
    requires IsSimple(a.kind)
    ensures ParseBody(a.kind, a.flags, body) == Some(a) <==> BodyLies(body, a)
  {
    hide Word32, Le32, ParseSID, Encoded;
    if |body| >= 4 {
      MaskIsFront(body, a.mask);
      ParsedIsFront(body[4..], a.sid);
      TwoFronts(Le32(a.mask as int), Encoded(a.sid), body);
    }
  }

  lemma TwoFronts(x: seq<byte>, y: seq<byte>, body: seq<byte>)
    ensures x + y <= body <==> x <= body && y <= body[|x|..]
  {
    if x + y <= body {
      assert body[..|x| + |y|] == x + y;
      assert body[..|x|] == (x + y)[..|x|] && body[|x|..][..|y|] == (x + y)[|x|..];
    }
    if x <= body && y <= body[|x|..] {
      assert body == x + (y + body[|x|..][|y|..]);
    }
  }

  lemma GuidIsRead(body: seq<byte>, off: nat, g: Option<Guid>)
    requires off <= |body|
    ensures GuidAt(body, off, g.Some?) == Some((g, off + |GuidBytes(g)|)) <==> GuidBytes(g) <= body[off..]
  {
    if g.Some? {
      if off + 16 <= |body| {
        var x: seq<byte> := g.value;
        assert body[off..][..16] == body[off..off + 16];
        assert x <= body[off..] <==> x == body[off..][..16];
      } else {
        assert |body[off..]| < 16 == |GuidBytes(g)|;
      }
    }
  }

  lemma ObjectIsRead(body: seq<byte>, a: Ace)
    requires IsObject(a.kind)
    ensures ParseBody(a.kind, a.flags, body) == Some(a) <==> BodyLies(body, a)
  {
    hide Word32, Le32, ParseSID, Encoded, GuidAt, GuidBytes, Odd;
    if |body| >= 8 && Odd(Word32(body[4..])) == a.objectType.Some? && Odd(Word32(body[4..]) / 2) == a.inheritedType.Some? {
      var m, o, i, e := Le32(a.mask as int), GuidBytes(a.objectType), GuidBytes(a.inheritedType), Encoded(a.sid);
      MaskIsFront(body, a.mask);
      FiveFronts(m, body[4..8], o, i, e, body);
      GuidIsRead(body, 8, a.objectType);
      GuidLength(body, 8, a.objectType.Some?, a.objectType);
      if GuidAt(body, 8, a.objectType.Some?) == Some((a.objectType, 8 + |o|)) {
        GuidIsRead(body, 8 + |o|, a.inheritedType);
        GuidLength(body, 8 + |o|, a.inheritedType.Some?, a.inheritedType);
        if GuidAt(body, 8 + |o|, a.inheritedType.Some?) == Some((a.inheritedType, 8 + |o| + |i|)) {
          ParsedIsFront(body[8 + |o| + |i|..], a.sid);
        }
      }
    } else if |body| >= 8 {
      PresenceDiffers(body, a);
    }
  }

  lemma PresenceDiffers(body: seq<byte>, a: Ace)
    requires IsObject(a.kind) && |body| >= 8
    requires Odd(Word32(body[4..])) != a.objectType.Some? || Odd(Word32(body[4..]) / 2) != a.inheritedType.Some?
    ensures ParseBody(a.kind, a.flags, body) != Some(a)
  {
    hide Word32, ParseSID, GuidAt, Odd;
    GuidFound(body, 8, Odd(Word32(body[4..])));
    var first := GuidAt(body, 8, Odd(Word32(body[4..])));
    if first.Some? {
      GuidFound(body, first.value.1, Odd(Word32(body[4..]) / 2));
    }
  }

  lemma GuidLength(body: seq<byte>, off: nat, present: bool, g: Option<Guid>)
    requires off <= |body|
    ensures var r := GuidAt(body, off, present); r.Some? && r.value.0 == g ==> r.value.1 == off + |GuidBytes(g)|
  {
  }

  /** A GUID is found exactly where one is announced. */
  lemma GuidFound(body: seq<byte>, off: nat, present: bool)
    requires off <= |body|
    ensures GuidAt(body, off, present).Some? ==> GuidAt(body, off, present).value.0.Some? == present
  {
  }

  lemma FiveFronts(m: seq<byte>, p: seq<byte>, o: seq<byte>, i: seq<byte>, e: seq<byte>, body: seq<byte>)
    requires |m| == 4 && |body| >= 8 && p == body[4..8]
    ensures m + p + o + i + e <= body <==>
            m <= body && o <= body[8..] && i <= body[8 + |o|..] && e <= body[8 + |o| + |i|..]
  {
    TwoFronts(m + p + o + i, e, body);
    TwoFronts(m + p + o, i, body);
    TwoFronts(m + p, o, body);
    TwoFronts(m, p, body);
    assert p <= body[4..] by { assert body[4..][..4] == p; }
  }

  /** Bytes that are one ACE: its type, flags, length and body. */
  predicate AceLies(b: seq<byte>, a: Ace) {
    && 4 <= |b| && b[0] == a.kind && FlagsOf(b[1]) == a.flags && Word16(b[2..]) == |b|
    && BodyLies(b[4..], a)
  }

  /** On any bytes: what is parsed off the front is exactly the ACE that lies there, whatever slack it holds. */
  lemma AceIsRead(b: seq<byte>, a: Ace, rest: seq<byte>)
    requires |b| >= 4
    ensures Parse(b + rest) == Some((a, |b|)) <==> AceLies(b, a)
  {
    hide Word16, FlagsOf, ParseBody, BodyLies;
    assert (b + rest)[2..] == b[2..] + rest && (b + rest)[..|b|] == b;
    FrontWord(b, rest);
    assert (b + rest)[4..|b|] == b[4..];
    BodyIsRead(b[4..], a);
    if Parse(b + rest) == Some((a, |b|)) {
      ParsedAs(b[0], FlagsOf(b[1]), b[4..]);
    }
  }

  lemma FrontWord(b: seq<byte>, rest: seq<byte>)
    requires |b| >= 4
    ensures Word16((b + rest)[2..]) == Word16(b[2..])
  {
  }

  lemma ParsedAs(kind: byte, flags: Flags, body: seq<byte>)
    ensures var a := ParseBody(kind, flags, body); a.Some? ==> a.value.kind == kind && a.value.flags == flags
  {
  }

  lemma BodyIsRead(body: seq<byte>, a: Ace)
    ensures ParseBody(a.kind, a.flags, body) == Some(a) <==> BodyLies(body, a)
  {
    if IsSimple(a.kind) {
      SimpleIsRead(body, a);
    } else if IsObject(a.kind) {
      ObjectIsRead(body, a);
    }
  }
}
