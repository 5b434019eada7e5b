/** Encoding an audit context (EncodeAuditContext of sd/auditcontext.go), and what a reader makes of it. */
module AuditEncoding {
  import opened Wrappers
  import opened Bytes
  import opened MessagePack
  import opened AuditContext
  import Utf8

  // --- encoding --------------------------------------------------------

  /** An AuditField; AuditSID builds one of bytes. */
  datatype Field =
    | StringField(key: seq<byte>, s: seq<byte>)
    | UintField(key: seq<byte>, u: nat)
    | IntField(key: seq<byte>, i: int)
    | BoolField(key: seq<byte>, flag: bool)
    | BytesField(key: seq<byte>, data: seq<byte>)

  /** The fields' numbers are Go's. */
  predicate Typed(f: Field) {
    match f
    case UintField(_, u) => u < TWO_64
    case IntField(_, i) => -TWO_63 <= i < TWO_63
    case _ => true
  }

  /** The shortest place for a length. */
  function Narrowest(n: nat, inTag: nat): Width {
    if n < inTag then InTag else if n < 0x100 then W8 else if n < TWO_16 then W16 else W32
  }

  function StrShell(s: seq<byte>): Shell { Str(Narrowest(|s|, 32), s) }

  function BinShell(data: seq<byte>): Shell { Bin(Narrowest(|data|, 0), data) }

  function MapShell(n: nat): Shell { Map(if n < 16 then InTag else if n < TWO_16 then W16 else W32, n) }

  function Be64(n: int): (b: seq<byte>)
    ensures |b| == 8
  {
    var le := Le64(n);
    [le[7], le[6], le[5], le[4], le[3], le[2], le[1], le[0]]
  }

  function UintShell(u: nat): Shell {
    if u < 0x80 then Fixed(Low(u), [])
    else if u < 0x100 then Fixed(0xCC, Be(u, W8))
    else if u < TWO_16 then Fixed(0xCD, Be(u, W16))
    else if u < TWO_32 then Fixed(0xCE, Be(u, W32))
    else Fixed(0xCF, Be64(u))
  }

  /** A negative number in two's complement, in as few bytes as will do. */
  function IntShell(i: int): Shell {
    if i >= 0 then UintShell(i)
    else if i >= -32 then Fixed(Low(i), [])
    else if i >= -0x80 then Fixed(0xD0, [Low(i)])
    else if i >= -0x8000 then Fixed(0xD1, Be(i + TWO_16, W16))
    else if i >= -0x8000_0000 then Fixed(0xD2, Be(i + TWO_32, W32))
    else Fixed(0xD3, Be64(i))
  }

  function FieldShell(f: Field): Shell {
    match f
    case StringField(_, s) => StrShell(s)
    case UintField(_, u) => UintShell(u)
    case IntField(_, i) => IntShell(i)
    case BoolField(_, flag) => Fixed(if flag then 0xC3 else 0xC2, [])
    case BytesField(_, data) => BinShell(data)
  }

  function Leaf(sh: Shell): Value { Value(sh, []) }

  function FieldValues(fields: seq<Field>): (vs: seq<Value>)
    ensures |vs| == 2 * |fields|
  {
    if fields == [] then []
    else [Leaf(StrShell(fields[0].key)), Leaf(FieldShell(fields[0]))] + FieldValues(fields[1..])
  }

  lemma {:induction false} FieldValueAt(fields: seq<Field>, j: nat)
    requires j < |fields|
    ensures FieldValues(fields)[2 * j] == Leaf(StrShell(fields[j].key))
    ensures FieldValues(fields)[2 * j + 1] == Leaf(FieldShell(fields[j]))
  {
    hide StrShell, FieldShell;
    if j > 0 {
      FieldValueAt(fields[1..], j - 1);
      var rest := FieldValues(fields[1..]);
      assert FieldValues(fields)[2 * j] == rest[2 * (j - 1)] && FieldValues(fields)[2 * j + 1] == rest[2 * (j - 1) + 1];
    }
  }

  /** The value an audit context is. */
  function ContextValue(kind: seq<byte>, fields: seq<Field>): Value {
    var head := [Leaf(StrShell(KIND)), Leaf(StrShell(kind))];
    if fields == [] then Value(MapShell(1), head)
    else Value(MapShell(2), head + [Leaf(StrShell(kind)), Value(MapShell(|fields|), FieldValues(fields))])
  }

  // --- the append functions --------------------------------------------

  function MpMap(n: nat): seq<byte> {
    if n <= 15 then [(0x80 + n) as byte]
    else if n <= 0xFFFF then [0xDE] + Be(n, W16)
    else [0xDF] + Be(n, W32)
  }

  function MpStr(s: seq<byte>): seq<byte> {
    var n := |s|;
    (if n <= 31 then [(0xA0 + n) as byte]
     else if n <= 0xFF then [0xD9] + Be(n, W8)
     else if n <= 0xFFFF then [0xDA] + Be(n, W16)
     else [0xDB] + Be(n, W32)) + s
  }

  function MpBin(data: seq<byte>): seq<byte> {
    var n := |data|;
    (if n <= 0xFF then [0xC4] + Be(n, W8)
     else if n <= 0xFFFF then [0xC5] + Be(n, W16)
     else [0xC6] + Be(n, W32)) + data
  }

  /** Fixed-size values are appended tag first. */
  function MpFixed(sh: Shell): seq<byte>
    requires sh.Fixed?
  {
    [sh.tag] + sh.data
  }

  function MpField(f: Field): seq<byte> {
    match f
    case StringField(_, s) => MpStr(s)
    case UintField(_, u) => MpFixed(UintShell(u))
    case IntField(_, i) => MpFixed(IntShell(i))
    case BoolField(_, flag) => [if flag then 0xC3 else 0xC2]
    case BytesField(_, data) => MpBin(data)
  }

  function FieldBytes(fields: seq<Field>): seq<byte> {
    if fields == [] then [] else MpStr(fields[0].key) + MpField(fields[0]) + FieldBytes(fields[1..])
  }

  /** What EncodeAuditContext appends, in order. */
  function Output(kind: seq<byte>, fields: seq<Field>): seq<byte> {
    var head := MpMap(if fields == [] then 1 else 2) + MpStr(KIND) + MpStr(kind);
    if fields == [] then head else head + MpStr(kind) + MpMap(|fields|) + FieldBytes(fields)
  }

  // --- what is appended is the value -----------------------------------

  lemma StrIsValue(s: seq<byte>)
    requires |s| < TWO_32 && Utf8.Valid(s)
    ensures WellFormed(Leaf(StrShell(s))) && Encode(Leaf(StrShell(s))) == MpStr(s)
  {
    hide Utf8.Valid, Be;
    assert EncodeAll([]) == [];
    assert Be(|s|, InTag) == [] by { ShellParts(StrShell(s)); NoBytes(|s|); }
  }

  lemma NoBytes(n: nat)
    ensures Be(n, InTag) == []
  {
  }

  lemma BinIsValue(data: seq<byte>)
    requires |data| < TWO_32
    ensures WellFormed(Leaf(BinShell(data))) && Encode(Leaf(BinShell(data))) == MpBin(data)
  {
    hide Be;
    assert EncodeAll([]) == [];
  }

  lemma FixedIsValue(sh: Shell)
    requires sh.Fixed? && ShellOk(sh)
    ensures WellFormed(Leaf(sh)) && Encode(Leaf(sh)) == MpFixed(sh)
  {
    assert EncodeAll([]) == [];
  }

  lemma NumbersAreFixed(u: nat, i: int)
    requires u < TWO_64 && -TWO_63 <= i < TWO_63
    ensures UintShell(u).Fixed? && ShellOk(UintShell(u)) && IntShell(i).Fixed? && ShellOk(IntShell(i))
  {
    hide Be64;
  }

  lemma FieldIsValue(f: Field)
    requires Typed(f) && (f.StringField? ==> |f.s| < TWO_32 && Utf8.Valid(f.s)) && (f.BytesField? ==> |f.data| < TWO_32)
    ensures WellFormed(Leaf(FieldShell(f))) && Encode(Leaf(FieldShell(f))) == MpField(f)
  {
    hide WellFormed, Encode, UintShell, IntShell, Utf8.Valid, ShellOk;
    match f {
      case StringField(_, s) => StrIsValue(s);
      case BytesField(_, data) => BinIsValue(data);
      case UintField(_, u) =>
        NumbersAreFixed(u, 0);
        FixedIsValue(UintShell(u));
      case IntField(_, i) =>
        NumbersAreFixed(0, i);
        FixedIsValue(IntShell(i));
      case BoolField(_, flag) =>
        BoolIsFixed(flag);
        FixedIsValue(FieldShell(f));
    }
  }

  lemma BoolIsFixed(flag: bool)
    ensures ShellOk(Fixed(if flag then 0xC3 else 0xC2, []))
  {
  }

  /** Keys, strings and data short enough, keys and strings UTF-8: what holds of any output within the size. */
  predicate Encodable(f: Field) {
    && Typed(f) && |f.key| < TWO_32 && Utf8.Valid(f.key)
    && (f.StringField? ==> |f.s| < TWO_32 && Utf8.Valid(f.s)) && (f.BytesField? ==> |f.data| < TWO_32)
  }

  predicate AllEncodable(fields: seq<Field>) {
    forall i :: 0 <= i < |fields| ==> Encodable(fields[i])
  }

  lemma {:induction false} FieldsAreValues(fields: seq<Field>)
    requires AllEncodable(fields)
    ensures AllWellFormed(FieldValues(fields)) && EncodeAll(FieldValues(fields)) == FieldBytes(fields)
    ensures DepthOfAll(FieldValues(fields)) <= 1
  {
    hide WellFormed, Encode, MpStr, MpField, StrShell, FieldShell, Utf8.Valid;
    if fields != [] {
      var f, rest := fields[0], FieldValues(fields[1..]);
      assert Encodable(f);
      FieldsAreValues(fields[1..]);
      StrIsValue(f.key);
      FieldIsValue(f);
      TwoMore(Leaf(StrShell(f.key)), Leaf(FieldShell(f)), rest);
    }
  }

  lemma TwoMore(k: Value, v: Value, rest: seq<Value>)
    requires WellFormed(k) && WellFormed(v) && AllWellFormed(rest)
    ensures AllWellFormed([k, v] + rest) && EncodeAll([k, v] + rest) == Encode(k) + Encode(v) + EncodeAll(rest)
    ensures k.children == [] && v.children == [] && DepthOfAll(rest) <= 1 ==> DepthOfAll([k, v] + rest) <= 1
    ensures DepthOfAll([k, v] + rest) <= Max(Max(Depth(k), Depth(v)), DepthOfAll(rest))
  {
    hide WellFormed, Encode;
    var vs := [k, v] + rest;
    assert vs[1..] == [v] + rest && vs[1..][1..] == rest;
    assert EncodeAll(vs) == Encode(k) + EncodeAll(vs[1..]);
    assert EncodeAll(vs[1..]) == Encode(v) + EncodeAll(rest);
    assert DepthOfAll(vs[1..]) <= Max(Depth(v), DepthOfAll(rest));
  }

  function Max(a: nat, b: nat): nat { if a < b then b else a }

  lemma MapIsValue(n: nat, vs: seq<Value>)
    requires n < TWO_32 && |vs| == 2 * n && AllWellFormed(vs)
    ensures WellFormed(Value(MapShell(n), vs)) && Encode(Value(MapShell(n), vs)) == MpMap(n) + EncodeAll(vs)
    ensures Depth(Value(MapShell(n), vs)) == 1 + DepthOfAll(vs)
  {
    hide EncodeAll, AllWellFormed, Be, DepthOfAll;
    NoBytes(n);
  }

  /** The bytes of an audit context are those of its value, which nests three levels at most. */
  lemma OutputIsValue(kind: seq<byte>, fields: seq<Field>)
    requires |kind| < TWO_32 && Utf8.Valid(kind) && |fields| < TWO_32 && AllEncodable(fields)
    ensures WellFormed(ContextValue(kind, fields)) && Encode(ContextValue(kind, fields)) == Output(kind, fields)
    ensures Depth(ContextValue(kind, fields)) <= 3
  {
    hide WellFormed, Encode, MpStr, MpMap, FieldBytes, StrShell, Utf8.Valid, MapShell, FieldValues, AllEncodable, Encodable;
    var k, name := Leaf(StrShell(KIND)), Leaf(StrShell(kind));
    KindIsUtf8();
    StrIsValue(KIND);
    StrIsValue(kind);
    if fields == [] {
      KindAlone(k, name);
    } else {
      FieldsAreValues(fields);
      MapIsValue(|fields|, FieldValues(fields));
      KindAndBody(k, name, Value(MapShell(|fields|), FieldValues(fields)));
      Grouping(MpMap(2), MpStr(KIND), MpStr(kind), MpMap(|fields|), FieldBytes(fields));
    }
  }

  lemma Grouping(a: seq<byte>, k: seq<byte>, n: seq<byte>, m: seq<byte>, f: seq<byte>)
    ensures a + (k + n + (n + (m + f))) == a + k + n + n + m + f
  {
  }

  lemma KindAlone(k: Value, name: Value)
    requires WellFormed(k) && WellFormed(name) && Depth(k) == 1 && Depth(name) == 1
    ensures var v := Value(MapShell(1), [k, name]);
            WellFormed(v) && Encode(v) == MpMap(1) + Encode(k) + Encode(name) && Depth(v) <= 3
  {
    hide WellFormed, Encode, MpMap, MapShell, Depth;
    var none: seq<Value> := [];
    assert AllWellFormed(none) && EncodeAll(none) == [];
    TwoMore(k, name, none);
    assert [k, name] + none == [k, name];
    MapIsValue(1, [k, name]);
    Regroup(MpMap(1), Encode(k), Encode(name));
  }

  lemma KindAndBody(k: Value, name: Value, body: Value)
    requires WellFormed(k) && WellFormed(name) && WellFormed(body) && Depth(k) == 1 && Depth(name) == 1 && Depth(body) <= 2
    ensures var v := Value(MapShell(2), [k, name] + [name, body]);
            && WellFormed(v) && Depth(v) <= 3
            && Encode(v) == MpMap(2) + (Encode(k) + Encode(name) + (Encode(name) + Encode(body)))
  {
    hide WellFormed, Encode, MpMap, MapShell, Depth;
    var none: seq<Value> := [];
    assert AllWellFormed(none) && EncodeAll(none) == [];
    TwoMore(name, body, none);
    assert [name, body] + none == [name, body];
    TwoMore(k, name, [name, body]);
    MapIsValue(2, [k, name] + [name, body]);
  }

  lemma KindIsUtf8()
    ensures Utf8.Valid(KIND) && Segment(KIND)
  {
    Utf8.AsciiIsValid(KIND);
    AtWordIsWords(KIND);
    assert KIND[1..] == [0x69, 0x6E, 0x64] && KIND[1..][1..] == [0x6E, 0x64] && KIND[1..][1..][1..] == [0x64];
  }

  // --- what a context means --------------------------------------------

  /** Eight bytes, high byte first. */
  function ReadBe64(b: seq<byte>): (n: nat)
    requires |b| == 8
    ensures n < TWO_64
  {
    Word64([b[7], b[6], b[5], b[4], b[3], b[2], b[1], b[0]])
  }

  function Signed(n: nat, half: nat): int { if n < half then n else n - 2 * half }

  /** The integer a format denotes, by the specification's table. */
  function NumberOf(sh: Shell): Option<int>
    requires ShellOk(sh)
  {
    if !sh.Fixed? then None
    else if sh.tag <= 0x7F then Some(sh.tag as int)
    else if sh.tag >= 0xE0 then Some(sh.tag as int - 0x100)
    else if sh.tag == 0xCC then Some(ReadBe(sh.data, W8))
    else if sh.tag == 0xCD then Some(ReadBe(sh.data, W16))
    else if sh.tag == 0xCE then Some(ReadBe(sh.data, W32))
    else if sh.tag == 0xCF then Some(ReadBe64(sh.data))
    else if sh.tag == 0xD0 then Some(Signed(ReadBe(sh.data, W8), 0x80))
    else if sh.tag == 0xD1 then Some(Signed(ReadBe(sh.data, W16), 0x8000))
    else if sh.tag == 0xD2 then Some(Signed(ReadBe(sh.data, W32), 0x8000_0000))
    else if sh.tag == 0xD3 then Some(Signed(ReadBe64(sh.data), TWO_63))
    else None
  }

  lemma Be64Reads(n: int)
    requires -TWO_63 <= n < TWO_64
    ensures ReadBe64(Be64(n)) == if n < 0 then n + TWO_64 else n
  {
    var le := Le64(n);
    var b := Be64(n);
    assert [b[7], b[6], b[5], b[4], b[3], b[2], b[1], b[0]] == le;
    if n >= 0 {
      Word64OfLe64(n, []);
    } else {
      Signed64OfLe64(n, []);
    }
    assert le + [] == le;
  }

  lemma UintMeans(u: nat)
    requires u < TWO_64
    ensures ShellOk(UintShell(u)) && NumberOf(UintShell(u)) == Some(u)
  {
    NumbersAreFixed(u, 0);
    hide ReadBe, Be, ReadBe64, Be64;
    if 0x80 <= u < 0x100 {
      ReadBeWhole(u, W8);
    } else if 0x100 <= u < TWO_16 {
      ReadBeWhole(u, W16);
    } else if TWO_16 <= u < TWO_32 {
      ReadBeWhole(u, W32);
    } else if u >= TWO_32 {
      Be64Reads(u);
    }
  }

  lemma ReadBeWhole(n: nat, w: Width)
    requires n < Limit(w, 1)
    ensures ReadBe(Be(n, w), w) == n
  {
    ReadBeOfBe(n, w, []);
    assert Be(n, w) + [] == Be(n, w);
  }

  lemma IntMeans(i: int)
    requires -TWO_63 <= i < TWO_63
    ensures ShellOk(IntShell(i)) && NumberOf(IntShell(i)) == Some(i)
  {
    NumbersAreFixed(0, i);
    if i >= 0 {
      UintMeans(i);
    } else {
      hide Be, Be64, ReadBe64;
      if i >= -0x80 {
      } else if i >= -0x8000 {
        ReadBeWhole(i + TWO_16, W16);
      } else if i >= -0x8000_0000 {
        ReadBeWhole(i + TWO_32, W32);
      } else {
        Be64Reads(i);
      }
    }
  }

  /** No format spells an integer in fewer bytes than the encoder does. */
  lemma ShortestForm(sh: Shell)
    requires ShellOk(sh) && NumberOf(sh).Some?
    ensures var n := NumberOf(sh).value;
            && -TWO_63 <= n < TWO_64
            && var ours := if n < 0 then IntShell(n) else UintShell(n);
               ours.Fixed? && |ours.data| <= |sh.data|
  {
    hide Be, Be64, Low, Utf8.Valid;
  }

  datatype Scalar = Chars(s: seq<byte>) | Number(n: int) | Flag(flag: bool) | Octets(data: seq<byte>)

  /** What a caller's field says. */
  function Meaning(f: Field): Scalar {
    match f
    case StringField(_, s) => Chars(s)
    case UintField(_, u) => Number(u)
    case IntField(_, i) => Number(i)
    case BoolField(_, flag) => Flag(flag)
    case BytesField(_, data) => Octets(data)
  }

  /** What a reader makes of a scalar value. */
  function ScalarOf(v: Value): Option<Scalar> {
    if !ShellOk(v.shell) then None
    else if v.shell.Str? then Some(Chars(v.shell.s))
    else if v.shell.Bin? then Some(Octets(v.shell.data))
    else if v.shell == Fixed(0xC2, []) then Some(Flag(false))
    else if v.shell == Fixed(0xC3, []) then Some(Flag(true))
    else
      var n :- NumberOf(v.shell);
      Some(Number(n))
  }

  /** A field as read back: its key and what it says. */
  datatype Reading = Reading(key: seq<byte>, value: Scalar)

  function ReadFields(vs: seq<Value>): Option<seq<Reading>> {
    if |vs| < 2 then Some([])
    else if !vs[0].shell.Str? then None
    else
      var x :- ScalarOf(vs[1]);
      var rest :- ReadFields(vs[2..]);
      Some([Reading(vs[0].shell.s, x)] + rest)
  }

  /** A reference decoder of the shape: the kind, and the fields under its name. */
  function ReadContext(v: Value): Option<(seq<byte>, seq<Reading>)> {
    if !ContextShape(v) then None
    else if |v.children| == 2 then Some((v.children[1].shell.s, []))
    else if IsKind(v.children[0], v.children[1]) then
      var fields :- ReadFields(v.children[3].children);
      Some((v.children[1].shell.s, fields))
    else
      var fields :- ReadFields(v.children[1].children);
      Some((v.children[3].shell.s, fields))
  }

  function Readings(fields: seq<Field>): seq<Reading> {
    if fields == [] then [] else [Reading(fields[0].key, Meaning(fields[0]))] + Readings(fields[1..])
  }

  lemma FieldReads(f: Field)
    requires Encodable(f)
    ensures ScalarOf(Leaf(FieldShell(f))) == Some(Meaning(f))
  {
    hide UintShell, IntShell, NumberOf, Utf8.Valid;
    match f {
      case UintField(_, u) =>
        NumbersAreFixed(u, 0);
        UintMeans(u);
        NotABool(u, 0);
      case IntField(_, i) =>
        NumbersAreFixed(0, i);
        IntMeans(i);
        NotABool(0, i);
      case _ =>
    }
  }

  lemma NotABool(u: nat, i: int)
    requires u < TWO_64 && -TWO_63 <= i < TWO_63
    ensures UintShell(u) != Fixed(0xC2, []) && UintShell(u) != Fixed(0xC3, [])
    ensures IntShell(i) != Fixed(0xC2, []) && IntShell(i) != Fixed(0xC3, [])
  {
    hide Be, Be64;
  }

  lemma {:induction false} FieldsRead(fields: seq<Field>)
    requires AllEncodable(fields)
    ensures ReadFields(FieldValues(fields)) == Some(Readings(fields))
  {
    hide FieldShell, Encodable, ScalarOf, Meaning;
    if fields != [] {
      FieldReads(fields[0]);
      FieldsRead(fields[1..]);
      assert FieldValues(fields)[2..] == FieldValues(fields[1..]);
    }
  }

  /** Kind and keys are segments. */
  predicate Named(kind: seq<byte>, fields: seq<Field>) {
    Segment(kind) && forall i :: 0 <= i < |fields| ==> Segment(fields[i].key)
  }

  /**
   What the encoder writes has the kernel's shape unless the kind is itself "kind" and has fields: then the
   outer map would hold that key twice.
   */
  lemma WrittenShape(kind: seq<byte>, fields: seq<Field>)
    requires Named(kind, fields)
    ensures ContextShape(ContextValue(kind, fields)) <==> fields == [] || kind != KIND
  {
    hide Segment, FieldValues, FieldShell;
    var v := ContextValue(kind, fields);
    if fields != [] {
      forall j | 0 <= j < |fields|
        ensures Names(FieldValues(fields)[2 * j])
      {
        FieldValueAt(fields, j);
      }
      assert v.children[0] == Leaf(StrShell(KIND)) && v.children[2] == Leaf(StrShell(kind));
    }
  }

  /** The round trip: a reader recovers the kind, and every field in order with what it said. */
  lemma ContextReads(kind: seq<byte>, fields: seq<Field>)
    requires Named(kind, fields) && AllEncodable(fields) && (fields == [] || kind != KIND)
    ensures ReadContext(ContextValue(kind, fields)) == Some((kind, Readings(fields)))
  {
    WrittenShape(kind, fields);
    FieldsRead(fields);
    hide Segment, FieldValues, ReadFields, BodyShape;
  }

  // --- nothing shorter says the same -----------------------------------

  lemma StrAtLeast(v: Value)
    requires WellFormed(v) && v.shell.Str?
    ensures |MpStr(v.shell.s)| <= |Encode(v)|
  {
    hide Be, Utf8.Valid;
  }

  lemma BinAtLeast(v: Value)
    requires WellFormed(v) && v.shell.Bin?
    ensures |MpBin(v.shell.data)| <= |Encode(v)|
  {
    hide Be;
  }

  lemma MapAtLeast(v: Value)
    requires WellFormed(v) && v.shell.Map?
    ensures |MpMap(v.shell.n)| + |EncodeAll(v.children)| <= |Encode(v)|
  {
    hide Be, EncodeAll;
  }

  lemma FixedAtLeast(v: Value)
    requires WellFormed(v) && v.shell.Fixed?
    ensures 1 + |v.shell.data| <= |Encode(v)|
  {
  }

  /** A value that reads as a field does takes at least as many bytes. */
  lemma FieldAtLeast(v: Value, f: Field)
    requires WellFormed(v) && ScalarOf(v) == Some(Meaning(f))
    ensures |MpField(f)| <= |Encode(v)|
  {
    hide MpStr, MpBin, Encode, IntShell, UintShell, NumberOf, ShellOk;
    if v.shell.Str? {
      StrAtLeast(v);
    } else if v.shell.Bin? {
      BinAtLeast(v);
    } else if v.shell != Fixed(0xC2, []) && v.shell != Fixed(0xC3, []) {
      ShortestForm(v.shell);
      NumbersAreOne(f);
      NumberIsFixed(v.shell);
      FixedAtLeast(v);
    }
  }

  lemma NumberIsFixed(sh: Shell)
    requires ShellOk(sh) && NumberOf(sh).Some?
    ensures sh.Fixed?
  {
  }

  lemma NumbersAreOne(f: Field)
    ensures f.IntField? && f.i >= 0 ==> IntShell(f.i) == UintShell(f.i)
  {
    hide UintShell;
  }

  lemma {:induction false} FieldsAtLeast(vs: seq<Value>, fields: seq<Field>)
    requires AllWellFormed(vs) && ReadFields(vs) == Some(Readings(fields)) && |vs| % 2 == 0
    ensures |FieldBytes(fields)| <= |EncodeAll(vs)| && |vs| == 2 * |fields|
    decreases |vs|
  {
    hide MpStr, MpField, Encode, WellFormed, ScalarOf, Meaning;
    if |vs| >= 2 {
      assert AllWellFormed(vs[1..]) && vs[1..][1..] == vs[2..] && vs[1..][0] == vs[1];
      var x, rs := Reading(vs[0].shell.s, ScalarOf(vs[1]).value), ReadFields(vs[2..]).value;
      assert Readings(fields) == [x] + rs;
      assert fields != [] && Readings(fields)[0] == Reading(fields[0].key, Meaning(fields[0])) == x;
      assert Readings(fields)[1..] == Readings(fields[1..]) == rs;
      StrAtLeast(vs[0]);
      FieldAtLeast(vs[1], fields[0]);
      FieldsAtLeast(vs[2..], fields[1..]);
      assert |EncodeAll(vs)| == |Encode(vs[0])| + |EncodeAll(vs[1..])|;
    }
  }

  lemma FourLong(vs: seq<Value>)
    requires |vs| == 4 && AllWellFormed(vs)
    ensures WellFormed(vs[0]) && WellFormed(vs[1]) && WellFormed(vs[2]) && WellFormed(vs[3])
    ensures |EncodeAll(vs)| == |Encode(vs[0])| + |Encode(vs[1])| + |Encode(vs[2])| + |Encode(vs[3])|
  {
    hide WellFormed, Encode;
    TwoLong(vs[2..]);
    assert vs[1..][1..] == vs[2..] && vs[1..][0] == vs[1];
    assert AllWellFormed(vs[1..]) && AllWellFormed(vs[2..]);
  }

  lemma TwoLong(vs: seq<Value>)
    requires |vs| == 2
    ensures AllWellFormed(vs) <==> WellFormed(vs[0]) && WellFormed(vs[1])
    ensures AllWellFormed(vs) ==> |EncodeAll(vs)| == |Encode(vs[0])| + |Encode(vs[1])|
  {
    hide WellFormed, Encode;
    assert vs[1..][1..] == [] && vs[1..][0] == vs[1];
    assert AllWellFormed(vs[1..]) <==> WellFormed(vs[1]);
    if AllWellFormed(vs) {
      assert EncodeAll(vs[1..]) == Encode(vs[1]) + EncodeAll([]);
    }
  }

  lemma BodyAtLeast(v: Value, fields: seq<Field>)
    requires WellFormed(v) && BodyShape(v) && ReadFields(v.children) == Some(Readings(fields))
    ensures |MpMap(|fields|)| + |FieldBytes(fields)| <= |Encode(v)| && fields != []
  {
    hide MpMap, FieldBytes, Encode, EncodeAll, ReadFields, Names;
    MapAtLeast(v);
    FieldsAtLeast(v.children, fields);
  }

  /** The encoder is sparing: no value of the grammar from which a reader gets the same kind and fields is shorter. */
  lemma ShortestContext(v: Value, kind: seq<byte>, fields: seq<Field>)
    requires WellFormed(v) && ReadContext(v) == Some((kind, Readings(fields)))
    ensures |Output(kind, fields)| <= |Encode(v)|
  {
    hide MpStr, MpMap, FieldBytes, Encode, EncodeAll, ReadFields, BodyShape, Segment, WellFormed, AllWellFormed;
    var c := v.children;
    ChildrenFine(v);
    MapAtLeast(v);
    if |c| == 2 {
      TwoLong(c);
      StrAtLeast(c[0]);
      StrAtLeast(c[1]);
    } else {
      FourLong(c);
      var at := if IsKind(c[0], c[1]) then 0 else 2;
      StrAtLeast(c[at]);
      StrAtLeast(c[at + 1]);
      StrAtLeast(c[2 - at]);
      BodyAtLeast(c[3 - at], fields);
    }
  }

  lemma ChildrenFine(v: Value)
    requires WellFormed(v)
    ensures AllWellFormed(v.children)
  {
  }

  // --- the encoder -----------------------------------------------------

  predicate DistinctKeys(fields: seq<Field>) {
    forall i, j :: 0 <= i < j < |fields| ==> fields[i].key != fields[j].key
  }

  predicate TextsValid(fields: seq<Field>) {
    forall i :: 0 <= i < |fields| && fields[i].StringField? ==> Utf8.Valid(fields[i].s)
  }

  /** Exactly what EncodeAuditContext takes. */
  predicate Encodes(kind: seq<byte>, fields: seq<Field>) {
    && Named(kind, fields) && DistinctKeys(fields) && TextsValid(fields)
    && |Output(kind, fields)| <= MAX_LENGTH
    && (fields == [] || kind != KIND)
  }

  lemma {:induction false} FieldBytesAreMany(fields: seq<Field>)
    ensures |fields| <= |FieldBytes(fields)|
    ensures forall i :: 0 <= i < |fields| ==> |fields[i].key| + |MpField(fields[i])| < |FieldBytes(fields)|
  {
    hide MpField;
    if fields != [] {
      FieldBytesAreMany(fields[1..]);
      forall i | 0 <= i < |fields|
        ensures |fields[i].key| + |MpField(fields[i])| < |FieldBytes(fields)|
      {
        if i > 0 {
          assert fields[i] == fields[1..][i - 1];
        }
      }
    }
  }

  /** Output within the size has only lengths that fit. */
  lemma SmallOutput(kind: seq<byte>, fields: seq<Field>)
    requires |Output(kind, fields)| <= MAX_LENGTH && Named(kind, fields) && TextsValid(fields)
    requires forall i :: 0 <= i < |fields| ==> Typed(fields[i])
    ensures |kind| < TWO_32 && |fields| < TWO_32 && Utf8.Valid(kind) && AllEncodable(fields)
  {
    hide Segment, Utf8.Valid;
    SegmentIsUtf8(kind);
    FieldBytesAreMany(fields);
    forall i | 0 <= i < |fields|
      ensures Encodable(fields[i])
    {
      SegmentIsUtf8(fields[i].key);
      assert fields[i].StringField? ==> |fields[i].s| <= |MpField(fields[i])|;
      assert fields[i].BytesField? ==> |fields[i].data| <= |MpField(fields[i])|;
    }
  }

  /** What was written is acceptable to the kernel, but for the repeated key. */
  lemma OutputAcceptable(kind: seq<byte>, fields: seq<Field>)
    requires |Output(kind, fields)| <= MAX_LENGTH && Named(kind, fields) && TextsValid(fields)
    requires forall i :: 0 <= i < |fields| ==> Typed(fields[i])
    ensures Acceptable(Output(kind, fields)) <==> fields == [] || kind != KIND
  {
    hide Output, Named, TextsValid, ContextValue, WellFormed, Encode, ContextShape, Depth, AllEncodable;
    SmallOutput(kind, fields);
    OutputIsValue(kind, fields);
    WrittenShape(kind, fields);
    var b, v := Output(kind, fields), ContextValue(kind, fields);
    assert |b| >= 1;
    if fields == [] || kind != KIND {
      assert WellFormed(v) && Encode(v) == b && ContextShape(v) && Depth(v) <= MAX_DEPTH;
    }
    if Acceptable(b) {
      var u: Value :| WellFormed(u) && Encode(u) == b && ContextShape(u) && Depth(u) <= MAX_DEPTH;
      assert Encode(u) + [] == Encode(v) + [];
      Unambiguous(u, v, [], []);
    }
  }

  /** EncodeAuditContext: the context's bytes, exactly when it can be encoded. */
  method EncodeAuditContext(kind: seq<byte>, fields: seq<Field>) returns (r: Option<seq<byte>>)
    requires forall i :: 0 <= i < |fields| ==> Typed(fields[i])
    ensures r == if Encodes(kind, fields) then Some(Output(kind, fields)) else None
  {
    hide Segment, Utf8.Valid, Acceptable, MpStr, MpMap, MpField;
    var kindOk := IsEventSegment(kind);
    if !kindOk {
      return None;
    }
    var checked := CheckFields(fields);
    if !checked {
      return None;
    }
    var out := MpMap(if |fields| == 0 then 1 else 2);
    out := out + MpStr(KIND);
    out := out + MpStr(kind);
    if |fields| > 0 {
      out := out + MpStr(kind);
      out := out + MpMap(|fields|);
      out := AppendFields(out, fields);
    }
    assert out == Output(kind, fields);
    if |out| > MAX_LENGTH {
      return None;
    }
    OutputAcceptable(kind, fields);
    var valid := ValidateAuditContext(out);
    r := if valid then Some(out) else None;
  }

  /** The first loop of EncodeAuditContext: every key a segment and new, every string UTF-8. */
  method CheckFields(fields: seq<Field>) returns (ok: bool)
    ensures ok <==> (forall i :: 0 <= i < |fields| ==> Segment(fields[i].key)) && DistinctKeys(fields) && TextsValid(fields)
  {
    hide Segment, Utf8.Valid;
    var seen: set<seq<byte>> := {};
    for i := 0 to |fields|
      invariant forall j :: 0 <= j < i ==> Segment(fields[j].key) && fields[j].key in seen
      invariant forall k :: k in seen ==> exists j :: 0 <= j < i && fields[j].key == k
      invariant forall j, k :: 0 <= j < k < i ==> fields[j].key != fields[k].key
      invariant forall j :: 0 <= j < i && fields[j].StringField? ==> Utf8.Valid(fields[j].s)
    {
      var f := fields[i];
      var segment := IsEventSegment(f.key);
      if !segment {
        return false;
      }
      if f.key in seen {
        return false;
      }
      seen := seen + {f.key};
      if f.StringField? && !Utf8.Valid(f.s) {
        return false;
      }
    }
    ok := true;
  }

  method AppendFields(start: seq<byte>, fields: seq<Field>) returns (out: seq<byte>)
    ensures out == start + FieldBytes(fields)
  {
    hide MpStr, MpField;
    out := start;
    assert fields[0..] == fields;
    for i := 0 to |fields|
      invariant out + FieldBytes(fields[i..]) == start + FieldBytes(fields)
    {
      assert fields[i..][1..] == fields[i + 1..];
      var key, value := MpStr(fields[i].key), MpField(fields[i]);
      Regroup(out, key + value, FieldBytes(fields[i + 1..]));
      Regroup(out, key, value);
      out := out + key;
      out := out + value;
    }
    assert out + [] == out;
  }

  /**
   The encoder's theorem. Whatever it takes, the kernel accepts, and a reader of the bytes recovers the kind
   and every field in order.
   */
  lemma EncodedContextReads(kind: seq<byte>, fields: seq<Field>)
    requires Encodes(kind, fields) && forall i :: 0 <= i < |fields| ==> Typed(fields[i])
    ensures Acceptable(Output(kind, fields))
    ensures Read(Output(kind, fields)).Some? && ReadContext(Read(Output(kind, fields)).value.0) == Some((kind, Readings(fields)))
  {
    hide Output, ContextValue, WellFormed, Encode, Read, ReadContext, AllEncodable;
    SmallOutput(kind, fields);
    OutputAcceptable(kind, fields);
    OutputIsValue(kind, fields);
    ContextReads(kind, fields);
    GrammarIsRead(ContextValue(kind, fields), []);
    assert Encode(ContextValue(kind, fields)) + [] == Encode(ContextValue(kind, fields));
  }
}
