/** Claim attributes: a two-pass layout with offsets filled in afterwards (sd/claims.go). */
module Claims {
  import opened Wrappers
  import opened Bytes
  import opened Sid
  import opened Utf16

  datatype Kind = Int64 | UInt64 | Boolean | Text | SidKind | Octets

  datatype ClaimValue =
    | IntValue(i: int)
    | UintValue(u: nat)
    | BoolValue(b: bool)
    | TextValue(s: string)
    | SidValue(sid: SID)
    | OctetValue(data: seq<byte>)

  /** A named, flagged, multi-valued attribute. */
  datatype Claim = Claim(name: string, flags: u32, values: seq<ClaimValue>)

  function KindOf(v: ClaimValue): Kind {
    match v
    case IntValue(_) => Int64 case UintValue(_) => UInt64 case BoolValue(_) => Boolean
    case TextValue(_) => Text case SidValue(_) => SidKind case OctetValue(_) => Octets
  }

  /** The type codes of CLAIM_SECURITY_ATTRIBUTE_RELATIVE_V1 (section 2.4.10.1 of MS-DTYP). */
  function TypeCode(k: Kind): nat {
    match k case Int64 => 1 case UInt64 => 2 case Text => 3 case SidKind => 5 case Boolean => 6 case Octets => 0x10
  }

  function KindOfCode(code: nat): (k: Option<Kind>)
    ensures forall kind :: k == Some(kind) <==> code == TypeCode(kind)
  {
    if code == 1 then Some(Int64) else if code == 2 then Some(UInt64) else if code == 3 then Some(Text)
    else if code == 5 then Some(SidKind) else if code == 6 then Some(Boolean) else if code == 0x10 then Some(Octets)
    else None
  }

  /** Kinds whose slot holds a pointer. */
  predicate Indirect(k: Kind) { k.Text? || k.SidKind? || k.Octets? }

  function SlotSize(k: Kind): nat { if Indirect(k) then 4 else 8 }

  predicate SameKind(vs: seq<ClaimValue>, k: Kind) {
    forall i :: 0 <= i < |vs| ==> KindOf(vs[i]) == k
  }

  // --- layout ----------------------------------------------------------

  function Terminated(s: string): seq<byte> { Utf16le(s) + [0, 0] }

  /** What an indirect slot points at. */
  function Data(v: ClaimValue): seq<byte> {
    match v
    case TextValue(s) => Terminated(s)
    case SidValue(sid) => Encoded(sid)
    case OctetValue(data) => Le32(|data|) + data
    case _ => []
  }

  /** A slot: the datum itself, or where its data is. */
  function Slot(v: ClaimValue, ptr: nat): (b: seq<byte>)
    ensures |b| == SlotSize(KindOf(v))
  {
    match v
    case IntValue(i) => Le64(i)
    case UintValue(u) => Le64(u)
    case BoolValue(b) => Le64(if b then 1 else 0)
    case _ => Le32(ptr)
  }

  function Slots(vs: seq<ClaimValue>, ptr: nat): seq<byte> {
    if vs == [] then [] else Slot(vs[0], ptr) + Slots(vs[1..], ptr + |Data(vs[0])|)
  }

  function Datas(vs: seq<ClaimValue>): seq<byte> {
    if vs == [] then [] else Data(vs[0]) + Datas(vs[1..])
  }

  /** Where `n` slots of `size` bytes from `at` on begin. */
  function Offsets(n: nat, at: nat, size: nat): (b: seq<byte>)
    ensures |b| == 4 * n
  {
    if n == 0 then [] else Le32(at) + Offsets(n - 1, at + size, size)
  }

  function Header(nameOff: nat, code: nat, flags: u32, count: nat): (b: seq<byte>)
    ensures |b| == 16
  {
    Le32(nameOff) + Le16(code) + [0, 0] + Le32(flags as int) + Le32(count)
  }

  /** Header, slot offsets, name, slots, data. */
  function Layout(c: Claim, k: Kind): seq<byte> {
    var n := |c.values|;
    var nameOff := 16 + 4 * n;
    var slotsAt := nameOff + |Terminated(c.name)|;
    var dataAt := slotsAt + n * SlotSize(k);
    Header(nameOff, TypeCode(k), c.flags, n) + Offsets(n, slotsAt, SlotSize(k)) + Terminated(c.name)
    + Slots(c.values, dataAt) + Datas(c.values)
  }

  /** The bytes of a claim; None when it has no values or they are not all of one kind. */
  function Encode(c: Claim): Option<seq<byte>> {
    if c.values == [] || !SameKind(c.values, KindOf(c.values[0])) then None
    else Some(Layout(c, KindOf(c.values[0])))
  }

  // --- a reference reader ----------------------------------------------

  /** The units up to the first zero. */
  function UntilNul(us: seq<unit>): (r: seq<unit>)
    ensures |r| <= |us|
  {
    if us == [] || us[0] == 0 then [] else [us[0]] + UntilNul(us[1..])
  }

  function TextAt(b: seq<byte>, off: nat): Option<string> {
    if off > |b| then None else Some(Decode(UntilNul(FromBytes(b[off..]))))
  }

  function ReadPointed(b: seq<byte>, ptr: nat, k: Kind): Option<ClaimValue> {
    if ptr > |b| then None
    else if k == Text then
      var s :- TextAt(b, ptr);
      Some(TextValue(s))
    else if k == SidKind then
      var sid :- ParseSID(b[ptr..]);
      Some(SidValue(sid))
    else if ptr + 4 > |b| || ptr + 4 + Word32(b[ptr..]) > |b| then None
    else Some(OctetValue(b[ptr + 4..ptr + 4 + Word32(b[ptr..])]))
  }

  /** The value whose slot is at `off`. */
  function ReadValue(b: seq<byte>, off: nat, k: Kind): Option<ClaimValue> {
    if off + SlotSize(k) > |b| then None
    else
      match k
      case Int64 => Some(IntValue(Signed64(Word64(b[off..]))))
      case UInt64 => Some(UintValue(Word64(b[off..])))
      case Boolean => Some(BoolValue(Word64(b[off..]) != 0))
      case _ => ReadPointed(b, Word32(b[off..]), k)
  }

  /** The values whose offsets are listed from `at` on. */
  function ReadValues(b: seq<byte>, at: nat, count: nat, k: Kind): Option<seq<ClaimValue>>
    decreases count
  {
    if count == 0 then Some([])
    else if at + 4 > |b| then None
    else
      var v :- ReadValue(b, Word32(b[at..]), k);
      var rest :- ReadValues(b, at + 4, count - 1, k);
      Some([v] + rest)
  }

  /** A claim, following its header, offsets and pointers. */
  function Read(b: seq<byte>): Option<Claim> {
    if |b| < 16 then None
    else
      var k :- KindOfCode(Word16(b[4..]));
      var name :- TextAt(b, Word32(b));
      var values :- ReadValues(b, 16, Word32(b[12..]), k);
      Some(Claim(name, Word32(b[8..]) as u32, values))
  }

  // --- round trip ------------------------------------------------------

  predicate NulFree(s: string) {
    forall i :: 0 <= i < |s| ==> s[i] != '\0'
  }

  /** A value a reader can tell from its bytes. */
  predicate Legible(v: ClaimValue) {
    match v
    case IntValue(i) => -TWO_63 <= i < TWO_63
    case UintValue(u) => u < TWO_64
    case BoolValue(_) => true
    case TextValue(s) => NulFree(s)
    case SidValue(sid) => IsValid(sid)
    case OctetValue(_) => true
  }

  lemma {:induction false} UnitsNotZero(s: string)
    requires NulFree(s)
    ensures forall i :: 0 <= i < |Utf16.Encode(s)| ==> Utf16.Encode(s)[i] != 0
  {
    if s != "" {
      UnitsNotZero(s[1..]);
      assert Units(s[0])[0] != 0;
    }
  }

  lemma {:induction false} UntilNulOf(us: seq<unit>, rest: seq<unit>)
    requires (forall i :: 0 <= i < |us| ==> us[i] != 0) && rest != [] && rest[0] == 0
    ensures UntilNul(us + rest) == us
  {
    if us == [] {
      assert us + rest == rest;
    } else {
      UntilNulOf(us[1..], rest);
      assert (us + rest)[1..] == us[1..] + rest;
    }
  }

  lemma {:induction false} FromBytesAppend(us: seq<unit>, rest: seq<byte>)
    ensures FromBytes(ToBytes(us) + rest) == us + FromBytes(rest)
  {
    hide Le16, Word16;
    if us == [] {
      assert ToBytes(us) + rest == rest;
    } else {
      hide FromBytes;
      FromBytesAppend(us[1..], rest);
      var tail := ToBytes(us[1..]);
      assert ToBytes(us) == Le16(us[0]) + tail;
      hide ToBytes;
      assert Le16(us[0]) + tail + rest == Le16(us[0]) + (tail + rest);
      FirstUnit(us[0], tail + rest);
      assert us == [us[0]] + us[1..];
      assert [us[0]] + (us[1..] + FromBytes(rest)) == us + FromBytes(rest);
    }
  }

  lemma FirstUnit(u: unit, tail: seq<byte>)
    ensures FromBytes(Le16(u) + tail) == [u] + FromBytes(tail)
  {
    hide Le16, Word16;
    Word16OfLe16(u, tail);
    assert (Le16(u) + tail)[2..] == tail;
  }

  /** Terminated text is read back up to its terminator. */
  lemma TextBack(b: seq<byte>, off: nat, s: string, rest: seq<byte>)
    requires NulFree(s) && off <= |b| && b[off..] == Terminated(s) + rest
    ensures TextAt(b, off) == Some(s)
  {
    var us := Utf16.Encode(s);
    var tail := [0, 0] + rest;
    assert Terminated(s) + rest == ToBytes(us) + tail;
    FromBytesAppend(us, tail);
    assert Le16(0) == [0, 0];
    Word16OfLe16(0, rest);
    UnitsNotZero(s);
    hide ToBytes, Le16, Word16, Utf16.Encode;
    UntilNulOf(us, FromBytes(tail));
    DecodeOfEncode(s);
  }

  lemma SignedBack(i: int, rest: seq<byte>)
    requires -TWO_63 <= i < TWO_63
    ensures Signed64(Word64(Le64(i) + rest)) == i
  {
    Signed64OfLe64(i, rest);
  }

  /** What a slot and its data say is read back, wherever they are. */
  lemma ValueBack(b: seq<byte>, v: ClaimValue, off: nat, ptr: nat, afterSlot: seq<byte>, afterData: seq<byte>)
    requires Legible(v) && ptr < TWO_32 && |Data(v)| < TWO_32
    requires off <= |b| && b[off..] == Slot(v, ptr) + afterSlot
    requires ptr <= |b| && b[ptr..] == Data(v) + afterData
    ensures ReadValue(b, off, KindOf(v)) == Some(v)
  {
    hide Le32, Le64, Word32, Word64, TextAt, ParseSID, Terminated, Signed64;
    match v {
      case IntValue(i) => SignedBack(i, afterSlot);
      case UintValue(u) => Word64OfLe64(u, afterSlot);
      case BoolValue(flag) => Word64OfLe64(if flag then 1 else 0, afterSlot);
      case TextValue(s) =>
        Word32Exact(ptr, afterSlot);
        TextBack(b, ptr, s, afterData);
      case SidValue(sid) =>
        Word32Exact(ptr, afterSlot);
        ParseOfEncoded(sid, afterData);
      case OctetValue(data) =>
        Word32Exact(ptr, afterSlot);
        OctetsBack(b, ptr, data, afterData);
    }
  }

  lemma Word32Exact(n: nat, rest: seq<byte>)
    requires n < TWO_32
    ensures Word32(Le32(n) + rest) == n
  {
    Word32OfLe32(n, rest);
  }

  lemma OctetsBack(b: seq<byte>, ptr: nat, data: seq<byte>, rest: seq<byte>)
    requires |data| < TWO_32 && ptr <= |b| && b[ptr..] == Le32(|data|) + data + rest
    ensures ptr + 4 + |data| <= |b| && Word32(b[ptr..]) == |data| && b[ptr + 4..ptr + 4 + |data|] == data
  {
    hide Le32, Word32;
    Word32Exact(|data|, data + rest);
    assert Le32(|data|) + data + rest == Le32(|data|) + (data + rest);
    assert b[ptr + 4..] == data + rest;
    assert b[ptr + 4..ptr + 4 + |data|] == b[ptr + 4..][..|data|];
  }

  predicate AllLegible(vs: seq<ClaimValue>) {
    forall i :: 0 <= i < |vs| ==> Legible(vs[i])
  }

  /** Reading past a prefix. */
  lemma Beyond(b: seq<byte>, off: nat, a: seq<byte>, rest: seq<byte>)
    requires off <= |b| && b[off..] == a + rest
    ensures off + |a| <= |b| && b[off + |a|..] == rest
  {
    assert b[off + |a|..] == b[off..][|a|..];
  }

  lemma {:induction false} ValuesBack(b: seq<byte>, vs: seq<ClaimValue>, k: Kind, at: nat, off: nat, ptr: nat,
                                      r1: seq<byte>, r2: seq<byte>, r3: seq<byte>)
    requires SameKind(vs, k) && AllLegible(vs) && |b| < TWO_32
    requires at <= |b| && b[at..] == Offsets(|vs|, off, SlotSize(k)) + r1
    requires off <= |b| && b[off..] == Slots(vs, ptr) + r2
    requires ptr <= |b| && b[ptr..] == Datas(vs) + r3
    ensures ReadValues(b, at, |vs|, k) == Some(vs)
  {
    hide Le32, Word32, Slot, Data, Legible, ReadValue, Offsets, Slots, Datas, SlotSize;
    if vs != [] {
      var v, more := vs[0], vs[1..];
      var offs, slots, datas := Offsets(|more|, off + SlotSize(k), SlotSize(k)), Slots(more, ptr + |Data(v)|), Datas(more);
      FirstParts(vs, off, SlotSize(k), ptr);
      assert KindOf(v) == k;
      BeyondFirst(b, at, Le32(off), offs, r1);
      BeyondFirst(b, off, Slot(v, ptr), slots, r2);
      BeyondFirst(b, ptr, Data(v), datas, r3);
      Word32Exact(off, offs + r1);
      ValueBack(b, v, off, ptr, slots + r2, datas + r3);
      ValuesBack(b, more, k, at + 4, off + SlotSize(k), ptr + |Data(v)|, r1, r2, r3);
      assert vs == [v] + more;
    }
  }

  /** The three regions of a list of values, by their first value. */
  lemma FirstParts(vs: seq<ClaimValue>, off: nat, size: nat, ptr: nat)
    requires vs != []
    ensures Offsets(|vs|, off, size) == Le32(off) + Offsets(|vs[1..]|, off + size, size)
    ensures Slots(vs, ptr) == Slot(vs[0], ptr) + Slots(vs[1..], ptr + |Data(vs[0])|)
    ensures Datas(vs) == Data(vs[0]) + Datas(vs[1..])
  {
    hide Le32, Slot, Data;
  }

  lemma BeyondFirst(b: seq<byte>, off: nat, a: seq<byte>, c: seq<byte>, rest: seq<byte>)
    requires off <= |b| && b[off..] == a + c + rest
    ensures off + |a| <= |b| && b[off..] == a + (c + rest) && b[off + |a|..] == c + rest
  {
    assert a + c + rest == a + (c + rest);
    Beyond(b, off, a, c + rest);
  }

  lemma {:induction false} SlotsLength(vs: seq<ClaimValue>, k: Kind, ptr: nat)
    requires SameKind(vs, k)
    ensures |Slots(vs, ptr)| == |vs| * SlotSize(k)
  {
    hide Slot, Data;
    if vs != [] {
      assert KindOf(vs[0]) == k;
      SlotsLength(vs[1..], k, ptr + |Data(vs[0])|);
      assert |vs| * SlotSize(k) == SlotSize(k) + |vs[1..]| * SlotSize(k);
    }
  }

  lemma HeaderWords(nameOff: nat, code: nat, flags: u32, count: nat, rest: seq<byte>)
    requires nameOff < TWO_32 && code < TWO_16 && count < TWO_32
    ensures var b := Header(nameOff, code, flags, count) + rest;
            && Word32(b) == nameOff && Word16(b[4..]) == code && Word32(b[8..]) == flags as int
            && Word32(b[12..]) == count && b[16..] == rest
  {
    hide Le16, Le32, Word16, Word32;
    var b := Header(nameOff, code, flags, count) + rest;
    var d := Le32(count) + rest;
    var c := Le32(flags as int) + d;
    var e := Le16(code) + ([0, 0] + c);
    assert b == Le32(nameOff) + e && b[4..] == e && b[8..] == c && b[12..] == d;
    Word32Exact(nameOff, e);
    Word16OfLe16(code, [0, 0] + c);
    Word32Exact(flags as int, d);
    Word32Exact(count, rest);
  }

  /** A reader of an encoded claim recovers its name, kind, flags and all values in order. */
  lemma RoundTrip(c: Claim)
    requires Encode(c).Some? && |Encode(c).value| < TWO_32 && NulFree(c.name) && AllLegible(c.values)
    ensures Read(Encode(c).value) == Some(c)
  {
    hide Header, Le32, Word32, Word16, Terminated, Slots, Datas, AllLegible, NulFree, TextAt, ReadValues, Offsets, SlotSize, SameKind;
    var k := KindOf(c.values[0]);
    var n, b := |c.values|, Layout(c, k);
    var nameOff := 16 + 4 * n;
    var name := Terminated(c.name);
    var slotsAt := nameOff + |name|;
    SlotsLength(c.values, k, slotsAt + n * SlotSize(k));
    var dataAt := slotsAt + n * SlotSize(k);
    var offs, slots, datas := Offsets(n, slotsAt, SlotSize(k)), Slots(c.values, dataAt), Datas(c.values);
    Sections(Header(nameOff, TypeCode(k), c.flags, n), offs, name, slots, datas);
    HeaderWords(nameOff, TypeCode(k), c.flags, n, offs + (name + (slots + datas)));
    TextBack(b, nameOff, c.name, slots + datas);
    assert datas + [] == datas;
    ValuesBack(b, c.values, k, 16, slotsAt, dataAt, name + (slots + datas), datas, []);
  }

  lemma Sections(h: seq<byte>, o: seq<byte>, n: seq<byte>, s: seq<byte>, d: seq<byte>)
    requires |h| == 16
    ensures var b := h + o + n + s + d;
            && b == h + (o + (n + (s + d))) && b[16..] == o + (n + (s + d))
            && b[16 + |o|..] == n + (s + d) && b[16 + |o| + |n|..] == s + d && b[16 + |o| + |n| + |s|..] == d
  {
  }

  // --- the encoder -----------------------------------------------------

  /** Slots before their pointers are known. */
  function Blanks(vs: seq<ClaimValue>): seq<byte> {
    if vs == [] then [] else Slot(vs[0], 0) + Blanks(vs[1..])
  }

  lemma {:induction false} BlanksAppend(vs: seq<ClaimValue>, v: ClaimValue)
    ensures Blanks(vs + [v]) == Blanks(vs) + Slot(v, 0)
  {
    hide Slot;
    assert Blanks(vs + [v]) == Slot((vs + [v])[0], 0) + Blanks((vs + [v])[1..]);
    if vs == [] {
      assert (vs + [v])[1..] == [];
    } else {
      BlanksAppend(vs[1..], v);
      assert (vs + [v])[1..] == vs[1..] + [v] && (vs + [v])[0] == vs[0];
      assert Blanks(vs) == Slot(vs[0], 0) + Blanks(vs[1..]);
    }
  }

  lemma {:induction false} SlotsAppend(vs: seq<ClaimValue>, v: ClaimValue, ptr: nat)
    ensures Slots(vs + [v], ptr) == Slots(vs, ptr) + Slot(v, ptr + |Datas(vs)|)
    ensures Datas(vs + [v]) == Datas(vs) + Data(v)
  {
    hide Slot, Data, Slots, Datas;
    var all := vs + [v];
    FirstParts(all, 0, 0, ptr);
    NoSlots(ptr);
    if vs == [] {
      NoSlots(ptr + |Data(v)|);
      assert all[1..] == [] && all[0] == v;
    } else {
      SlotsAppend(vs[1..], v, ptr + |Data(vs[0])|);
      assert all[1..] == vs[1..] + [v] && all[0] == vs[0];
      FirstParts(vs, 0, 0, ptr);
    }
  }

  lemma {:induction false} DirectSlots(vs: seq<ClaimValue>, k: Kind, ptr: nat)
    requires SameKind(vs, k) && !Indirect(k)
    ensures Slots(vs, ptr) == Blanks(vs) && Datas(vs) == []
  {
    hide Le64;
    if vs != [] {
      assert KindOf(vs[0]) == k;
      DirectSlots(vs[1..], k, ptr + |Data(vs[0])|);
    }
  }

  lemma {:induction false} OffsetsAppend(n: nat, at: nat, size: nat)
    ensures Offsets(n + 1, at, size) == Offsets(n, at, size) + Le32(at + n * size)
    decreases n
  {
    hide Le32;
    if n > 0 {
      OffsetsAppend(n - 1, at + size, size);
      assert at + size + (n - 1) * size == at + n * size;
    } else {
      assert Offsets(1, at, size) == Le32(at) + Offsets(0, at + size, size);
    }
  }

  /** Claim.Encode: slots are laid out, indirect data follows, and pointers, header and offsets are filled in. */
  method EncodeClaim(c: Claim) returns (r: Option<seq<byte>>)
    ensures r == Encode(c)
  {
    hide Layout, SameKind;
    if |c.values| == 0 {
      return None;
    }
    var k := KindOf(c.values[0]);
    var same := OfOneKind(c.values, k);
    if !same {
      return None;
    }
    var payload := Build(c, k);
    r := Some(payload);
  }

  method OfOneKind(vs: seq<ClaimValue>, k: Kind) returns (same: bool)
    ensures same == SameKind(vs, k)
  {
    for i := 0 to |vs|
      invariant SameKind(vs[..i], k)
    {
      if KindOf(vs[i]) != k {
        return false;
      }
    }
    assert vs[..|vs|] == vs;
    same := true;
  }

  method Build(c: Claim, k: Kind) returns (payload: seq<byte>)
    requires SameKind(c.values, k)
    ensures payload == Layout(c, k)
  {
    hide Header, Zeros, Terminated, Slots, Blanks, Datas, Offsets, SlotSize, SameKind;
    var n := |c.values|;
    var nameOff := 16 + 4 * n;
    var prefix := Zeros(nameOff) + Terminated(c.name);
    var offsets;
    payload, offsets := LaySlots(prefix, c.values, k);
    payload := FillPointers(prefix, c.values, k, payload);
    var slotsAt := nameOff + |Terminated(c.name)|;
    assert |prefix| == slotsAt;
    ghost var slots, datas := Slots(c.values, slotsAt + n * SlotSize(k)), Datas(c.values);
    ghost var rest := Terminated(c.name) + slots + datas;
    MoreZeros(16, 4 * n);
    Regroup([], Zeros(16), Zeros(4 * n), rest, []);
    assert payload == Zeros(16) + (Zeros(4 * n) + rest);
    payload := FillHeader(payload, Zeros(4 * n) + rest, nameOff, TypeCode(k), c.flags, n);
    payload := FillOffsets(payload, Header(nameOff, TypeCode(k), c.flags, n), rest, offsets, slotsAt, SlotSize(k));
    Regroup(Header(nameOff, TypeCode(k), c.flags, n), Offsets(n, slotsAt, SlotSize(k)), Terminated(c.name), slots, datas);
  }

  lemma Regroup(h: seq<byte>, o: seq<byte>, n: seq<byte>, s: seq<byte>, d: seq<byte>)
    ensures h + o + (n + s + d) == h + o + n + s + d
  {
  }

  /** The first loop: a slot per value, pointers still zero, and where each slot went. */
  method LaySlots(prefix: seq<byte>, vs: seq<ClaimValue>, k: Kind) returns (payload: seq<byte>, offsets: seq<nat>)
    requires SameKind(vs, k)
    ensures payload == prefix + Blanks(vs)
    ensures |offsets| == |vs| && forall i :: 0 <= i < |vs| ==> offsets[i] == |prefix| + i * SlotSize(k)
  {
    hide Slot, SlotSize, Blanks;
    payload := prefix;
    offsets := [];
    NoSlots(0);
    for i := 0 to |vs|
      invariant payload == prefix + Blanks(vs[..i])
      invariant |offsets| == i && forall j :: 0 <= j < i ==> offsets[j] == |prefix| + j * SlotSize(k)
    {
      BlanksLength(vs[..i], k);
      BlanksAppend(vs[..i], vs[i]);
      assert vs[..i + 1] == vs[..i] + [vs[i]];
      assert prefix + (Blanks(vs[..i]) + Slot(vs[i], 0)) == prefix + Blanks(vs[..i]) + Slot(vs[i], 0);
      offsets := offsets + [|payload|];
      payload := payload + Slot(vs[i], 0);
    }
    assert vs[..|vs|] == vs;
  }

  /** The second loop: each indirect value's data goes to the end, and where it went into its slot. */
  method FillPointers(prefix: seq<byte>, vs: seq<ClaimValue>, k: Kind, laid: seq<byte>) returns (payload: seq<byte>)
    requires SameKind(vs, k) && laid == prefix + Blanks(vs)
    ensures payload == prefix + Slots(vs, |prefix| + |vs| * SlotSize(k)) + Datas(vs)
  {
    hide Slot, Data, Slots, Blanks, Datas;
    payload := laid;
    var dataAt := |prefix| + |vs| * SlotSize(k);
    if !Indirect(k) {
      DirectSlots(vs, k, dataAt);
      assert payload == prefix + Slots(vs, dataAt) + Datas(vs);
      return;
    }
    NoSlots(dataAt);
    assert vs[..0] == [] && vs[0..] == vs;
    assert payload == prefix + [] + Blanks(vs) + [];
    for i := 0 to |vs|
      invariant payload == prefix + Slots(vs[..i], dataAt) + Blanks(vs[i..]) + Datas(vs[..i])
    {
      payload := FillPointer(prefix, vs, k, i, dataAt, payload);
    }
    assert vs[..|vs|] == vs && vs[|vs|..] == [];
    NoSlots(dataAt);
    assert prefix + Slots(vs, dataAt) + [] + Datas(vs) == prefix + Slots(vs, dataAt) + Datas(vs);
  }

  lemma NoSlots(ptr: nat)
    ensures Slots([], ptr) == [] && Blanks([]) == [] && Datas([]) == []
  {
  }

  method FillPointer(prefix: seq<byte>, vs: seq<ClaimValue>, k: Kind, i: nat, dataAt: nat, before: seq<byte>)
    returns (payload: seq<byte>)
    requires SameKind(vs, k) && Indirect(k) && i < |vs| && dataAt == |prefix| + |vs| * SlotSize(k)
    requires before == prefix + Slots(vs[..i], dataAt) + Blanks(vs[i..]) + Datas(vs[..i])
    ensures payload == prefix + Slots(vs[..i + 1], dataAt) + Blanks(vs[i + 1..]) + Datas(vs[..i + 1])
  {
    hide Slots, Datas, Data, Le32;
    var v := vs[i];
    var slotAt := |prefix| + 4 * i;
    ghost var done, blank, rest, data := Slots(vs[..i], dataAt), Slot(v, 0), Blanks(vs[i + 1..]), Datas(vs[..i]);
    assert vs[i..][1..] == vs[i + 1..] && KindOf(v) == k;
    assert Blanks(vs[i..]) == blank + rest;
    SlotsLength(vs[..i], k, dataAt);
    BlanksLength(vs[i + 1..], k);
    SlotsAppend(vs[..i], v, dataAt);
    assert vs[..i + 1] == vs[..i] + [v];
    assert |before| == dataAt + |data| by {
      assert |vs| * 4 == i * 4 + 4 + |vs[i + 1..]| * 4;
    }
    assert Slot(v, |before|) == Le32(|before|);
    assert before == (prefix + done) + blank + (rest + data);
    PutInto(prefix + done, blank, rest + data, Le32(|before|));
    payload := Put(before, slotAt, Le32(|before|));
    payload := payload + Data(v);
    Shuffle(prefix, done, Le32(|before|), rest, data, Data(v));
  }

  lemma Shuffle(p: seq<byte>, s: seq<byte>, x: seq<byte>, r: seq<byte>, d: seq<byte>, e: seq<byte>)
    ensures p + s + x + (r + d) + e == p + (s + x) + r + (d + e)
  {
  }

  lemma {:induction false} BlanksLength(vs: seq<ClaimValue>, k: Kind)
    requires SameKind(vs, k)
    ensures |Blanks(vs)| == |vs| * SlotSize(k)
  {
    hide Slot;
    if vs != [] {
      assert KindOf(vs[0]) == k;
      BlanksLength(vs[1..], k);
      assert |vs| * SlotSize(k) == SlotSize(k) + |vs[1..]| * SlotSize(k);
    }
  }

  /** The offset table, entry by entry, over the zeros left for it. */
  method FillOffsets(before: seq<byte>, ghost head: seq<byte>, ghost tail: seq<byte>, offsets: seq<nat>,
                     ghost slotsAt: nat, ghost size: nat)
    returns (payload: seq<byte>)
    requires |head| == 16 && before == head + Zeros(4 * |offsets|) + tail
    requires forall i :: 0 <= i < |offsets| ==> offsets[i] == slotsAt + i * size
    ensures payload == head + Offsets(|offsets|, slotsAt, size) + tail
  {
    hide Offsets, Le32, Zeros, Put;
    payload := before;
    var n := |offsets|;
    NoOffsets(slotsAt, size);
    assert head + [] == head;
    for i := 0 to n
      invariant payload == head + Offsets(i, slotsAt, size) + Zeros(4 * (n - i)) + tail
    {
      OffsetsAppend(i, slotsAt, size);
      MoreZeros(4, 4 * (n - i - 1));
      payload := PutNext(payload, head, Offsets(i, slotsAt, size), Zeros(4 * (n - i - 1)), tail, 16 + 4 * i, offsets[i]);
    }
    NoZeros();
    assert head + Offsets(n, slotsAt, size) + [] == head + Offsets(n, slotsAt, size);
  }

  /** One word over four zeros. */
  method PutNext(before: seq<byte>, ghost head: seq<byte>, ghost done: seq<byte>, ghost zeros: seq<byte>, ghost tail: seq<byte>,
                 off: nat, word: nat)
    returns (payload: seq<byte>)
    requires off == |head| + |done|
    requires before == head + done + (Zeros(4) + zeros) + tail
    ensures payload == head + (done + Le32(word)) + zeros + tail
  {
    hide Le32, Zeros;
    assert before == (head + done) + Zeros(4) + (zeros + tail);
    PutInto(head + done, Zeros(4), zeros + tail, Le32(word));
    payload := Put(before, off, Le32(word));
  }

  lemma NoZeros()
    ensures Zeros(0) == []
  {
  }

  lemma NoOffsets(at: nat, size: nat)
    ensures Offsets(0, at, size) == []
  {
  }

  lemma MoreZeros(a: nat, b: nat)
    ensures Zeros(a + b) == Zeros(a) + Zeros(b)
  {
  }

  /** The header, over the zeros left for it. */
  method FillHeader(before: seq<byte>, ghost tail: seq<byte>, nameOff: nat, code: nat, flags: u32, count: nat) returns (payload: seq<byte>)
    requires before == Zeros(16) + tail
    ensures payload == Header(nameOff, code, flags, count) + tail
  {
    hide Le16, Le32, Put;
    assert before == [] + Zeros(4) + (Zeros(12) + tail);
    PutInto([], Zeros(4), Zeros(12) + tail, Le32(nameOff));
    payload := Put(before, 0, Le32(nameOff));
    assert payload == Le32(nameOff) + Zeros(2) + ([0, 0] + Zeros(8) + tail);
    PutInto(Le32(nameOff), Zeros(2), [0, 0] + Zeros(8) + tail, Le16(code));
    payload := Put(payload, 4, Le16(code));
    ghost var a := Le32(nameOff) + Le16(code) + [0, 0];
    assert payload == a + Zeros(4) + (Zeros(4) + tail);
    PutInto(a, Zeros(4), Zeros(4) + tail, Le32(flags as int));
    payload := Put(payload, 8, Le32(flags as int));
    assert payload == a + Le32(flags as int) + Zeros(4) + tail;
    PutInto(a + Le32(flags as int), Zeros(4), tail, Le32(count));
    payload := Put(payload, 12, Le32(count));
  }
}
