/** Typed registry values and their stored bytes (registry/value.go, and parseBatch of registry/read.go). */
module Values {
  import opened Wrappers
  import opened Bytes
  import opened Text
  import Utf8

  const REG_NONE: u32 := 0
  const REG_SZ: u32 := 1
  const REG_EXPAND_SZ: u32 := 2
  const REG_BINARY: u32 := 3
  const REG_DWORD: u32 := 4
  const REG_DWORD_BIG_ENDIAN: u32 := 5
  const REG_LINK: u32 := 6
  const REG_MULTI_SZ: u32 := 7
  const REG_QWORD: u32 := 11

  datatype StringKind = Sz | ExpandSz | Link

  /** A value; strings are their bytes, as Go's are. */
  datatype Value =
    | NoValue
    | Str(kind: StringKind, s: seq<byte>)
    | MultiSz(list: seq<seq<byte>>)
    | Binary(data: seq<byte>)
    | Dword(n: u32)
    | DwordBigEndian(n: u32)
    | Qword(q: nat)
    | Other(tag: u32, data: seq<byte>)

  predicate IsKnown(t: u32) {
    t <= REG_MULTI_SZ || t == REG_QWORD
  }

  function StringTag(kind: StringKind): u32 {
    match kind case Sz => REG_SZ case ExpandSz => REG_EXPAND_SZ case Link => REG_LINK
  }

  function EncodeSz(s: seq<byte>): seq<byte> { s + [0] }

  function EncodeMultiSz(list: seq<seq<byte>>): seq<byte>
  {
    if list == [] then [0] else list[0] + [0] + EncodeMultiSz(list[1..])
  }

  /** encodeMultiSZ: each string and a NUL, then one more NUL. */
  method AppendMultiSz(list: seq<seq<byte>>) returns (b: seq<byte>)
    ensures b == EncodeMultiSz(list)
  {
    b := [];
    assert list[0..] == list;
    for i := 0 to |list|
      invariant b + EncodeMultiSz(list[i..]) == EncodeMultiSz(list)
    {
      assert list[i..][1..] == list[i + 1..];
      ghost var rest := EncodeMultiSz(list[i + 1..]);
      assert b + (list[i] + [0] + rest) == b + (list[i] + [0]) + rest;
      b := b + (list[i] + [0]);
    }
    b := b + [0];
  }

  /** Big-endian, as DWORD_BIG_ENDIAN is stored. */
  function Be32(n: u32): (b: seq<byte>)
    ensures |b| == 4
  {
    var le := Le32(n as int);
    [le[3], le[2], le[1], le[0]]
  }

  /** The stored form of a value. */
  function Encode(v: Value): (u32, seq<byte>) {
    match v
    case NoValue => (REG_NONE, [])
    case Str(kind, s) => (StringTag(kind), EncodeSz(s))
    case MultiSz(list) => (REG_MULTI_SZ, EncodeMultiSz(list))
    case Binary(data) => (REG_BINARY, data)
    case Dword(n) => (REG_DWORD, Le32(n as int))
    case DwordBigEndian(n) => (REG_DWORD_BIG_ENDIAN, Be32(n))
    case Qword(q) => (REG_QWORD, Le64(q))
    case Other(tag, data) => (tag, data)
  }

  /** decodeSZ: one trailing NUL is dropped and what is left must be UTF-8. */
  function DecodeSz(data: seq<byte>): Option<seq<byte>> {
    var s := if data != [] && data[|data| - 1] == 0 then data[..|data| - 1] else data;
    if Utf8.Valid(s) then Some(s) else None
  }

  /** The non-empty strings of a split, all of which must be UTF-8. */
  function Strings(parts: seq<seq<byte>>): Option<seq<seq<byte>>> {
    if parts == [] then Some([])
    else if parts[0] == [] then Strings(parts[1..])
    else if !Utf8.Valid(parts[0]) then None
    else
      var rest :- Strings(parts[1..]);
      Some([parts[0]] + rest)
  }

  function DecodeMultiSz(data: seq<byte>): Option<seq<seq<byte>>> { Strings(Split(data, 0)) }

  /** splitNUL, in one pass. */
  method SplitNul(b: seq<byte>) returns (parts: seq<seq<byte>>)
    ensures parts == Split(b, 0)
  {
    parts := [];
    hide Split;
    var start: nat := 0;
    assert b[0..0] + b[0..] == b;
    for i := 0 to |b|
      invariant start <= i
      invariant 0 !in b[start..i]
      invariant parts + Split(b[start..], 0) == Split(b, 0)
    {
      if b[i] == 0 {
        NextPiece(b, start, i, parts);
        parts := parts + [b[start..i]];
        start := i + 1;
      } else {
        LongerPiece(b, start, i);
      }
    }
    LastPiece(b, start, parts);
    parts := parts + [b[start..]];
  }

  lemma LongerPiece(b: seq<byte>, start: nat, i: nat)
    requires start <= i < |b| && b[i] != 0 && 0 !in b[start..i]
    ensures 0 !in b[start..i + 1]
  {
  }

  lemma LastPiece(b: seq<byte>, start: nat, parts: seq<seq<byte>>)
    requires start <= |b| && 0 !in b[start..|b|]
    ensures parts + Split(b[start..], 0) == parts + [b[start..]]
  {
    assert b[start..|b|] == b[start..];
    SplitPiece(b[start..], [], 0);
  }

  lemma NextPiece(b: seq<byte>, start: nat, i: nat, parts: seq<seq<byte>>)
    requires start <= i < |b| && b[i] == 0 && 0 !in b[start..i]
    ensures parts + Split(b[start..], 0) == parts + [b[start..i]] + Split(b[i + 1..], 0)
  {
    var piece, rest := b[start..i], b[i + 1..];
    assert b[start..] == piece + [0] + rest;
    SplitPiece(piece, rest, 0);
  }

  /** decodeMultiSZ: a loop over the pieces that appends or fails. */
  method CollectMultiSz(data: seq<byte>) returns (r: Option<seq<seq<byte>>>)
    ensures r == DecodeMultiSz(data)
  {
    var parts := SplitNul(data);
    var out: seq<seq<byte>> := [];
    assert parts[0..] == parts;
    assert forall more: seq<seq<byte>> :: out + more == more;
    for i := 0 to |parts|
      invariant Strings(parts) == match Strings(parts[i..]) case None => None case Some(more) => Some(out + more)
    {
      assert parts[i..][1..] == parts[i + 1..];
      if parts[i] != [] {
        if !Utf8.Valid(parts[i]) {
          return None;
        }
        match Strings(parts[i + 1..]) {
          case None =>
          case Some(more) => assert out + ([parts[i]] + more) == out + [parts[i]] + more;
        }
        out := out + [parts[i]];
      }
    }
    assert out + [] == out;
    r := Some(out);
  }

  /** The value a stored form holds; None is a malformed known type. */
  function Decode(t: u32, data: seq<byte>): Option<Value> {
    if t == REG_NONE then Some(NoValue)
    else if t == REG_SZ then var s :- DecodeSz(data); Some(Str(Sz, s))
    else if t == REG_EXPAND_SZ then var s :- DecodeSz(data); Some(Str(ExpandSz, s))
    else if t == REG_LINK then var s :- DecodeSz(data); Some(Str(Link, s))
    else if t == REG_BINARY then Some(Binary(data))
    else if t == REG_DWORD then if |data| != 4 then None else Some(Dword(Word32(data) as u32))
    else if t == REG_DWORD_BIG_ENDIAN then
      if |data| != 4 then None else Some(DwordBigEndian(Word32([data[3], data[2], data[1], data[0]]) as u32))
    else if t == REG_MULTI_SZ then var list :- DecodeMultiSz(data); Some(MultiSz(list))
    else if t == REG_QWORD then if |data| != 8 then None else Some(Qword(Word64(data)))
    else Some(Other(t, data))
  }

  // --- round trips -----------------------------------------------------

  predicate Clean(s: seq<byte>) { s != [] && 0 !in s && Utf8.Valid(s) }

  predicate AllClean(list: seq<seq<byte>>) {
    forall i :: 0 <= i < |list| ==> Clean(list[i])
  }

  lemma {:induction false} SplitOfMultiSz(list: seq<seq<byte>>)
    requires forall i :: 0 <= i < |list| ==> 0 !in list[i]
    ensures Split(EncodeMultiSz(list), 0) == list + [[], []]
  {
    if list == [] {
      SplitPiece([], [], 0 as byte);
      assert [] + [0 as byte] + [] == [0];
    } else {
      SplitOfMultiSz(list[1..]);
      SplitPiece(list[0], EncodeMultiSz(list[1..]), 0);
      assert list == [list[0]] + list[1..];
    }
  }

  lemma {:induction false} StringsOfClean(list: seq<seq<byte>>)
    requires AllClean(list)
    ensures Strings(list + [[], []]) == Some(list)
  {
    if list == [] {
      var ends: seq<seq<byte>> := [[], []];
      assert ends[1..][1..] == [];
      assert list + ends == ends;
    } else {
      StringsOfClean(list[1..]);
      assert (list + [[], []])[1..] == list[1..] + [[], []];
      assert list == [list[0]] + list[1..];
    }
  }

  lemma {:induction false} SplitHasNoSeparator(b: seq<byte>)
    ensures forall i :: 0 <= i < |Split(b, 0)| ==> 0 !in Split(b, 0)[i]
  {
    if b != [] {
      SplitHasNoSeparator(b[1..]);
    }
  }

  lemma {:induction false} StringsAreClean(parts: seq<seq<byte>>)
    requires (forall i :: 0 <= i < |parts| ==> 0 !in parts[i]) && Strings(parts).Some?
    ensures AllClean(Strings(parts).value)
  {
    if parts != [] {
      StringsAreClean(parts[1..]);
    }
  }

  /** A string list survives exactly when every string is non-empty, free of NUL, and UTF-8. */
  lemma MultiSzRoundTrip(list: seq<seq<byte>>)
    ensures DecodeMultiSz(EncodeMultiSz(list)) == Some(list) <==> AllClean(list)
  {
    if AllClean(list) {
      SplitOfMultiSz(list);
      StringsOfClean(list);
    }
    var data := EncodeMultiSz(list);
    SplitHasNoSeparator(data);
    if DecodeMultiSz(data).Some? {
      StringsAreClean(Split(data, 0));
    }
  }

  /** The values whose stored form denotes them. */
  predicate WellFormed(v: Value) {
    match v
    case Str(_, s) => Utf8.Valid(s)
    case MultiSz(list) => AllClean(list)
    case Qword(q) => q < TWO_64
    case Other(tag, _) => !IsKnown(tag)
    case _ => true
  }

  lemma BigEndianRoundTrip(n: u32)
    ensures var b := Be32(n); Word32([b[3], b[2], b[1], b[0]]) == n as int
  {
    Word32OfLe32(n as int, []);
    assert Le32(n as int) + [] == Le32(n as int);
  }

  /** Decoding what was encoded gives the value back exactly when the value is well-formed. */
  lemma RoundTrip(v: Value)
    ensures var (t, data) := Encode(v); Decode(t, data) == Some(v) <==> WellFormed(v)
  {
    hide Utf8.Valid, DecodeMultiSz, EncodeMultiSz, Word32, Word64, Le32, Le64, AllClean;
    match v {
      case Str(_, s) => assert EncodeSz(s)[..|s|] == s;
      case MultiSz(list) => MultiSzRoundTrip(list);
      case Dword(n) =>
        Word32OfLe32(n as int, []);
        assert Le32(n as int) + [] == Le32(n as int);
      case DwordBigEndian(n) => BigEndianRoundTrip(n);
      case Qword(q) =>
        assert Le64(q) + [] == Le64(q);
        if q < TWO_64 {
          Word64OfLe64(q, []);
        }
      case Other(tag, _) =>
      case _ =>
    }
  }

  // --- batches ---------------------------------------------------------

  datatype NamedValue = NamedValue(name: seq<byte>, value: Value)

  /** One packed entry: name length, name, type, data length, data. */
  function Entry(nv: NamedValue): seq<byte> {
    var (t, data) := Encode(nv.value);
    Le32(|nv.name|) + nv.name + Le32(t as int) + Le32(|data|) + data
  }

  function Entries(nvs: seq<NamedValue>): seq<byte> {
    if nvs == [] then [] else Entry(nvs[0]) + Entries(nvs[1..])
  }

  /** One entry off the front: what it holds and how long it is; None when the buffer ends inside it. */
  function Cut(buf: seq<byte>): (r: Option<(seq<byte>, u32, seq<byte>, nat)>)
    ensures r.Some? ==> 12 <= r.value.3 <= |buf|
  {
    if 4 > |buf| then None
    else
      var n := Word32(buf);
      if 4 + n + 8 > |buf| then None
      else
        var t, size := Word32(buf[4 + n..]), Word32(buf[8 + n..]);
        if 12 + n + size > |buf| then None
        else Some((buf[4..4 + n], t as u32, buf[12 + n..12 + n + size], 12 + n + size))
  }

  /** Up to `count` entries; a buffer that ends early ends the list, a malformed value fails it. */
  function Batch(buf: seq<byte>, count: nat): Option<seq<NamedValue>>
    decreases count
  {
    if count == 0 || Cut(buf).None? then Some([])
    else
      var (name, t, data, size) := Cut(buf).value;
      var v :- Decode(t, data);
      var rest :- Batch(buf[size..], count - 1);
      Some([NamedValue(name, v)] + rest)
  }

  /** The bounds checks of parseBatch at one offset. */
  method CutAt(buf: seq<byte>, off: nat) returns (r: Option<(seq<byte>, u32, seq<byte>, nat)>)
    requires off <= |buf|
    ensures r == Cut(buf[off..])
  {
    hide Word32;
    ghost var tail := buf[off..];
    if off + 4 > |buf| {
      return None;
    }
    var nameLen := Word32(buf[off..]);
    if off + 4 + nameLen > |buf| {
      return None;
    }
    if off + 4 + nameLen + 8 > |buf| {
      return None;
    }
    var at := off + 4 + nameLen;
    assert tail[4 + nameLen..] == buf[at..] && tail[8 + nameLen..] == buf[at + 4..];
    var t := Word32(buf[at..]) as u32;
    var dataLen := Word32(buf[at + 4..]);
    if at + 8 + dataLen > |buf| {
      return None;
    }
    assert tail[4..4 + nameLen] == buf[off + 4..at];
    assert tail[12 + nameLen..12 + nameLen + dataLen] == buf[at + 8..at + 8 + dataLen];
    r := Some((buf[off + 4..at], t, buf[at + 8..at + 8 + dataLen], 12 + nameLen + dataLen));
  }

  /** What the whole batch gives, once `out` has been read and `rest` is what remains. */
  ghost predicate Remains(whole: Option<seq<NamedValue>>, out: seq<NamedValue>, rest: Option<seq<NamedValue>>) {
    whole == match rest case None => None case Some(more) => Some(out + more)
  }

  lemma RemainsStep(whole: Option<seq<NamedValue>>, out: seq<NamedValue>, nv: NamedValue, rest: Option<seq<NamedValue>>)
    requires Remains(whole, out, match rest case None => None case Some(more) => Some([nv] + more))
    ensures Remains(whole, out + [nv], rest)
  {
    if rest.Some? {
      assert out + ([nv] + rest.value) == out + [nv] + rest.value;
    }
  }

  lemma RemainsStart(whole: Option<seq<NamedValue>>)
    ensures Remains(whole, [], whole)
  {
    if whole.Some? {
      assert [] + whole.value == whole.value;
    }
  }

  /** parseBatch. */
  method ParseBatch(buf: seq<byte>, count: nat) returns (r: Option<seq<NamedValue>>)
    ensures r == Batch(buf, count)
  {
    hide Cut, Decode;
    var out: seq<NamedValue> := [];
    var off: nat := 0;
    assert buf[0..] == buf;
    RemainsStart(Batch(buf, count));
    for i := 0 to count
      invariant off <= |buf| && Remains(Batch(buf, count), out, Batch(buf[off..], count - i))
    {
      var cut := CutAt(buf, off);
      assert out + [] == out;
      if cut.None? {
        return Some(out);
      }
      var (name, t, data, size) := cut.value;
      var v := Decode(t, data);
      if v.None? {
        return None;
      }
      assert buf[off..][size..] == buf[off + size..];
      RemainsStep(Batch(buf, count), out, NamedValue(name, v.value), Batch(buf[off + size..], count - i - 1));
      out := out + [NamedValue(name, v.value)];
      off := off + size;
    }
    assert out + [] == out;
    r := Some(out);
  }

  lemma CutOfEntry(nv: NamedValue, rest: seq<byte>)
    requires |nv.name| < TWO_32 && |Encode(nv.value).1| < TWO_32
    ensures Cut(Entry(nv) + rest) == Some((nv.name, Encode(nv.value).0, Encode(nv.value).1, |Entry(nv)|))
    ensures (Entry(nv) + rest)[|Entry(nv)|..] == rest
  {
    hide Encode, Le32, Word32, Decode;
    var (t, data) := Encode(nv.value);
    var n := |nv.name|;
    var buf := Entry(nv) + rest;
    var c := data + rest;
    var b := Le32(t as int) + (Le32(|data|) + c);
    assert buf == Le32(n) + (nv.name + b);
    Word32OfLe32(n, nv.name + b);
    Word32OfLe32(t as int, Le32(|data|) + c);
    Word32OfLe32(|data|, c);
    CutLayout(buf, nv.name, t as int, data, rest);
  }

  lemma CutLayout(buf: seq<byte>, name: seq<byte>, t: int, data: seq<byte>, rest: seq<byte>)
    requires buf == Le32(|name|) + (name + (Le32(t) + (Le32(|data|) + (data + rest))))
    ensures buf[4 + |name|..] == Le32(t) + (Le32(|data|) + (data + rest))
    ensures buf[8 + |name|..] == Le32(|data|) + (data + rest)
    ensures buf[12 + |name|..12 + |name| + |data|] == data && buf[4..4 + |name|] == name
  {
    hide Le32;
    assert buf[12 + |name|..] == data + rest;
  }

  lemma BatchStep(buf: seq<byte>, nv: NamedValue, rest: seq<byte>, list: seq<NamedValue>, size: nat)
    requires Cut(buf) == Some((nv.name, Encode(nv.value).0, Encode(nv.value).1, size)) && size <= |buf| && buf[size..] == rest
    requires Decode(Encode(nv.value).0, Encode(nv.value).1) == Some(nv.value)
    requires Batch(rest, |list|) == Some(list)
    ensures Batch(buf, |list| + 1) == Some([nv] + list)
  {
    hide Cut, Decode, Encode;
  }

  /** A batch of encoded values is read back in order, whatever follows it. */
  lemma {:induction false} BatchOfEntries(nvs: seq<NamedValue>, rest: seq<byte>)
    requires forall i :: 0 <= i < |nvs| ==>
               |nvs[i].name| < TWO_32 && |Encode(nvs[i].value).1| < TWO_32 && WellFormed(nvs[i].value)
    ensures Batch(Entries(nvs) + rest, |nvs|) == Some(nvs)
  {
    hide Encode, Decode, Entry, WellFormed, Cut, Batch;
    if nvs == [] {
      NoBatch(Entries(nvs) + rest);
    } else {
      var more := Entries(nvs[1..]) + rest;
      CutOfEntry(nvs[0], more);
      RoundTrip(nvs[0].value);
      BatchOfEntries(nvs[1..], rest);
      assert Entries(nvs) + rest == Entry(nvs[0]) + more;
      assert nvs == [nvs[0]] + nvs[1..];
      BatchStep(Entry(nvs[0]) + more, nvs[0], more, nvs[1..], |Entry(nvs[0])|);
    }
  }

  lemma NoBatch(buf: seq<byte>)
    ensures Batch(buf, 0) == Some([])
  {
  }
}
