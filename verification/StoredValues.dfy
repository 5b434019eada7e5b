/**
 What stored registry bytes say, apart from the codec (registry/value.go): any bytes under any type tag, not only
 those the encoder writes.
 */
module StoredValues {
  import opened Wrappers
  import opened Bytes
  import opened Endian
  import opened Text
  import opened Values
  import Utf8
  import Unicode

  /** A string, and a NUL behind it if it does not end in one. */
  ghost predicate StringSays(data: seq<byte>, s: seq<byte>) {
    Unicode.IsUtf8(s) && (data == s + [0] || (data == s && (s == [] || s[|s| - 1] != 0)))
  }

  /** `list` is the strings among `parts`, in order, but for the empty ones. */
  predicate NonEmpty(parts: seq<seq<byte>>, list: seq<seq<byte>>) {
    if parts == [] then list == []
    else if parts[0] == [] then NonEmpty(parts[1..], list)
    else list != [] && list[0] == parts[0] && NonEmpty(parts[1..], list[1..])
  }

  /** Strings between NULs, however many of those stand together, before the first or behind the last. */
  ghost predicate StringsSay(data: seq<byte>, list: seq<seq<byte>>) {
    && (forall i :: 0 <= i < |list| ==> Unicode.IsUtf8(list[i]))
    && exists parts :: |parts| > 0 && Join(parts, [0]) == data && NoNul(parts) && NonEmpty(parts, list)
  }

  predicate NoNul(parts: seq<seq<byte>>) { forall i :: 0 <= i < |parts| ==> 0 !in parts[i] }

  /** What bytes under a tag say; a tag that is none of the known ones says the bytes themselves. */
  ghost predicate Says(t: u32, data: seq<byte>, v: Value) {
    match v
    case NoValue => t == 0
    case Str(kind, s) => t == (match kind case Sz => 1 case ExpandSz => 2 case Link => 6) && StringSays(data, s)
    case Binary(b) => t == 3 && b == data
    case Dword(n) => t == 4 && |data| == 4 && Little(data) == n as nat
    case DwordBigEndian(n) => t == 5 && |data| == 4 && Big(data) == n as nat
    case MultiSz(list) => t == 7 && StringsSay(data, list)
    case Qword(q) => t == 11 && |data| == 8 && Little(data) == q
    case Other(tag, b) => t !in {0, 1, 2, 3, 4, 5, 6, 7, 11} && tag == t && b == data
  }

  lemma StringIsRead(data: seq<byte>, s: seq<byte>)
    ensures DecodeSz(data) == Some(s) <==> StringSays(data, s)
  {
    Unicode.ValidIsUtf8(s);
    hide Unicode.IsUtf8, Utf8.Valid;
    if data != [] {
      assert data == data[..|data| - 1] + [data[|data| - 1]];
    }
    if data == s + [0] {
      assert data[..|data| - 1] == s;
    }
  }

  lemma {:induction false} PartsAreRead(parts: seq<seq<byte>>, list: seq<seq<byte>>)
    ensures Strings(parts) == Some(list) <==> NonEmpty(parts, list) && forall i :: 0 <= i < |list| ==> Unicode.IsUtf8(list[i])
  {
    hide Unicode.IsUtf8, Utf8.Valid;
    if parts != [] {
      if parts[0] == [] {
        PartsAreRead(parts[1..], list);
      } else if list != [] {
        Unicode.ValidIsUtf8(list[0]);
        PartsAreRead(parts[1..], list[1..]);
        assert list == [list[0]] + list[1..];
        assert forall i :: 0 <= i < |list| - 1 ==> list[1..][i] == list[i + 1];
      }
    }
  }

  lemma StringsAreRead(data: seq<byte>, list: seq<seq<byte>>)
    ensures DecodeMultiSz(data) == Some(list) <==> StringsSay(data, list)
  {
    hide Unicode.IsUtf8, NonEmpty, Strings;
    var split := Split(data, 0);
    JoinOfSplit(data, 0 as byte);
    SplitHasNoSeparator(data);
    PartsAreRead(split, list);
    if StringsSay(data, list) {
      var parts :| |parts| > 0 && Join(parts, [0]) == data && NoNul(parts) && NonEmpty(parts, list);
      SplitOfJoin(parts, 0 as byte);
    }
  }

  lemma BigOfFour(b: seq<byte>)
    requires |b| == 4
    ensures Big(b) == Word32([b[3], b[2], b[1], b[0]])
  {
    var b3, b2, b1 := b[..3], b[..2], b[..1];
    assert b3[..2] == b2 && b2[..1] == b1 && b1[..0] == [];
    assert Big(b1) == b[0] as int;
    assert Big(b2) == Big(b1) * 256 + b[1] as int;
    assert Big(b3) == Big(b2) * 256 + b[2] as int;
  }

  /** Stored bytes are read as exactly what they say, and as an error when they say nothing. */
  lemma DecodeIsSaid(t: u32, data: seq<byte>, v: Value)
    ensures Decode(t, data) == Some(v) <==> Says(t, data, v)
  {
    hide DecodeSz, DecodeMultiSz, StringSays, StringsSay, Little, Big, Word32, Word64;
    match v
    case Str(_, s) => StringIsRead(data, s);
    case MultiSz(list) => StringsAreRead(data, list);
    case Dword(_) => if |data| == 4 { FourAreLittle(data); }
    case DwordBigEndian(_) => if |data| == 4 { BigOfFour(data); }
    case Qword(_) => if |data| == 8 { EightAreLittle(data); }
    case _ =>
  }

  /** How a string or a list is written: one NUL behind each string, and one more behind a list. */
  lemma StringsAreClosed(v: Value)
    requires v.Str? || v.MultiSz?
    ensures Encode(v).1 == match v case Str(_, s) => s + [0]
                                   case MultiSz(list) => if list == [] then [0] else Join(list, [0]) + [0, 0]
                                   case _ => []
  {
    hide Join, EncodeMultiSz;
    if v.MultiSz? {
      ListIsClosed(v.list);
    }
  }

  lemma {:induction false} ListIsClosed(list: seq<seq<byte>>)
    ensures EncodeMultiSz(list) == if list == [] then [0] else Join(list, [0]) + [0, 0]
  {
    if |list| == 1 {
      assert EncodeMultiSz(list[1..]) == [0];
      assert list[0] + [0] + [0] == list[0] + [0, 0];
    } else if |list| > 1 {
      ListIsClosed(list[1..]);
      var rest := Join(list[1..], [0]);
      assert list[0] + [0] + (rest + [0, 0]) == list[0] + [0] + rest + [0, 0];
    }
  }

  // --- batches ---------------------------------------------------------

  /** An entry as it is packed, whatever its value. */
  datatype Raw = Raw(name: seq<byte>, t: u32, data: seq<byte>)

  function Packed(r: Raw): seq<byte> {
    Le32(|r.name|) + r.name + Le32(r.t as int) + Le32(|r.data|) + r.data
  }

  function AllPacked(rs: seq<Raw>): seq<byte> {
    if rs == [] then [] else Packed(rs[0]) + AllPacked(rs[1..])
  }

  predicate Sized(r: Raw) { |r.name| < TWO_32 && |r.data| < TWO_32 }

  /** An entry lies at the front of `buf`. */
  ghost predicate Starts(buf: seq<byte>) { exists r :: Sized(r) && Packed(r) <= buf }

  lemma CutOfPacked(r: Raw, rest: seq<byte>)
    requires Sized(r)
    ensures Cut(Packed(r) + rest) == Some((r.name, r.t, r.data, |Packed(r)|))
  {
    hide Le32, Word32;
    var d := r.data + rest;
    var c := Le32(|r.data|) + d;
    var b := Le32(r.t as int) + c;
    var a := r.name + b;
    var buf := Packed(r) + rest;
    assert buf == Le32(|r.name|) + a;
    Word32OfLe32(|r.name|, a);
    Word32OfLe32(r.t as int, c);
    Word32OfLe32(|r.data|, d);
    var n := |r.name|;
    assert buf[4..4 + n] == r.name && buf[4 + n..] == b && buf[8 + n..] == c;
    assert buf[12 + n..12 + n + |r.data|] == r.data;
  }

  lemma PackedOfCut(buf: seq<byte>) returns (r: Raw)
    requires Cut(buf).Some?
    ensures Sized(r) && Cut(buf) == Some((r.name, r.t, r.data, |Packed(r)|)) && buf == Packed(r) + buf[|Packed(r)|..]
  {
    hide Le32, Word32;
    var (name, t, data, size) := Cut(buf).value;
    r := Raw(name, t, data);
    var n := |name|;
    Le32OfWord32(buf);
    Le32OfWord32(buf[4 + n..]);
    Le32OfWord32(buf[8 + n..]);
    FivePieces(buf, n, |data|);
  }

  lemma FivePieces(buf: seq<byte>, n: nat, k: nat)
    requires 12 + n + k <= |buf|
    ensures buf == buf[..4] + buf[4..4 + n] + buf[4 + n..][..4] + buf[8 + n..][..4] + buf[12 + n..12 + n + k] + buf[12 + n + k..]
  {
  }

  lemma StartsIsCut(buf: seq<byte>)
    ensures Starts(buf) <==> Cut(buf).Some?
  {
    hide Packed, Cut;
    if Cut(buf).Some? {
      var r := PackedOfCut(buf);
      assert Packed(r) <= buf;
    }
    if Starts(buf) {
      var r :| Sized(r) && Packed(r) <= buf;
      CutOfPacked(r, buf[|Packed(r)|..]);
      assert buf == Packed(r) + buf[|Packed(r)|..];
    }
  }

  predicate Named(r: Raw, nv: NamedValue) { nv.name == r.name && Decode(r.t, r.data) == Some(nv.value) }

  /** At most `count` entries from the front, as many as there are, each with its name and what its data says. */
  ghost predicate BatchSays(rs: seq<Raw>, rest: seq<byte>, buf: seq<byte>, count: nat, nvs: seq<NamedValue>) {
    && |rs| == |nvs| <= count && buf == AllPacked(rs) + rest && (|rs| < count ==> !Starts(rest))
    && forall i :: 0 <= i < |rs| ==> Sized(rs[i]) && Named(rs[i], nvs[i])
  }

  lemma NextEntry(buf: seq<byte>, count: nat, r: Raw)
    requires count > 0 && Cut(buf) == Some((r.name, r.t, r.data, |Packed(r)|)) && |Packed(r)| <= |buf|
    ensures Batch(buf, count)
         == match Decode(r.t, r.data)
            case None => None
            case Some(v) =>
              match Batch(buf[|Packed(r)|..], count - 1)
              case None => None
              case Some(rest) => Some([NamedValue(r.name, v)] + rest)
  {
    hide Packed, Cut, Decode;
  }

  lemma NoEntry(buf: seq<byte>, count: nat)
    requires count == 0 || Cut(buf).None?
    ensures Batch(buf, count) == Some([])
  {
    hide Cut;
  }

  /** What a batch says behind its first entry. */
  lemma SaidMore(rs: seq<Raw>, rest: seq<byte>, buf: seq<byte>, count: nat, nvs: seq<NamedValue>)
    requires rs != [] && nvs != [] && count > 0
    ensures var more := AllPacked(rs[1..]) + rest;
            BatchSays(rs, rest, buf, count, nvs)
            <==> Sized(rs[0]) && Named(rs[0], nvs[0]) && buf == Packed(rs[0]) + more
                 && BatchSays(rs[1..], rest, more, count - 1, nvs[1..])
  {
    hide Packed, Starts, Decode, Named, Sized;
    assert forall i :: 0 <= i < |rs| - 1 ==> rs[1..][i] == rs[i + 1];
    assert forall i :: 0 <= i < |nvs| - 1 ==> nvs[1..][i] == nvs[i + 1];
    assert Packed(rs[0]) + (AllPacked(rs[1..]) + rest) == Packed(rs[0]) + AllPacked(rs[1..]) + rest;
  }

  lemma {:induction false} SaidIsBatch(rs: seq<Raw>, rest: seq<byte>, buf: seq<byte>, count: nat, nvs: seq<NamedValue>)
    requires BatchSays(rs, rest, buf, count, nvs)
    ensures Batch(buf, count) == Some(nvs)
    decreases count
  {
    hide Packed, Cut, Decode, Batch;
    if rs == [] {
      assert buf == rest;
      StartsIsCut(rest);
      NoEntry(buf, count);
    } else {
      var more := AllPacked(rs[1..]) + rest;
      SaidMore(rs, rest, buf, count, nvs);
      hide BatchSays, AllPacked, Starts, Sized;
      CutOfPacked(rs[0], more);
      Behind(Packed(rs[0]), more);
      NextEntry(buf, count, rs[0]);
      SaidIsBatch(rs[1..], rest, more, count - 1, nvs[1..]);
      assert nvs == [nvs[0]] + nvs[1..];
    }
  }

  lemma Behind(a: seq<byte>, b: seq<byte>)
    ensures (a + b)[|a|..] == b
  {
  }

  lemma {:induction false} BatchIsSaid(buf: seq<byte>, count: nat, nvs: seq<NamedValue>) returns (rs: seq<Raw>, rest: seq<byte>)
    requires Batch(buf, count) == Some(nvs)
    ensures BatchSays(rs, rest, buf, count, nvs)
    decreases count
  {
    hide Packed, Cut, Decode, Batch;
    rs, rest := [], buf;
    StartsIsCut(buf);
    if count > 0 && Cut(buf).Some? {
      var r := PackedOfCut(buf);
      hide BatchSays, AllPacked, Starts, Sized;
      var after := buf[|Packed(r)|..];
      NextEntry(buf, count, r);
      var v, others := Decode(r.t, r.data).value, Batch(after, count - 1).value;
      assert nvs[0] == NamedValue(r.name, v) && nvs[1..] == others;
      var more, end := BatchIsSaid(after, count - 1, others);
      rs, rest := [r] + more, end;
      assert rs[1..] == more;
      SaysPacked(more, end, after, count - 1, others);
      SaidMore(rs, rest, buf, count, nvs);
    } else {
      NoEntry(buf, count);
      NothingSaid(buf, count);
    }
  }

  lemma SaysPacked(rs: seq<Raw>, rest: seq<byte>, buf: seq<byte>, count: nat, nvs: seq<NamedValue>)
    requires BatchSays(rs, rest, buf, count, nvs)
    ensures buf == AllPacked(rs) + rest
  {
  }

  lemma NothingSaid(buf: seq<byte>, count: nat)
    requires count == 0 || !Starts(buf)
    ensures BatchSays([], buf, buf, count, [])
  {
    hide Starts;
  }

  /** On any buffer: the batch is what the entries in front say, and an error exactly when one of them says nothing. */
  lemma BatchIsRead(buf: seq<byte>, count: nat, nvs: seq<NamedValue>)
    ensures Batch(buf, count) == Some(nvs) <==> exists rs, rest :: BatchSays(rs, rest, buf, count, nvs)
  {
    hide BatchSays, Batch;
    if Batch(buf, count) == Some(nvs) {
      var rs, rest := BatchIsSaid(buf, count, nvs);
    }
    if rs, rest :| BatchSays(rs, rest, buf, count, nvs) {
      SaidIsBatch(rs, rest, buf, count, nvs);
    }
  }
}
