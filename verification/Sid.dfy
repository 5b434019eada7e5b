/**
 Security identifiers (wire/sid.go; section 2.4.2 of MS-DTYP). A SID is kept in its binary form,
 inline in 68 bytes, and every byte past the encoded length is zero, so that comparing two SIDs
 byte for byte is comparing what they identify.
 */
module Sid {
  import opened Wrappers
  import opened Bytes
  import opened Numerals
  import opened Text

  const MAX_SUB_AUTHORITIES := 15
  const SID_BYTES := 68
  const TWO_48 := 0x1_0000_0000_0000

  function Zeros(n: nat): (z: seq<byte>)
    ensures |z| == n && forall i :: 0 <= i < n ==> z[i] == 0
  {
    seq(n, _ => 0)
  }

  ghost predicate Canonical(raw: seq<byte>) {
    && |raw| == SID_BYTES
    && ((forall i :: 0 <= i < SID_BYTES ==> raw[i] == 0)
        || (raw[0] == 1 && raw[1] as int <= MAX_SUB_AUTHORITIES
            && forall i :: 8 + 4 * raw[1] as int <= i < SID_BYTES ==> raw[i] == 0))
  }

  type SID = raw: seq<byte> | Canonical(raw) ghost witness Zeros(SID_BYTES)

  /** The zero value, which identifies nothing. */
  const NO_SID: SID := Zeros(SID_BYTES)

  predicate IsValid(s: SID) { s[0] == 1 }

  function Count(s: SID): (n: nat)
    requires IsValid(s)
    ensures n <= MAX_SUB_AUTHORITIES
  {
    s[1] as int
  }

  /** The binary encoding: empty for the invalid SID. */
  function Encoded(s: SID): (b: seq<byte>)
    ensures IsValid(s) ==> |b| == 8 + 4 * Count(s)
  {
    if IsValid(s) then s[..8 + 4 * Count(s)] else []
  }

  /** ParseSID: a SID at the start of `buf`; what follows it is ignored. */
  function ParseSID(buf: seq<byte>): (r: Option<SID>)
    ensures r.Some? ==> IsValid(r.value) && |Encoded(r.value)| <= |buf|
    ensures r.Some? ==> Encoded(r.value) == buf[..|Encoded(r.value)|]
  {
    if |buf| < 8 || buf[0] != 1 then None
    else if buf[1] as int > MAX_SUB_AUTHORITIES then None
    else
      var n := 8 + 4 * buf[1] as int;
      if |buf| < n then None else Some(buf[..n] + Zeros(SID_BYTES - n))
  }

  /** Zero tails make the encoding lossless: parsing it back gives the same 68 bytes. */
  lemma ParseOfEncoded(s: SID, rest: seq<byte>)
    requires IsValid(s)
    ensures ParseSID(Encoded(s) + rest) == Some(s)
  {
    var n := 8 + 4 * Count(s);
    assert (Encoded(s) + rest)[..n] == s[..n];
    assert s == s[..n] + Zeros(SID_BYTES - n);
  }

  /** On any bytes: the SID whose encoding they start with, if there is one. */
  lemma ParsedIsFront(buf: seq<byte>, s: SID)
    ensures ParseSID(buf) == Some(s) <==> IsValid(s) && Encoded(s) <= buf
  {
    if IsValid(s) && Encoded(s) <= buf {
      ParseOfEncoded(s, buf[|Encoded(s)|..]);
      assert buf == Encoded(s) + buf[|Encoded(s)|..];
    }
  }

  // --- components -----------------------------------------------------

  /** The 48-bit identifier authority, high byte first. */
  function Be48(a: nat): (b: seq<byte>)
    ensures |b| == 6
  {
    [Low(a / 0x100_0000_0000), Low(a / TWO_32), Low(a / 0x100_0000), Low(a / 0x1_0000), Low(a / 256), Low(a)]
  }

  function Word48(b: seq<byte>): (a: nat)
    requires |b| >= 6
    ensures a < TWO_48
  {
    Word40(b) * 256 + b[5] as int
  }

  function Word40(b: seq<byte>): (a: nat)
    requires |b| >= 5
    ensures a < 0x100_0000_0000
  {
    (((b[0] as int * 256 + b[1] as int) * 256 + b[2] as int) * 256 + b[3] as int) * 256 + b[4] as int
  }

  lemma Be48OfWord48(b: seq<byte>)
    requires |b| == 6
    ensures Be48(Word48(b)) == b
  {
    var a := Word48(b);
    var h1 := b[0] as int * 256 + b[1] as int;
    var h2 := h1 * 256 + b[2] as int;
    var h3 := h2 * 256 + b[3] as int;
    var h4 := h3 * 256 + b[4] as int;
    Shift(a, h4, b[5]);
    Shift(h4, h3, b[4]);
    Shift(h3, h2, b[3]);
    Shift(h2, h1, b[2]);
    Shift(h1, b[0] as int, b[1]);
    assert a / 0x1_0000 == h4 / 256 && a / 0x100_0000 == h3 / 256;
    assert a / TWO_32 == h2 / 256 && a / 0x100_0000_0000 == h1 / 256;
    assert Low(b[0] as int) == b[0];
  }

  function SubBytes(subs: seq<u32>): (b: seq<byte>)
    ensures |b| == 4 * |subs|
  {
    if subs == [] then [] else Le32(subs[0] as int) + SubBytes(subs[1..])
  }

  /** The sub-authorities held in `b`, a whole number of 4-byte words. */
  function Subs(b: seq<byte>): (subs: seq<u32>)
    requires |b| % 4 == 0
    ensures |subs| == |b| / 4
  {
    if b == [] then [] else [Word32(b) as u32] + Subs(b[4..])
  }

  lemma {:induction false} SubBytesOfSubs(b: seq<byte>)
    requires |b| % 4 == 0
    ensures SubBytes(Subs(b)) == b
  {
    if b != [] {
      SubBytesOfSubs(b[4..]);
      Le32OfWord32(b);
      assert Subs(b)[1..] == Subs(b[4..]);
    }
  }

  lemma {:induction false} SubBytesAppend(subs: seq<u32>, x: u32)
    ensures SubBytes(subs + [x]) == SubBytes(subs) + Le32(x as int)
  {
    if subs == [] {
      assert SubBytes([x]) == Le32(x as int) + SubBytes([]);
    } else {
      SubBytesAppend(subs[1..], x);
      assert (subs + [x])[1..] == subs[1..] + [x];
    }
  }

  function Authority(s: SID): nat { Word48(s[2..8]) }

  function SubAuthorities(s: SID): (subs: seq<u32>)
    requires IsValid(s)
    ensures |subs| == Count(s)
  {
    Subs(s[8..8 + 4 * Count(s)])
  }

  /** The SID with this authority and these sub-authorities. */
  function Make(authority: nat, subs: seq<u32>): (r: Option<SID>)
    ensures r.Some? <==> |subs| <= MAX_SUB_AUTHORITIES
    ensures r.Some? ==> IsValid(r.value)
  {
    if |subs| > MAX_SUB_AUTHORITIES then None
    else
      var raw: seq<byte> := [1, |subs| as byte] + Be48(authority) + SubBytes(subs) + Zeros(60 - 4 * |subs|);
      Some(raw)
  }

  /** A valid SID is determined by its authority and sub-authorities. */
  lemma MakeOfComponents(s: SID)
    requires IsValid(s)
    ensures Make(Authority(s), SubAuthorities(s)) == Some(s)
  {
    var n := 8 + 4 * Count(s);
    Be48OfWord48(s[2..8]);
    SubBytesOfSubs(s[8..n]);
    assert s == [1, s[1]] + s[2..8] + s[8..n] + Zeros(60 - 4 * Count(s));
  }

  /** NewSID, writing its array in place. */
  method NewSID(authority: nat, subs: seq<u32>) returns (r: Option<SID>)
    ensures r == Make(authority, subs)
  {
    if |subs| > MAX_SUB_AUTHORITIES {
      return None;
    }
    var raw := new byte[SID_BYTES](_ => 0);
    raw[0], raw[1] := 1, |subs| as byte;
    assert raw[..2] == [1, |subs| as byte] && raw[8..] == Zeros(60);
    PutAuthority(raw, authority);
    ghost var head := [1, |subs| as byte] + Be48(authority);
    assert raw[..] == head + Zeros(60);
    assert raw[..8] == head && raw[8 + 4 * |subs|..] == Zeros(60 - 4 * |subs|);
    PutSubs(raw, subs);
    assert raw[..] == Make(authority, subs).value;
    r := Some(raw[..]);
  }

  method PutAuthority(raw: array<byte>, authority: nat)
    requires raw.Length == SID_BYTES
    modifies raw
    ensures raw[..] == old(raw[..2]) + Be48(authority) + old(raw[8..])
  {
    for i := 0 to 6
      invariant forall k :: 0 <= k < SID_BYTES && !(2 <= k < 2 + i) ==> raw[k] == old(raw[k])
      invariant forall k :: 0 <= k < i ==> raw[2 + k] == Be48(authority)[k]
    {
      raw[2 + i] := Be48(authority)[i];
    }
    assert raw[2..8] == Be48(authority);
  }

  method PutSubs(raw: array<byte>, subs: seq<u32>)
    requires raw.Length == SID_BYTES && |subs| <= MAX_SUB_AUTHORITIES
    modifies raw
    ensures raw[..] == old(raw[..8]) + SubBytes(subs) + old(raw[8 + 4 * |subs|..])
  {
    hide Le32, SubBytes, Put;
    ghost var head, tail := raw[..8], raw[8..];
    NothingDone(head, tail);
    assert raw[..] == head + tail;
    for i := 0 to |subs|
      invariant raw[..] == head + SubBytes(subs[..i]) + tail[4 * i..]
    {
      Patched(head, SubBytes(subs[..i]), tail, 4 * i, Le32(subs[i] as int));
      PutLe32(raw, 8 + 4 * i, subs[i]);
      SubBytesAppend(subs[..i], subs[i]);
      assert subs[..i + 1] == subs[..i] + [subs[i]];
    }
    assert subs[..|subs|] == subs;
  }

  lemma NothingDone(head: seq<byte>, tail: seq<byte>)
    ensures SubBytes([]) == [] && head + tail == head + SubBytes([]) + tail[0..]
  {
  }

  /** Overwriting the 4 bytes after `head` and `done`. */
  lemma Patched(head: seq<byte>, done: seq<byte>, tail: seq<byte>, n: nat, w: seq<byte>)
    requires n + 4 <= |tail| && |w| == 4
    ensures Put(head + done + tail[n..], |head| + |done|, w) == head + (done + w) + tail[n + 4..]
  {
  }

  method PutLe32(raw: array<byte>, off: nat, x: u32)
    requires off + 4 <= raw.Length
    modifies raw
    ensures raw[..] == Put(old(raw[..]), off, Le32(x as int))
  {
    hide Low;
    var n := x as int;
    raw[off], raw[off + 1] := Low(n), Low(n / 256);
    raw[off + 2], raw[off + 3] := Low(n / 0x1_0000), Low(n / 0x100_0000);
    assert raw[..off] == old(raw[..])[..off] && raw[off + 4..] == old(raw[..])[off + 4..];
    assert raw[off..off + 4] == Le32(x as int);
    assert raw[..] == raw[..off] + raw[off..off + 4] + raw[off + 4..];
  }

  /** Child: `s` with `rid` as one more sub-authority. */
  function Child(s: SID, rid: u32): (r: Option<SID>)
    ensures r.Some? <==> IsValid(s) && Count(s) < MAX_SUB_AUTHORITIES
    ensures r.Some? ==> IsValid(r.value) && Authority(r.value) == Authority(s)
    ensures r.Some? ==> SubAuthorities(r.value) == SubAuthorities(s) + [rid]
  {
    if !IsValid(s) || Count(s) >= MAX_SUB_AUTHORITIES then None
    else
      var off := 8 + 4 * Count(s);
      var raw: seq<byte> := [1, s[1] + 1] + s[2..off] + Le32(rid as int) + s[off + 4..];
      assert raw[8..off + 4] == s[8..off] + Le32(rid as int) ;
      assert raw[2..8] == s[2..off][..6] == s[2..8];
      SubsAppend(s[8..off], rid);
      Some(raw)
  }

  lemma {:induction false} SubsAppend(b: seq<byte>, x: u32)
    requires |b| % 4 == 0
    ensures Subs(b + Le32(x as int)) == Subs(b) + [x]
  {
    var w := Le32(x as int);
    if b == [] {
      Word32OfLe32(x as int, []);
      assert b + w == w && w + [] == w && w[4..] == [];
    } else {
      SubsAppend(b[4..], x);
      assert (b + w)[4..] == b[4..] + w;
      assert (b + w)[..4] == b[..4];
    }
  }

  // --- text -----------------------------------------------------------

  function AuthorityText(a: nat): (t: string)
    ensures '-' !in t
  {
    if a >= TWO_32 then
      assert Hex(Digits(a, 16));
      "0x" + Digits(a, 16)
    else
      assert Decimal(Digits(a, 10));
      Digits(a, 10)
  }

  function SubTexts(subs: seq<u32>): (ts: seq<string>)
    ensures |ts| == |subs|
    ensures forall i :: 0 <= i < |ts| ==> ts[i] == Digits(subs[i] as int, 10)
  {
    if subs == [] then [] else [Digits(subs[0] as int, 10)] + SubTexts(subs[1..])
  }

  function Dashed(ts: seq<string>): string {
    if ts == [] then "" else "-" + ts[0] + Dashed(ts[1..])
  }

  /** The text form a SID prints as. */
  function Printed(s: SID): string {
    if IsValid(s) then "S-1-" + AuthorityText(Authority(s)) + Dashed(SubTexts(SubAuthorities(s))) else "S-?"
  }

  lemma {:induction false} DashedIsJoin(first: string, ts: seq<string>)
    ensures first + Dashed(ts) == Join([first] + ts, "-")
    decreases ts
  {
    if ts != [] {
      DashedIsJoin(ts[0], ts[1..]);
      assert ([first] + ts)[1..] == ts == [ts[0]] + ts[1..];
    }
  }

  function ParseAuthority(t: string): Option<nat> {
    if |t| > 2 && (t[..2] == "0x" || t[..2] == "0X") then ParseUint(t[2..], 16, TWO_48)
    else ParseUint(t, 10, TWO_48)
  }

  function ParseSubs(ts: seq<string>): (r: Option<seq<u32>>)
    ensures r.Some? ==> |r.value| == |ts|
  {
    if ts == [] then Some([])
    else
      var first :- ParseUint(ts[0], 10, TWO_32);
      var rest :- ParseSubs(ts[1..]);
      Some([first as u32] + rest)
  }

  /** The SID a text denotes, if it denotes one. */
  function Denoted(text: string): (r: Option<SID>)
    ensures r.Some? ==> IsValid(r.value)
  {
    var parts := Split(text, '-');
    if |parts| < 3 || parts[0] != "S" || parts[1] != "1" then None
    else
      var authority :- ParseAuthority(parts[2]);
      var subs :- ParseSubs(parts[3..]);
      Make(authority, subs)
  }

  lemma {:induction false} ParseSubsOfTexts(subs: seq<u32>)
    ensures ParseSubs(SubTexts(subs)) == Some(subs)
  {
    if subs != [] {
      ParseUintOfDigits(subs[0] as int, 10, TWO_32);
      ParseSubsOfTexts(subs[1..]);
      assert SubTexts(subs)[1..] == SubTexts(subs[1..]);
      assert subs == [subs[0]] + subs[1..];
    }
  }

  lemma ParseAuthorityOfText(a: nat)
    requires a < TWO_48
    ensures ParseAuthority(AuthorityText(a)) == Some(a)
  {
    if a >= TWO_32 {
      ParseUintOfDigits(a, 16, TWO_48);
      assert AuthorityText(a)[..2] == "0x";
    } else {
      ParseUintOfDigits(a, 10, TWO_48);
      var t := Digits(a, 10);
      assert |t| > 2 ==> t[..2][1] == t[1] && '0' <= t[1] <= '9';
    }
  }

  lemma TextIsJoin(auth: string, subs: seq<string>)
    ensures "S-1-" + auth + Dashed(subs) == Join(["S", "1", auth] + subs, "-")
  {
    var tail := [auth] + subs;
    var mid := ["1"] + tail;
    DashedIsJoin(auth, subs);
    DashedIsJoin("1", tail);
    DashedIsJoin("S", mid);
    assert tail[1..] == subs && mid[1..] == tail;
    assert ["S", "1", auth] + subs == ["S"] + mid;
    assert "S-1-" + auth + Dashed(subs) == "S" + ("-" + "1" + ("-" + auth + Dashed(subs)));
  }

  /** Every valid SID is the one its text denotes. */
  lemma DenotedOfPrinted(s: SID)
    requires IsValid(s)
    ensures Denoted(Printed(s)) == Some(s)
  {
    var subs := SubTexts(SubAuthorities(s));
    var parts := ["S", "1", AuthorityText(Authority(s))] + subs;
    TextIsJoin(AuthorityText(Authority(s)), subs);
    assert forall i :: 0 <= i < |subs| ==> '-' !in subs[i];
    SplitOfJoin(parts, '-');
    ParseAuthorityOfText(Authority(s));
    ParseSubsOfTexts(SubAuthorities(s));
    assert parts[3..] == subs;
    MakeOfComponents(s);
  }

  /** SIDFromString, with its loop over the sub-authority components. */
  method SIDFromString(text: string) returns (r: Option<SID>)
    ensures r == Denoted(text)
  {
    var parts := Split(text, '-');
    if |parts| < 3 || parts[0] != "S" || parts[1] != "1" {
      return None;
    }
    var authority := ParseAuthority(parts[2]);
    if authority.None? {
      return None;
    }
    var subs: seq<u32> := [];
    var ts := parts[3..];
    assert ts[0..] == ts && forall more: seq<u32> :: [] + more == more;
    for i := 0 to |ts|
      invariant ParseSubs(ts) ==
                match ParseSubs(ts[i..]) case None => None case Some(more) => Some(subs + more)
    {
      var v := ParseUint(ts[i], 10, TWO_32);
      assert ts[i..][1..] == ts[i + 1..];
      if v.None? {
        return None;
      }
      match ParseSubs(ts[i + 1..]) {
        case None =>
        case Some(more) => assert subs + ([v.value as u32] + more) == subs + [v.value as u32] + more;
      }
      subs := subs + [v.value as u32];
    }
    assert subs + [] == subs;
    r := NewSID(authority.value, subs);
  }

  /** String, accumulating the sub-authorities. */
  method ToText(s: SID) returns (text: string)
    ensures text == Printed(s)
  {
    if !IsValid(s) {
      return "S-?";
    }
    text := AppendSubs("S-1-" + AuthorityText(Authority(s)), SubAuthorities(s));
  }

  method AppendSubs(start: string, subs: seq<u32>) returns (text: string)
    ensures text == start + Dashed(SubTexts(subs))
  {
    text := start;
    assert subs[0..] == subs;
    for i := 0 to |subs|
      invariant text + Dashed(SubTexts(subs[i..])) == start + Dashed(SubTexts(subs))
    {
      var part := "-" + Digits(subs[i] as int, 10);
      ghost var rest := Dashed(SubTexts(subs[i + 1..]));
      DashedStep(subs, i);
      assert text + (part + rest) == text + part + rest;
      text := text + part;
    }
    assert text + "" == text;
  }

  lemma DashedStep(subs: seq<u32>, i: nat)
    requires i < |subs|
    ensures Dashed(SubTexts(subs[i..])) == "-" + Digits(subs[i] as int, 10) + Dashed(SubTexts(subs[i + 1..]))
  {
    assert subs[i..][1..] == subs[i + 1..];
    assert SubTexts(subs[i..])[1..] == SubTexts(subs[i + 1..]);
  }
}
