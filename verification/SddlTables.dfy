/** The vocabulary of SDDL text: ACE types, ACE flags, access masks and GUIDs (sddl/tables.go, sddl/guid.go). */
module SddlTables {
  import opened Wrappers
  import opened Bytes
  import opened Numerals
  import opened Aces
  import ConditionLexer

  // --- ACE types -------------------------------------------------------

  const ALLOWED_CALLBACK: byte := 0x09
  const DENIED_CALLBACK: byte := 0x0a
  const ALLOWED_CALLBACK_OBJECT: byte := 0x0b
  const AUDIT_CALLBACK: byte := 0x0d

  /** The type an ACE tag names; resource attributes and the exotic system types are named but not supported. */
  function TypeOfTag(tag: string): Option<byte> {
    if |tag| == 1 then
      if tag[0] == 'A' then Some(0x00) else if tag[0] == 'D' then Some(0x01) else None
    else if |tag| == 2 then
      if tag[1] == 'A' then TypeOfA(tag[0])
      else if tag[1] == 'L' then TypeOfL(tag[0])
      else if tag[1] == 'U' then TypeOfU(tag[0])
      else if tag[1] == 'D' then if tag[0] == 'O' then Some(0x06) else if tag[0] == 'X' then Some(0x0a) else None
      else if tag[1] == 'P' then if tag[0] == 'S' then Some(0x13) else None
      else None
    else None
  }

  /** OA, XA, ZA, RA. */
  function TypeOfA(c: char): Option<byte> {
    if c == 'O' then Some(0x05) else if c == 'X' then Some(0x09) else if c == 'Z' then Some(0x0b)
    else if c == 'R' then Some(0x12) else None
  }

  /** AL, OL, ML, TL, FL. */
  function TypeOfL(c: char): Option<byte> {
    if c == 'A' then Some(0x03) else if c == 'O' then Some(0x08) else if c == 'M' then Some(0x11)
    else if c == 'T' then Some(0x14) else if c == 'F' then Some(0x15) else None
  }

  /** AU, OU, XU. */
  function TypeOfU(c: char): Option<byte> {
    if c == 'A' then Some(0x02) else if c == 'O' then Some(0x07) else if c == 'X' then Some(0x0d) else None
  }

  /** The reverse table: no type has two tags. */
  function TagOfType(kind: byte): (tag: Option<string>)
    ensures tag.Some? ==> TypeOfTag(tag.value) == Some(kind) && ConditionLexer.All(tag.value, Upper) && tag.value != ""
  {
    if kind == 0x00 then Some(['A']) else if kind == 0x01 then Some(['D'])
    else if kind == 0x02 then Some(['A', 'U']) else if kind == 0x03 then Some(['A', 'L'])
    else if kind == 0x05 then Some(['O', 'A']) else if kind == 0x06 then Some(['O', 'D'])
    else if kind == 0x07 then Some(['O', 'U']) else if kind == 0x08 then Some(['O', 'L'])
    else if kind == 0x09 then Some(['X', 'A']) else if kind == 0x0a then Some(['X', 'D'])
    else if kind == 0x0b then Some(['Z', 'A']) else if kind == 0x0d then Some(['X', 'U'])
    else if kind == 0x11 then Some(['M', 'L']) else if kind == 0x12 then Some(['R', 'A'])
    else if kind == 0x13 then Some(['S', 'P']) else if kind == 0x14 then Some(['T', 'L'])
    else if kind == 0x15 then Some(['F', 'L']) else None
  }

  predicate Upper(c: char) { 'A' <= c <= 'Z' }

  /** Types whose ACE ends in a conditional expression. */
  predicate IsCallback(kind: byte) {
    kind == ALLOWED_CALLBACK || kind == DENIED_CALLBACK || kind == AUDIT_CALLBACK || kind == ALLOWED_CALLBACK_OBJECT
  }

  predicate IsSupported(kind: byte) { IsSimple(kind) || IsObject(kind) || IsCallback(kind) }

  lemma SupportedHasTag(kind: byte)
    requires IsSupported(kind)
    ensures TagOfType(kind).Some?
  {
  }

  // --- ACE flags -------------------------------------------------------

  const NO_FLAGS := Flags(false, false, false, false, false, false, false, false)

  /** `f` with the flag of a two-letter code. */
  function Flagged(f: Flags, a: char, b: char): (r: Option<Flags>)
    ensures r.Some? ==> r.value.spare == f.spare
  {
    if a == 'C' && b == 'I' then Some(f.(ci := true)) else if a == 'O' && b == 'I' then Some(f.(oi := true))
    else if a == 'N' && b == 'P' then Some(f.(np := true)) else if a == 'I' && b == 'O' then Some(f.(io := true))
    else if a == 'I' && b == 'D' then Some(f.(inherited := true)) else if a == 'S' && b == 'A' then Some(f.(success := true))
    else if a == 'F' && b == 'A' then Some(f.(failure := true)) else None
  }

  /** `f` with every flag a run of codes names. */
  function WithFlags(f: Flags, s: string): Option<Flags>
    decreases |s|
  {
    if s == "" then Some(f)
    else if |s| < 2 then None
    else
      var g :- Flagged(f, s[0], s[1]);
      WithFlags(g, s[2..])
  }

  function FlagsOfText(s: string): Option<Flags> { WithFlags(NO_FLAGS, s) }

  /** No text sets the bit that has no code. */
  lemma {:induction false} NeverSpare(f: Flags, s: string)
    requires !f.spare && WithFlags(f, s).Some?
    ensures !WithFlags(f, s).value.spare
    decreases |s|
  {
    hide Flagged;
    if s != "" {
      NeverSpare(Flagged(f, s[0], s[1]).value, s[2..]);
    }
  }

  /** A code, when its flag is set. */
  function FlagCode(on: bool, a: char, b: char): string { if on then [a, b] else "" }

  function FlagsText(f: Flags): string {
    FlagCode(f.ci, 'C', 'I') + (FlagCode(f.oi, 'O', 'I') + (FlagCode(f.np, 'N', 'P') + (FlagCode(f.io, 'I', 'O')
    + (FlagCode(f.inherited, 'I', 'D') + (FlagCode(f.success, 'S', 'A') + FlagCode(f.failure, 'F', 'A'))))))
  }

  lemma NextFlag(f: Flags, on: bool, a: char, b: char, rest: string)
    requires Flagged(f, a, b).Some?
    ensures WithFlags(f, FlagCode(on, a, b) + rest) == WithFlags(if on then Flagged(f, a, b).value else f, rest)
  {
    hide Flagged;
    if on {
      var s := [a, b] + rest;
      assert s[0] == a && s[1] == b && s[2..] == rest;
    } else {
      assert "" + rest == rest;
    }
  }

  /** Flags with a text are read back from it. */
  lemma FlagsBack(f: Flags)
    requires !f.spare
    ensures FlagsOfText(FlagsText(f)) == Some(f)
  {
    hide WithFlags, FlagCode;
    var t6 := FlagCode(f.success, 'S', 'A') + FlagCode(f.failure, 'F', 'A');
    var t5 := FlagCode(f.inherited, 'I', 'D') + t6;
    var t4 := FlagCode(f.io, 'I', 'O') + t5;
    var t3 := FlagCode(f.np, 'N', 'P') + t4;
    var t2 := FlagCode(f.oi, 'O', 'I') + t3;
    var f1 := NO_FLAGS.(ci := f.ci);
    var f2 := f1.(oi := f.oi);
    var f3 := f2.(np := f.np);
    var f4 := f3.(io := f.io);
    var f5 := f4.(inherited := f.inherited);
    var f6 := f5.(success := f.success);
    NextFlag(NO_FLAGS, f.ci, 'C', 'I', t2);
    NextFlag(f1, f.oi, 'O', 'I', t3);
    NextFlag(f2, f.np, 'N', 'P', t4);
    NextFlag(f3, f.io, 'I', 'O', t5);
    NextFlag(f4, f.inherited, 'I', 'D', t6);
    NextFlag(f5, f.success, 'S', 'A', FlagCode(f.failure, 'F', 'A'));
    LastFlag(f6, f.failure);
  }

  lemma LastFlag(f: Flags, on: bool)
    requires !f.failure
    ensures WithFlags(f, FlagCode(on, 'F', 'A')) == Some(f.(failure := on))
  {
    NextFlag(f, on, 'F', 'A', "");
    assert FlagCode(on, 'F', 'A') + "" == FlagCode(on, 'F', 'A');
  }

  /** textToAceFlags: an odd length is an error before any code is looked at. */
  method ReadFlags(s: string) returns (r: Option<Flags>)
    ensures r == FlagsOfText(s)
  {
    hide Flagged;
    if |s| % 2 != 0 {
      OddIsMalformed(NO_FLAGS, s);
      return None;
    }
    var f := NO_FLAGS;
    var i := 0;
    assert s[0..] == s;
    while i < |s|
      invariant i <= |s| && (|s| - i) % 2 == 0
      invariant WithFlags(f, s[i..]) == FlagsOfText(s)
    {
      assert s[i..][2..] == s[i + 2..];
      var g := Flagged(f, s[i], s[i + 1]);
      if g.None? {
        return None;
      }
      f := g.value;
      i := i + 2;
    }
    r := Some(f);
  }

  lemma {:induction false} OddIsMalformed(f: Flags, s: string)
    requires |s| % 2 == 1
    ensures WithFlags(f, s) == None
    decreases |s|
  {
    hide Flagged;
    if |s| > 1 && Flagged(f, s[0], s[1]).Some? {
      OddIsMalformed(Flagged(f, s[0], s[1]).value, s[2..]);
    }
  }

  /** One row of the flag table: whether the flag is set, and its code. */
  datatype Row = Row(on: bool, a: char, b: char)

  /** aceFlagsToText: the codes of the flags that are set, in the table's order. */
  method WriteFlags(f: Flags) returns (s: string)
    ensures s == FlagsText(f)
  {
    hide FlagsText;
    var table := [Row(f.ci, 'C', 'I'), Row(f.oi, 'O', 'I'), Row(f.np, 'N', 'P'), Row(f.io, 'I', 'O'),
                  Row(f.inherited, 'I', 'D'), Row(f.success, 'S', 'A'), Row(f.failure, 'F', 'A')];
    TableText(f, table);
    s := WriteCodes(table);
  }

  method WriteCodes(table: seq<Row>) returns (s: string)
    ensures s == Codes(table)
  {
    hide Codes;
    s := "";
    assert table[0..] == table;
    for i := 0 to |table|
      invariant s + Codes(table[i..]) == Codes(table)
    {
      var row := table[i];
      NextRow(table, i, s);
      if row.on {
        s := s + [row.a, row.b];
      }
    }
    assert table[|table|..] == [];
    NoRows(s);
  }

  lemma NextRow(table: seq<Row>, i: nat, s: string)
    requires i < |table|
    ensures var row := table[i];
            s + Codes(table[i..]) == (if row.on then s + [row.a, row.b] else s) + Codes(table[i + 1..])
  {
    assert table[i..][1..] == table[i + 1..];
    var row, rest := table[i], Codes(table[i + 1..]);
    hide Codes;
    if row.on {
      assert s + ([row.a, row.b] + rest) == s + [row.a, row.b] + rest;
    } else {
      assert "" + rest == rest;
    }
  }

  lemma NoRows(s: string)
    ensures s + Codes([]) == s
  {
  }

  function Codes(table: seq<Row>): string {
    if table == [] then "" else FlagCode(table[0].on, table[0].a, table[0].b) + Codes(table[1..])
  }

  lemma TableText(f: Flags, t: seq<Row>)
    requires |t| == 7 && t[0] == Row(f.ci, 'C', 'I') && t[1] == Row(f.oi, 'O', 'I') && t[2] == Row(f.np, 'N', 'P')
    requires t[3] == Row(f.io, 'I', 'O') && t[4] == Row(f.inherited, 'I', 'D')
    requires t[5] == Row(f.success, 'S', 'A') && t[6] == Row(f.failure, 'F', 'A')
    ensures Codes(t) == FlagsText(f)
  {
    hide FlagCode;
    forall i | 0 <= i < 7 ensures Codes(t[i..]) == FlagCode(t[i].on, t[i].a, t[i].b) + Codes(t[i + 1..]) {
      assert t[i..][1..] == t[i + 1..];
    }
    assert t[0..] == t && Codes(t[7..]) == "";
    assert FlagCode(f.failure, 'F', 'A') + "" == FlagCode(f.failure, 'F', 'A');
  }

  // --- access masks ----------------------------------------------------

  // File rights are unions of the standard rights and the file bits of an access mask (section 2.4.3 of MS-DTYP).
  const READ_CONTROL: u32 := 0x20000
  const FILE_READ: u32 := 0x120089
  const FILE_WRITE: u32 := 0x120116
  const FILE_EXECUTE: u32 := 0x1200a0
  const FILE_ALL: u32 := 0x1f01ff

  /** Bitwise or. */
  function Union(a: nat, b: nat): nat
    decreases a + b
  {
    if a == 0 then b
    else if b == 0 then a
    else 2 * Union(a / 2, b / 2) + (if a % 2 == 1 || b % 2 == 1 then 1 else 0)
  }

  lemma {:induction false} UnionFits(a: nat, b: nat, n: nat)
    requires a < Pow2(n) && b < Pow2(n)
    ensures Union(a, b) < Pow2(n)
  {
    if a != 0 && b != 0 {
      UnionFits(a / 2, b / 2, n - 1);
    }
  }

  lemma {:induction false} UnionAssociates(a: nat, b: nat, c: nat)
    ensures Union(a, Union(b, c)) == Union(Union(a, b), c)
    decreases a + b + c
  {
    if a != 0 && b != 0 && c != 0 {
      UnionAssociates(a / 2, b / 2, c / 2);
      UnionHalves(b, c);
      UnionHalves(a, b);
      hide Union;
      UnionHalves(a, Union(b, c));
      UnionHalves(Union(a, b), c);
    }
  }

  lemma UnionHalves(a: nat, b: nat)
    ensures Union(a, b) / 2 == Union(a / 2, b / 2) && Union(a, b) % 2 == (if a % 2 == 1 || b % 2 == 1 then 1 else 0)
  {
  }

  lemma ThirtyTwoBits()
    ensures Pow2(32) == TWO_32
  {
    assert Pow2(8) == 256;
    assert Pow2(16) == 256 * Pow2(8);
    assert Pow2(24) == 256 * Pow2(16);
    assert Pow2(32) == 256 * Pow2(24);
  }

  function Or(a: u32, b: u32): u32 {
    ThirtyTwoBits();
    UnionFits(a as int, b as int, 32);
    Union(a as int, b as int) as u32
  }

  lemma OrAssociates(a: u32, b: u32, c: u32)
    ensures Or(a, Or(b, c)) == Or(Or(a, b), c)
  {
    UnionAssociates(a as int, b as int, c as int);
  }

  /** The bits of a two-letter right (section 2.5.1.1 of MS-DTYP). */
  function RightBits(a: char, b: char): Option<u32> {
    if a == 'G' then
      if b == 'A' then Some(0x10000000) else if b == 'R' then Some(0x80000000)
      else if b == 'W' then Some(0x40000000) else if b == 'X' then Some(0x20000000) else None
    else if a == 'F' then
      if b == 'A' then Some(FILE_ALL) else if b == 'R' then Some(FILE_READ)
      else if b == 'W' then Some(FILE_WRITE) else if b == 'X' then Some(FILE_EXECUTE) else None
    else if a == 'N' then
      if b == 'W' then Some(0x001) else if b == 'R' then Some(0x002) else if b == 'X' then Some(0x004) else None
    else if a == 'W' then
      if b == 'D' then Some(0x40000) else if b == 'O' then Some(0x80000) else if b == 'P' then Some(0x020) else None
    else if a == 'R' then if b == 'C' then Some(READ_CONTROL) else if b == 'P' then Some(0x010) else None
    else if a == 'S' then if b == 'D' then Some(0x10000) else if b == 'W' then Some(0x008) else None
    else if a == 'D' then if b == 'C' then Some(0x002) else if b == 'T' then Some(0x040) else None
    else if a == 'L' then if b == 'C' then Some(0x004) else if b == 'O' then Some(0x080) else None
    else if a == 'C' then if b == 'C' then Some(0x001) else if b == 'R' then Some(0x100) else None
    else None
  }

  /** Whether `s` opens a hex literal; "0x" with nothing after it does not. */
  predicate HexPrefix(s: string) {
    |s| > 2 && s[0] == '0' && (s[1] == 'x' || s[1] == 'X')
  }

  function HexMask(s: string): Option<u32>
    requires HexPrefix(s)
  {
    Number(s[2..], 16)
  }

  function Number(s: string, base: nat): Option<u32> {
    var v :- ParseUint(s, base, TWO_32);
    Some(v as u32)
  }

  /** The union of the rights a run of codes names, with a hex literal closing it if there is one. */
  function Rights(s: string): Option<u32> {
    if s == "" then Some(0)
    else if HexPrefix(s) then HexMask(s)
    else if |s| < 2 then None
    else
      var bits :- RightBits(s[0], s[1]);
      var more :- Rights(s[2..]);
      Some(Or(bits, more))
  }

  /** An access mask: a decimal number, or rights; nothing is no rights. */
  function MaskOfText(s: string): Option<u32> {
    if s != "" && Decimal(s) then Number(s, 10) else Rights(s)
  }

  function MaskText(m: u32): string {
    if m == 0 then "" else "0x" + Digits(m as int, 16)
  }

  /** Rendering a mask in hex is exact. */
  lemma MaskBack(m: u32)
    ensures MaskOfText(MaskText(m)) == Some(m)
  {
    hide Digits, ParseUint;
    if m != 0 {
      ParseUintOfDigits(m as int, 16, TWO_32);
      var s := MaskText(m);
      assert s[0] == '0' && s[1] == 'x' && s[2..] == Digits(m as int, 16);
    }
  }

  /** Two-letter rights and nothing else. */
  predicate Codewise(s: string) {
    s == "" || (|s| >= 2 && RightBits(s[0], s[1]).Some? && Codewise(s[2..]))
  }

  /** The union of two masks, when both are masks. */
  ghost function Both(a: Option<u32>, b: Option<u32>): Option<u32> {
    if a.Some? && b.Some? then Some(Or(a.value, b.value)) else None
  }

  /** A run of codes followed by more codes, or by a hex literal, names the union of what each part names. */
  lemma {:induction false} RightsUnite(a: string, b: string)
    requires Codewise(a)
    ensures Rights(a).Some? && Rights(a + b) == Both(Rights(a), Rights(b))
  {
    hide Or;
    if a == "" {
      assert a + b == b;
      NoBits(Rights(b));
    } else {
      CodeIsNoHex(a);
      hide RightBits;
      assert (a + b)[0] == a[0] && (a + b)[1] == a[1] && (a + b)[2..] == a[2..] + b;
      RightsUnite(a[2..], b);
      if Rights(b).Some? {
        OrAssociates(RightBits(a[0], a[1]).value, Rights(a[2..]).value, Rights(b).value);
      }
    }
  }

  lemma CodeIsNoHex(s: string)
    requires |s| >= 2 && RightBits(s[0], s[1]).Some?
    ensures s[0] != '0'
  {
  }

  lemma NoBits(a: Option<u32>)
    ensures Both(Some(0), a) == a == Both(a, Some(0))
  {
  }

  /** parseMask. */
  method ReadMask(s: string) returns (r: Option<u32>)
    ensures r == MaskOfText(s)
  {
    if s == "" {
      return Some(0);
    }
    if HexPrefix(s) {
      NotDecimal(s);
      return HexMask(s);
    }
    if Decimal(s) {
      return Number(s, 10);
    }
    r := ReadRights(s);
  }

  lemma NotDecimal(s: string)
    requires HexPrefix(s)
    ensures !Decimal(s) && Rights(s) == HexMask(s)
  {
    assert s[1] == 'x' || s[1] == 'X';
  }

  /** The loop over two-letter codes; a hex literal takes the rest of the field. */
  method ReadRights(s: string) returns (r: Option<u32>)
    ensures r == Rights(s)
  {
    hide RightBits, HexMask, Or, Rights;
    var mask: u32 := 0;
    var i := 0;
    assert s[0..] == s;
    NoBits(Rights(s));
    while i < |s|
      invariant i <= |s|
      invariant Both(Some(mask), Rights(s[i..])) == Rights(s)
    {
      RightsStep(s, i, mask);
      if HexPrefix(s[i..]) {
        var v := HexMask(s[i..]);
        return if v.None? then None else Some(Or(mask, v.value));
      }
      if i + 2 > |s| {
        return None;
      }
      var code := RightBits(s[i], s[i + 1]);
      if code.None? {
        return None;
      }
      mask := Or(mask, code.value);
      i := i + 2;
    }
    assert s[|s|..] == "";
    RightsEnd(mask);
    r := Some(mask);
  }

  lemma RightsStep(s: string, i: nat, mask: u32)
    requires i < |s|
    ensures HexPrefix(s[i..]) ==> Rights(s[i..]) == HexMask(s[i..])
    ensures !HexPrefix(s[i..]) && i + 2 > |s| ==> Rights(s[i..]) == None
    ensures !HexPrefix(s[i..]) && i + 2 <= |s| && RightBits(s[i], s[i + 1]).None? ==> Rights(s[i..]) == None
    ensures !HexPrefix(s[i..]) && i + 2 <= |s| && RightBits(s[i], s[i + 1]).Some? ==>
              Both(Some(mask), Rights(s[i..])) == Both(Some(Or(mask, RightBits(s[i], s[i + 1]).value)), Rights(s[i + 2..]))
  {
    hide RightBits, HexMask, Or;
    if !HexPrefix(s[i..]) && i + 2 <= |s| {
      assert s[i..][2..] == s[i + 2..];
      if RightBits(s[i], s[i + 1]).Some? && Rights(s[i + 2..]).Some? {
        OrAssociates(mask, RightBits(s[i], s[i + 1]).value, Rights(s[i + 2..]).value);
      }
    }
  }

  lemma RightsEnd(mask: u32)
    ensures Both(Some(mask), Rights("")) == Some(mask)
  {
  }

  // --- GUIDs -----------------------------------------------------------

  /** A GUID's bytes in the order its text shows them: the first three fields are little-endian on the wire. */
  function Shown(g: seq<byte>): (b: seq<byte>)
    requires |g| == 16
    ensures |b| == 16
  {
    [g[3], g[2], g[1], g[0], g[5], g[4], g[7], g[6]] + g[8..]
  }

  lemma ShownTwice(g: seq<byte>)
    requires |g| == 16
    ensures Shown(Shown(g)) == g
  {
  }

  function GuidText(g: Guid): (s: string)
    ensures |s| == 36
  {
    var h := HexEncode(Shown(g));
    h[..8] + "-" + h[8..12] + "-" + h[12..16] + "-" + h[16..20] + "-" + h[20..]
  }

  /** The hex digits of a text in the 8-4-4-4-12 form. */
  function Undashed(s: string): Option<string> {
    if |s| != 36 || s[8] != '-' || s[13] != '-' || s[18] != '-' || s[23] != '-' then None
    else Some(s[..8] + s[9..13] + s[14..18] + s[19..23] + s[24..])
  }

  function GuidOfText(s: string): Option<Guid> {
    var h :- Undashed(s);
    var b :- HexDecode(h);
    if |b| == 16 then Some(Shown(b)) else None
  }

  lemma UndashedText(h: string)
    requires |h| == 32
    ensures Undashed(h[..8] + "-" + h[8..12] + "-" + h[12..16] + "-" + h[16..20] + "-" + h[20..]) == Some(h)
  {
    var s := h[..8] + "-" + h[8..12] + "-" + h[12..16] + "-" + h[16..20] + "-" + h[20..];
    assert s[..8] == h[..8] && s[9..13] == h[8..12] && s[14..18] == h[12..16] && s[19..23] == h[16..20] && s[24..] == h[20..];
    assert h[..8] + h[8..12] + h[12..16] + h[16..20] + h[20..] == h;
  }

  /** A GUID is read back from its text. */
  lemma GuidTextBack(g: Guid)
    ensures GuidOfText(GuidText(g)) == Some(g)
  {
    var h := HexEncode(Shown(g));
    UndashedText(h);
    HexRoundTrip(Shown(g));
    hide Undashed, HexEncode, HexDecode;
    ShownTwice(g);
  }

  lemma {:induction false} HexDecodeLength(s: string)
    requires HexDecode(s).Some?
    ensures |s| == 2 * |HexDecode(s).value|
  {
    if |s| >= 2 {
      HexDecodeLength(s[2..]);
    }
  }

  /** parseGUID, filling its array in place. */
  method ReadGuid(s: string) returns (r: Option<Guid>)
    ensures r == GuidOfText(s)
  {
    if |s| != 36 || s[8] != '-' || s[13] != '-' || s[18] != '-' || s[23] != '-' {
      return None;
    }
    var raw := HexDecode(s[..8] + s[9..13] + s[14..18] + s[19..23] + s[24..]);
    if raw.None? {
      return None;
    }
    HexDecodeLength(Undashed(s).value);
    var b := raw.value;
    var g := new byte[16];
    g[0], g[1], g[2], g[3] := b[3], b[2], b[1], b[0];
    g[4], g[5] := b[5], b[4];
    g[6], g[7] := b[7], b[6];
    for i := 8 to 16
      invariant forall k :: 0 <= k < i ==> g[k] == Shown(b)[k]
    {
      g[i] := b[i];
    }
    assert g[..] == Shown(b);
    r := Some(g[..]);
  }
}
