/**
 What Format writes for any descriptor (sddl/format.go), not only those Parse gives: which have a text, and which of
 the texts of the grammar it is. Components stand in the order O, G, D, S; flag words as P, AR, AI in capitals; flag
 codes in the order of the table; masks in hex.
 */
module SddlRendering {
  import opened Wrappers
  import opened Bytes
  import opened Numerals
  import opened Sid
  import opened Aliases
  import opened Aces
  import opened Descriptors
  import opened SddlTables
  import opened SddlText
  import V = SddlVocabulary
  import Decompiler
  import Postfix

  // --- flags and masks -------------------------------------------------

  /** The place of a flag code in the table. */
  function CodeRank(c: V.FlagPair): nat {
    if c == ('C', 'I') then 0 else if c == ('O', 'I') then 1 else if c == ('N', 'P') then 2 else if c == ('I', 'O') then 3
    else if c == ('I', 'D') then 4 else if c == ('S', 'A') then 5 else 6
  }

  function OneCode(on: bool, a: char, b: char): seq<V.FlagPair> { if on then [(a, b)] else [] }

  lemma {:induction false} CodesJoin(a: seq<V.FlagPair>, b: seq<V.FlagPair>)
    ensures V.FlagCodes(a + b) == V.FlagCodes(a) + V.FlagCodes(b)
  {
    if a == [] {
      assert a + b == b;
    } else {
      CodesJoin(a[1..], b);
      assert (a + b)[1..] == a[1..] + b;
    }
  }

  /** Codes are written in the table's order, each flag's once if it is set. */
  lemma CodesInOrder(f: Flags) returns (codes: seq<V.FlagPair>)
    requires !f.spare
    ensures FlagsText(f) == V.FlagCodes(codes) && V.KnownFlags(codes) && f == V.Raised(NO_FLAGS, codes)
    ensures forall i, j :: 0 <= i < j < |codes| ==> CodeRank(codes[i]) < CodeRank(codes[j])
  {
    codes := CodesFrom([Row(f.ci, 'C', 'I'), Row(f.oi, 'O', 'I'), Row(f.np, 'N', 'P'), Row(f.io, 'I', 'O'),
                        Row(f.inherited, 'I', 'D'), Row(f.success, 'S', 'A'), Row(f.failure, 'F', 'A')]);
    TableText(f, [Row(f.ci, 'C', 'I'), Row(f.oi, 'O', 'I'), Row(f.np, 'N', 'P'), Row(f.io, 'I', 'O'),
                  Row(f.inherited, 'I', 'D'), Row(f.success, 'S', 'A'), Row(f.failure, 'F', 'A')]);
    hide FlagsText;
    V.CodesRaise(NO_FLAGS, codes);
    FlagsBack(f);
  }

  predicate KnownRow(r: Row) { V.KnownFlag((r.a, r.b)) }

  lemma {:induction false} CodesFrom(table: seq<Row>) returns (codes: seq<V.FlagPair>)
    requires forall i :: 0 <= i < |table| ==> KnownRow(table[i])
    requires forall i, j :: 0 <= i < j < |table| ==> CodeRank((table[i].a, table[i].b)) < CodeRank((table[j].a, table[j].b))
    ensures Codes(table) == V.FlagCodes(codes) && V.KnownFlags(codes)
    ensures forall i, j :: 0 <= i < j < |codes| ==> CodeRank(codes[i]) < CodeRank(codes[j])
    ensures forall i :: 0 <= i < |codes| ==> exists k :: 0 <= k < |table| && codes[i] == (table[k].a, table[k].b)
  {
    codes := [];
    if table != [] {
      var more := CodesFrom(table[1..]);
      codes := OneCode(table[0].on, table[0].a, table[0].b) + more;
      CodesJoin(OneCode(table[0].on, table[0].a, table[0].b), more);
      hide CodeRank, V.KnownFlag;
      assert forall i :: 0 <= i < |table| - 1 ==> table[1..][i] == table[i + 1];
      if table[0].on {
        assert V.FlagCodes([(table[0].a, table[0].b)]) == [table[0].a, table[0].b] + V.FlagCodes([]);
      }
    }
  }

  /** A mask is written in lower-case hex without leading zeros, and no rights as nothing. */
  lemma MaskInHex(m: u32)
    requires m != 0
    ensures var s := MaskText(m);
            && |s| > 2 && s[0] == '0' && s[1] == 'x' && s[2] != '0' && Hex(s[2..]) && Value(s[2..], 16) == Some(m as nat)
  {
    ValueOfDigits(m as int, 16);
    var d := Digits(m as int, 16);
    assert MaskText(m)[2..] == d;
    if d[0] == '0' {
      DigitsOfZero(m as int, 16);
    }
    hide Digits, Value;
  }

  // --- ACEs ------------------------------------------------------------

  /** What the raw body of a callback ACE holds: mask, GUIDs where the type has them, trustee and condition code. */
  datatype Callback = Callback(mask: u32, objectType: Option<Guid>, inheritedType: Option<Guid>, sid: SID, code: seq<byte>)

  /** How it holds them; the presence word may have other bits set. */
  predicate Holds(kind: byte, body: seq<byte>, c: Callback) {
    && IsValid(c.sid)
    && if kind == 0x0b then
         && |body| >= 8
         && Odd(Word32(body[4..])) == c.objectType.Some? && Odd(Word32(body[4..]) / 2) == c.inheritedType.Some?
         && body == Le32(c.mask as int) + body[4..8] + GuidBytes(c.objectType) + GuidBytes(c.inheritedType) + Encoded(c.sid) + c.code
       else c.objectType == c.inheritedType == None && body == Le32(c.mask as int) + Encoded(c.sid) + c.code
  }

  /** Where the header ends. */
  function HeaderEnd(kind: byte, c: Callback): nat {
    if kind == 0x0b then 8 + |GuidBytes(c.objectType)| + |GuidBytes(c.inheritedType)| else 4
  }

  /** The same as the cursor of the formatter finds them. */
  predicate Found(kind: byte, body: seq<byte>, c: Callback) {
    && |body| >= 4 && Word32(body) == c.mask as int
    && ObjectHeader(kind, body) == Some((c.objectType, c.inheritedType, HeaderEnd(kind, c)))
    && HeaderEnd(kind, c) <= |body| && ParseSID(body[HeaderEnd(kind, c)..]) == Some(c.sid)
    && c.code == body[HeaderEnd(kind, c) + |Encoded(c.sid)|..]
  }

  lemma WholeIsFront(front: seq<byte>, code: seq<byte>, body: seq<byte>)
    ensures body == front + code <==> front <= body && code == body[|front|..]
  {
  }

  lemma HoldsPlain(kind: byte, body: seq<byte>, c: Callback)
    requires IsCallback(kind) && kind != 0x0b
    ensures Holds(kind, body, c) <==> Found(kind, body, c)
  {
    hide Word32, Le32, Encoded, ParseSID;
    var m, e := Le32(c.mask as int), Encoded(c.sid);
    WholeIsFront(m + e, c.code, body);
    TwoFronts(m, e, body);
    if |body| >= 4 {
      MaskIsFront(body, c.mask);
      ParsedIsFront(body[4..], c.sid);
    }
  }

  lemma GuidsAreFound(body: seq<byte>, o: Option<Guid>, i: Option<Guid>)
    requires |body| >= 8 && Odd(Word32(body[4..])) == o.Some? && Odd(Word32(body[4..]) / 2) == i.Some?
    ensures var x, y := GuidBytes(o), GuidBytes(i);
            ObjectHeader(0x0b, body) == Some((o, i, 8 + |x| + |y|)) <==> x <= body[8..] && y <= body[8 + |x|..]
  {
    hide Word32, GuidAt, GuidBytes, Odd;
    var x := GuidBytes(o);
    GuidIsRead(body, 8, o);
    GuidLength(body, 8, o.Some?, o);
    if GuidAt(body, 8, o.Some?) == Some((o, 8 + |x|)) {
      GuidIsRead(body, 8 + |x|, i);
    }
  }

  lemma HoldsGuids(body: seq<byte>, c: Callback)
    ensures Holds(0x0b, body, c) <==> Found(0x0b, body, c)
  {
    hide Word32, Le32, ParseSID, Encoded, ObjectHeader, GuidBytes, Odd;
    if |body| >= 8 && Odd(Word32(body[4..])) == c.objectType.Some? && Odd(Word32(body[4..]) / 2) == c.inheritedType.Some? {
      var m, o, i, e := Le32(c.mask as int), GuidBytes(c.objectType), GuidBytes(c.inheritedType), Encoded(c.sid);
      var off := 8 + |o| + |i|;
      WholeIsFront(m + body[4..8] + o + i + e, c.code, body);
      FiveFronts(m, body[4..8], o, i, e, body);
      MaskIsFront(body, c.mask);
      GuidsAreFound(body, c.objectType, c.inheritedType);
      if off <= |body| {
        ParsedIsFront(body[off..], c.sid);
      }
    } else if |body| >= 8 {
      OtherGuids(body, c);
    } else if |body| >= 4 {
      ShortHeader(body);
    }
  }

  lemma ShortHeader(body: seq<byte>)
    requires 4 <= |body| < 8
    ensures ObjectHeader(0x0b, body) == None
  {
  }

  lemma OtherGuids(body: seq<byte>, c: Callback)
    requires |body| >= 8
    requires Odd(Word32(body[4..])) != c.objectType.Some? || Odd(Word32(body[4..]) / 2) != c.inheritedType.Some?
    ensures !Found(0x0b, body, c)
  {
    hide Word32, ParseSID, GuidAt, Odd, HeaderEnd;
    GuidFound(body, 8, Odd(Word32(body[4..])));
    var first := GuidAt(body, 8, Odd(Word32(body[4..])));
    if first.Some? {
      GuidFound(body, first.value.1, Odd(Word32(body[4..]) / 2));
    }
  }

  /** The text of an ACE that has one: its type is supported, its flags have codes, and a callback's body holds a condition. */
  ghost predicate AceShows(a: Ace, text: string, o: Options) {
    && IsSupported(a.kind) && !a.flags.spare
    && if IsCallback(a.kind) then
         exists c: Callback, cond ::
           && Holds(a.kind, RawBody(a), c) && Postfix.Encodes(c.code, cond, o)
           && text == Clause(TagText(a.kind), a.flags, c.mask, c.objectType, c.inheritedType, FormatSid(o, c.sid), Group(cond))
       else text == Clause(TagText(a.kind), a.flags, a.mask, a.objectType, a.inheritedType, FormatSid(o, a.sid), "")
  }

  lemma CallbackIsFound(a: Ace, tag: string, c: Callback, cond: string, o: Options)
    requires Found(a.kind, RawBody(a), c) && Decompiler.DecodeCondition(c.code, o) == Some(cond)
    ensures FormatCallback(a, tag, o)
         == Some(Clause(tag, a.flags, c.mask, c.objectType, c.inheritedType, FormatSid(o, c.sid), Group(cond)))
  {
    hide ObjectHeader, ParseSID, FormatSid, Clause, Word32, Encoded, Decompiler.DecodeCondition;
  }

  lemma CallbackSteps(a: Ace, tag: string, o: Options)
    requires FormatCallback(a, tag, o).Some?
    ensures var body := RawBody(a);
            && |body| >= 4 && ObjectHeader(a.kind, body).Some?
            && var off := ObjectHeader(a.kind, body).value.2;
               && ParseSID(body[off..]).Some?
               && var end := off + |Encoded(ParseSID(body[off..]).value)|;
                  end <= |body| && Decompiler.DecodeCondition(body[end..], o).Some?
  {
    hide ObjectHeader, FormatSid, Clause, Word32, Decompiler.DecodeCondition;
  }

  lemma FoundIsCallback(a: Ace, tag: string, o: Options) returns (c: Callback, cond: string)
    requires IsCallback(a.kind) && FormatCallback(a, tag, o).Some?
    ensures Found(a.kind, RawBody(a), c) && Decompiler.DecodeCondition(c.code, o) == Some(cond)
  {
    hide FormatCallback, ObjectHeader, FormatSid, Clause, Word32, Decompiler.DecodeCondition, ParseSID, Encoded;
    CallbackSteps(a, tag, o);
    var body := RawBody(a);
    HeaderEnds(a.kind, body);
    var (objectType, inheritedType, off) := ObjectHeader(a.kind, body).value;
    var sid := ParseSID(body[off..]).value;
    c := Callback(Word32(body) as u32, objectType, inheritedType, sid, body[off + |Encoded(sid)|..]);
    cond := Decompiler.DecodeCondition(c.code, o).value;
  }

  lemma HeaderEnds(kind: byte, body: seq<byte>)
    requires |body| >= 4 && ObjectHeader(kind, body).Some?
    ensures var (objectType, inheritedType, off) := ObjectHeader(kind, body).value;
            off == if kind == 0x0b then 8 + |GuidBytes(objectType)| + |GuidBytes(inheritedType)| else 4
  {
    hide Word32, Odd;
  }

  lemma HoldsIsFound(kind: byte, body: seq<byte>, c: Callback)
    requires IsCallback(kind)
    ensures Holds(kind, body, c) <==> Found(kind, body, c)
  {
    if kind == 0x0b {
      HoldsGuids(body, c);
    } else {
      HoldsPlain(kind, body, c);
    }
  }

  /** An ACE is rendered as that text, and is an error when it has none. */
  lemma AceIsShown(a: Ace, text: string, o: Options)
    ensures FormatAce(a, o) == Some(text) <==> AceShows(a, text, o)
  {
    hide Holds, Found, FormatCallback, Clause, FormatSid, Decompiler.DecodeCondition, Postfix.Encodes;
    if IsSupported(a.kind) {
      SupportedHasTag(a.kind);
      if IsCallback(a.kind) {
        var tag := TagText(a.kind);
        if FormatCallback(a, tag, o) == Some(text) {
          var c, cond := FoundIsCallback(a, tag, o);
          CallbackIsFound(a, tag, c, cond, o);
          HoldsIsFound(a.kind, RawBody(a), c);
          Postfix.DecompilerIsGrammar(c.code, cond, o);
        }
        if AceShows(a, text, o) {
          var c: Callback, cond :| Holds(a.kind, RawBody(a), c) && Postfix.Encodes(c.code, cond, o)
            && text == Clause(tag, a.flags, c.mask, c.objectType, c.inheritedType, FormatSid(o, c.sid), Group(cond));
          HoldsIsFound(a.kind, RawBody(a), c);
          Postfix.DecompilerIsGrammar(c.code, cond, o);
          CallbackIsFound(a, tag, c, cond, o);
        }
      }
    }
  }

  function Joined(texts: seq<string>): string {
    if texts == [] then "" else texts[0] + Joined(texts[1..])
  }

  ghost predicate AcesShow(aces: seq<Ace>, texts: seq<string>, o: Options) {
    |texts| == |aces| && forall i :: 0 <= i < |aces| ==> AceShows(aces[i], texts[i], o)
  }

  lemma {:induction false} AcesAreShown(aces: seq<Ace>, text: string, o: Options)
    ensures FormatAces(aces, o) == Some(text) <==> exists texts :: AcesShow(aces, texts, o) && text == Joined(texts)
  {
    hide AceShows, FormatAce;
    if aces == [] {
      assert AcesShow([], [], o);
    } else {
      if FormatAces(aces, o) == Some(text) {
        var first, rest := FormatAce(aces[0], o).value, FormatAces(aces[1..], o).value;
        AceIsShown(aces[0], first, o);
        AcesAreShown(aces[1..], rest, o);
        var more :| AcesShow(aces[1..], more, o) && rest == Joined(more);
        var texts := [first] + more;
        assert texts[1..] == more && AcesShow(aces, texts, o);
      }
      if texts :| AcesShow(aces, texts, o) && text == Joined(texts) {
        AceIsShown(aces[0], texts[0], o);
        assert AcesShow(aces[1..], texts[1..], o);
        AcesAreShown(aces[1..], Joined(texts[1..]), o);
      }
    }
  }

  // --- descriptors -----------------------------------------------------

  lemma LettersAre(p: bool, r: bool, i: bool)
    ensures Letter(p, 'P') == (if p then "P" else "") && FlagCode(r, 'A', 'R') == (if r then "AR" else "")
    ensures FlagCode(i, 'A', 'I') == if i then "AI" else ""
  {
  }

  lemma NullDacl()
    ensures "D:" + NullWord() == "D:NO_ACCESS_CONTROL" && NullWord() == "NO_ACCESS_CONTROL"
  {
  }

  /** The flags of a section, from the bits of the control word. */
  function FlagsOfBits(control: nat, protected: nat, requested: nat, inherited: nat): string
    requires protected > 0 && requested > 0 && inherited > 0
  {
    (if Has(control, protected) then "P" else "") + (if Has(control, requested) then "AR" else "")
    + (if Has(control, inherited) then "AI" else "")
  }

  /** A section: nothing for a NULL ACL without flags. */
  function SectionOf(tag: char, flags: string, texts: Option<seq<string>>): string {
    match texts
    case None => if flags == "" then "" else [tag, ':'] + flags + "NO_ACCESS_CONTROL"
    case Some(ts) => [tag, ':'] + flags + Joined(ts)
  }

  ghost predicate ListShows(l: Option<Acl>, texts: Option<seq<string>>, o: Options) {
    match l
    case None => texts == None
    case Some(acl) => texts.Some? && AcesShow(acl.entries, texts.value, o)
  }

  function OwnerText(tag: char, sid: SID, o: Options): string {
    if IsValid(sid) then [tag, ':'] + FormatSid(o, sid) else ""
  }

  /** The text of a descriptor whose present bits have their lists: owner, group, DACL and SACL, or the NULL DACL. */
  ghost predicate DescriptorShows(d: Descriptor, text: string, o: Options) {
    && (Has(d.control, 0x04) ==> d.dacl.Some?) && (Has(d.control, 0x10) ==> d.sacl.Some?)
    && exists dacl, sacl ::
         && ListShows(d.dacl, dacl, o) && ListShows(d.sacl, sacl, o)
         && var whole := OwnerText('O', d.owner, o) + OwnerText('G', d.group, o)
                         + SectionOf('D', FlagsOfBits(d.control, 0x1000, 0x100, 0x400), dacl)
                         + SectionOf('S', FlagsOfBits(d.control, 0x2000, 0x200, 0x800), sacl);
            text == if whole == "" then "D:NO_ACCESS_CONTROL" else whole
  }

  lemma SectionIsShown(tag: char, l: Option<Acl>, flags: string, text: string, o: Options)
    ensures FormatSection(tag, l, flags, o) == Some(text)
       <==> exists texts :: ListShows(l, texts, o) && text == SectionOf(tag, flags, texts)
  {
    hide FormatAces, AcesShow, Joined;
    match l
    case None =>
      assert ListShows(l, None, o);
    case Some(acl) =>
      if FormatSection(tag, l, flags, o) == Some(text) {
        var aces := FormatAces(acl.entries, o).value;
        AcesAreShown(acl.entries, aces, o);
        var texts :| AcesShow(acl.entries, texts, o) && aces == Joined(texts);
        assert ListShows(l, Some(texts), o);
      }
      if texts :| ListShows(l, texts, o) && text == SectionOf(tag, flags, texts) {
        AcesAreShown(acl.entries, Joined(texts.value), o);
      }
  }

  lemma FlagsAreBits(control: nat)
    ensures ControlFlags(control, false) == FlagsOfBits(control, 0x1000, 0x100, 0x400)
    ensures ControlFlags(control, true) == FlagsOfBits(control, 0x2000, 0x200, 0x800)
  {
    hide Has;
    LettersAre(Has(control, 0x1000), Has(control, 0x100), Has(control, 0x400));
    LettersAre(Has(control, 0x2000), Has(control, 0x200), Has(control, 0x800));
    hide Letter, FlagCode;
  }

  /** Any descriptor is rendered as exactly that text, and is an error exactly when it has none. */
  lemma DescriptorIsShown(d: Descriptor, text: string, o: Options)
    ensures Format(d, o) == Some(text) <==> DescriptorShows(d, text, o)
  {
    hide Has, FormatSection, ControlFlags, FlagsOfBits, SectionOf, ListShows, FormatSid, IsValid;
    FlagsAreBits(d.control);
    NullDacl();
    var df, sf := ControlFlags(d.control, false), ControlFlags(d.control, true);
    if Format(d, o) == Some(text) {
      var dacl, sacl := FormatSection('D', d.dacl, df, o).value, FormatSection('S', d.sacl, sf, o).value;
      SectionIsShown('D', d.dacl, df, dacl, o);
      SectionIsShown('S', d.sacl, sf, sacl, o);
    }
    if DescriptorShows(d, text, o) {
      var dacl, sacl :| ListShows(d.dacl, dacl, o) && ListShows(d.sacl, sacl, o)
         && var whole := OwnerText('O', d.owner, o) + OwnerText('G', d.group, o)
                         + SectionOf('D', FlagsOfBits(d.control, 0x1000, 0x100, 0x400), dacl)
                         + SectionOf('S', FlagsOfBits(d.control, 0x2000, 0x200, 0x800), sacl);
            text == if whole == "" then "D:NO_ACCESS_CONTROL" else whole;
      SectionIsShown('D', d.dacl, df, SectionOf('D', df, dacl), o);
      SectionIsShown('S', d.sacl, sf, SectionOf('S', sf, sacl), o);
    }
  }
}
