/** Format of what Parse builds, and the round trip of whole descriptors. */
module SddlDescriptors {
  import opened Wrappers
  import opened Bytes
  import opened Sid
  import opened Aliases
  import opened Aces
  import opened Descriptors
  import opened Conditions
  import opened SddlControl
  import opened SddlTables
  import opened SddlText
  import opened SddlScanning
  import opened SddlRoundTrip
  import opened SddlTheorems
  import Numerals
  import Text
  import ConditionRoundTrip
  import Decompiler

  // --- callback ACEs ---------------------------------------------------

  lemma MaskWord(mask: u32, rest: seq<byte>)
    ensures Word32(Le32(mask as int) + rest) == mask as int
  {
    Word32OfLe32(mask as int, rest);
  }

  /** The object header of a callback body is read back, and the SID and condition come after it. */
  lemma ObjectHeaderBack(a: TextAce, artx: seq<byte>)
    requires a.kind == ALLOWED_CALLBACK_OBJECT
    ensures var b := CallbackBody(a, artx);
            && |b| >= 4 && Word32(b) == a.mask as int
            && ObjectHeader(a.kind, b).Some?
            && var (o, i, off) := ObjectHeader(a.kind, b).value;
            o == a.objectType && i == a.inheritedType && b[off..] == Encoded(a.sid) + artx
  {
    hide Le32, Word32, GuidAt, Odd, Presence, GuidBytes, Encoded;
    var s := Structured(a);
    var o, i, sid := GuidBytes(a.objectType), GuidBytes(a.inheritedType), Encoded(a.sid);
    var m, p := Le32(a.mask as int), Le32(Presence(s));
    var b := CallbackBody(a, artx);
    assert b == m + p + o + i + (sid + artx);
    PresenceBits(s);
    PresenceFits(s);
    BodyLayout(m, p, o, i, sid + artx);
    MaskWord(a.mask, p + (o + (i + (sid + artx))));
    Word32Back(Presence(s), o + (i + (sid + artx)));
    GuidBack(b, 8, a.objectType);
    GuidBack(b, 8 + |o|, a.inheritedType);
  }

  lemma PlainHeaderBack(a: TextAce, artx: seq<byte>)
    requires a.kind != ALLOWED_CALLBACK_OBJECT
    ensures var b := CallbackBody(a, artx);
            |b| >= 4 && Word32(b) == a.mask as int && ObjectHeader(a.kind, b) == Some((None, None, 4)) && b[4..] == Encoded(a.sid) + artx
  {
    hide Le32, Word32, Encoded;
    MaskWord(a.mask, Encoded(a.sid) + artx);
    assert CallbackBody(a, artx) == Le32(a.mask as int) + (Encoded(a.sid) + artx);
  }

  /** A callback body gives back its mask, GUIDs and SID, and the rest is the encoded condition. */
  lemma HeaderBack(a: TextAce, artx: seq<byte>)
    requires WritableAce(a) && IsCallback(a.kind)
    ensures var b := CallbackBody(a, artx);
            && |b| >= 4 && Word32(b) == a.mask as int
            && ObjectHeader(a.kind, b).Some?
            && var (o, i, off) := ObjectHeader(a.kind, b).value;
            && o == a.objectType && i == a.inheritedType
            && ParseSID(b[off..]) == Some(a.sid) && b[off + |Encoded(a.sid)|..] == artx
  {
    ParseOfEncoded(a.sid, artx);
    if a.kind == ALLOWED_CALLBACK_OBJECT {
      ObjectHeaderBack(a, artx);
    } else {
      PlainHeaderBack(a, artx);
    }
    hide CallbackBody, ObjectHeader, Word32, Encoded, ParseSID;
    var b := CallbackBody(a, artx);
    var off := ObjectHeader(a.kind, b).value.2;
    AfterSid(b, off, Encoded(a.sid), artx);
  }

  lemma AfterSid(b: seq<byte>, off: nat, sid: seq<byte>, artx: seq<byte>)
    requires off <= |b| && b[off..] == sid + artx
    ensures off + |sid| <= |b| && b[off + |sid|..] == artx
  {
    assert b[off + |sid|..] == b[off..][|sid|..];
  }

  lemma CallbackFormats(a: TextAce, o: Options)
    requires WritableAce(a) && AceFits(a) && IsCallback(a.kind)
    ensures FormatAce(AceOf(a), o) == Some(AceText(a, o))
  {
    var c := a.cond.value;
    var artx := EncodedBody(Code(c));
    HeaderBack(a, artx);
    SupportedHasTag(a.kind);
    Decompiler.DecodeOfEncoded(c, o);
    hide CallbackBody, ObjectHeader, Word32, Encoded, ParseSID, Clause, FormatSid, EncodedBody, Code, Decompiler.ConditionText;
    hide Decompiler.DecodeCondition, TagOfType;
  }

  lemma PlainFormats(a: TextAce, o: Options)
    requires WritableAce(a) && !IsCallback(a.kind)
    ensures FormatAce(AceOf(a), o) == Some(AceText(a, o))
  {
    SupportedHasTag(a.kind);
    hide Clause, FormatSid, TagOfType;
  }

  lemma {:induction false} AcesFormat(aces: seq<TextAce>, o: Options)
    requires forall i :: 0 <= i < |aces| ==> WritableAce(aces[i]) && AceFits(aces[i])
    ensures FormatAces(AcesOf(aces), o) == Some(AcesText(aces, o))
  {
    hide FormatAce, AceOf, AceText, WritableAce, AceFits;
    if aces != [] {
      AceFormats(aces[0], o);
      AcesFormat(aces[1..], o);
      assert AcesOf(aces)[1..] == AcesOf(aces[1..]);
    }
  }

  lemma AceFormats(a: TextAce, o: Options)
    requires WritableAce(a) && AceFits(a)
    ensures FormatAce(AceOf(a), o) == Some(AceText(a, o))
  {
    if IsCallback(a.kind) {
      CallbackFormats(a, o);
    } else {
      PlainFormats(a, o);
    }
  }

  // --- whole descriptors -----------------------------------------------

  lemma NoFlagsNoText(p: bool, r: bool, i: bool)
    ensures AclFlagsText(p, r, i) == "" <==> !p && !r && !i
  {
  }

  lemma SectionFormats(tag: char, l: TextAcl, o: Options)
    requires WritableAcl(l) && AclFits(l)
    ensures FormatSection(tag, AclOf(l), AclFlagsText(l.protected, l.requested, l.inherited), o) == Some(SectionText(tag, l, o))
  {
    hide FormatAces, AcesOf, AcesText, AclFlagsText, NullWord, WritableAce, AceFits;
    NoFlagsNoText(l.protected, l.requested, l.inherited);
    var flags := AclFlagsText(l.protected, l.requested, l.inherited);
    match l.aces {
      case None => assert [tag, ':'] + flags + NullWord() == [tag, ':'] + (flags + NullWord());
      case Some(aces) =>
        AcesFormat(aces, o);
        assert [tag, ':'] + flags + AcesText(aces, o) == [tag, ':'] + (flags + AcesText(aces, o));
    }
  }

  /** Format succeeds on everything Parse builds, and says what the tree says. */
  lemma BuildFormats(t: Tree, o: Options)
    requires Writable(t) && TreeFits(t)
    ensures Format(Build(t), o) == Some(TreeText(t, o))
  {
    ControlBits(t.dacl, t.sacl);
    hide ControlOf, Has, FormatSection, SectionText, AclFlagsText, SidPart, OrNull, WritableAcl, AclFits;
    SectionFormats('D', t.dacl, o);
    SectionFormats('S', t.sacl, o);
  }

  /**
   The round trip of descriptors through text. Whatever Parse accepts, Format renders; and what it renders is parsed
   to the very same descriptor, control bits, NULL and empty lists, order, GUIDs and callback bodies included, unless
   the D of D: is swallowed by a hex number before it or a string literal's parentheses and semicolons mislead the
   scanner, and then it is not parsed at all.
   */
  lemma ParseFormatParse(s: string, o: Options)
    requires WellFormed(o.aliases) && TreeOf(s, o).Some?
    requires TreeFits(TreeOf(s, o).value)
    ensures var t := TreeOf(s, o).value;
            var d := SddlText.Parse(s, o).value;
            && Format(d, o) == Some(TreeText(t, o))
            && SddlText.Parse(TreeText(t, o), o) == if Readable(t, o) then Some(d) else None
  {
    hide ScanParts, TrimLeft, TrimRight, WritableAcl, TreeFits, Readable, TreeText, Format, Build, WellFormed;
    var t := TreeOf(s, o).value;
    ParsedIsWritable(s, o);
    BuildFormats(t, o);
    TreeReadsBack(t, o);
  }

  lemma ParsedIsWritable(s: string, o: Options)
    requires WellFormed(o.aliases) && TreeOf(s, o).Some?
    ensures Writable(TreeOf(s, o).value)
  {
    ScannedPartsAreWritable(TrimRight(TrimLeft(s)), o, EMPTY, NOTHING);
  }

  // --- when rendered text is readable ----------------------------------

  /** No parenthesis in any string literal. */
  predicate QuietOperand(x: Operand)
    decreases x, 1
  {
    match x
    case StringLit(s) => Quiet(s)
    case Composite(items) => QuietItems(items)
    case _ => true
  }

  predicate QuietItems(items: seq<Operand>)
    decreases items, 0
  {
    items == [] || (QuietOperand(items[0]) && QuietItems(items[1..]))
  }

  predicate QuietCondition(c: Condition) {
    match c
    case Compare(_, lhs, rhs) => QuietOperand(lhs) && QuietOperand(rhs)
    case Member(_, x) => QuietOperand(x)
    case Exists(x) => QuietOperand(x)
    case NotExists(x) => QuietOperand(x)
    case And(l, r) => QuietCondition(l) && QuietCondition(r)
    case Or(l, r) => QuietCondition(l) && QuietCondition(r)
    case Not(sub) => QuietCondition(sub)
  }

  /** Text whose parentheses match, wherever it stands inside others. */
  ghost predicate Nested(s: string) {
    forall d: int :: d >= 1 ==> CloseAt(s, d).None? && DepthAfter(s, d) == d && Fields(s, d) == [s]
  }

  lemma NestedIsSafe(s: string)
    requires Nested(s)
    ensures ScanSafe(s)
  {
    assert CloseAt(s, 2).None? && Fields(s, 1) == [s];
  }

  lemma QuietIsNested(s: string)
    requires Quiet(s)
    ensures Nested(s)
  {
    hide Quiet;
    forall d: int | d >= 1 ensures CloseAt(s, d).None? && DepthAfter(s, d) == d && Fields(s, d) == [s] {
      QuietIsLevel(s, d);
      QuietIsOneField(s, d);
    }
  }

  lemma NestedAppend(a: string, b: string)
    requires Nested(a) && Nested(b)
    ensures Nested(a + b)
  {
    forall d: int | d >= 1 ensures CloseAt(a + b, d).None? && DepthAfter(a + b, d) == d && Fields(a + b, d) == [a + b] {
      assert CloseAt(a, d).None? && CloseAt(b, d).None? && Fields(a, d) == [a] && Fields(b, d) == [b];
      hide CloseAt, DepthAfter, Fields;
      CloseAtAppend(a, b, d);
      DepthAppend(a, b, d);
      FieldsAppend(a, b, d);
    }
  }

  lemma NestedGroup(a: string)
    requires Nested(a)
    ensures Nested("(" + a + ")")
  {
    var s := "(" + a + ")";
    forall d: int | d >= 1 ensures CloseAt(s, d).None? && DepthAfter(s, d) == d && Fields(s, d) == [s] {
      assert CloseAt(a, d + 1).None? && Fields(a, d + 1) == [a];
      ClosingText(d + 1);
      OpeningText(a + ")", d);
      hide CloseAt, DepthAfter, Fields;
      CloseAtAppend(a, ")", d + 1);
      DepthAppend(a, ")", d + 1);
      FieldsAppend(a, ")", d + 1);
      assert s == "(" + (a + ")");
    }
  }

  lemma ClosingText(d: int)
    requires d >= 2
    ensures CloseAt(")", d).None? && DepthAfter(")", d) == d - 1 && Fields(")", d) == [")"]
  {
    assert ")"[1..] == "" && [')'] + "" == ")";
  }

  lemma OpeningText(s: string, d: int)
    requires d >= 1
    ensures CloseAt(s, d + 1).None? ==> CloseAt("(" + s, d).None?
    ensures DepthAfter("(" + s, d) == DepthAfter(s, d + 1)
    ensures Fields(s, d + 1) == [s] ==> Fields("(" + s, d) == ["(" + s]
  {
    assert ("(" + s)[1..] == s && ['('] + s == "(" + s;
  }

  lemma IntegerIsQuiet(n: int)
    ensures Quiet(Numerals.FormatInt(n))
  {
    var s := Numerals.FormatInt(n);
    assert forall i :: 0 < i < |s| ==> s[i] == s[1..][i - 1];
  }

  lemma AttributeIsQuiet(x: Operand)
    requires x.Attr? && ConditionRoundTrip.Printable(x)
    ensures Quiet(Decompiler.ClassPrefix(x.scope) + x.name)
  {
  }

  lemma {:induction false} OperandIsNested(x: Operand, o: Options)
    requires WellFormed(o.aliases) && ConditionRoundTrip.Printable(x) && QuietOperand(x)
    ensures Nested(Decompiler.OperandText(x, o))
    decreases x, 1
  {
    hide Nested, WellFormed;
    match x
    case IntLit(n) =>
      IntegerIsQuiet(n);
      QuietIsNested(Numerals.FormatInt(n));
    case StringLit(s) => QuietIsNested("\"" + s + "\"");
    case OctetLit(data) =>
      HexIsPlain(Numerals.HexEncode(data));
      QuietIsNested("#" + Numerals.HexEncode(data));
    case SidLit(sid) => SidIsNested(sid, o);
    case Attr(scope, name) =>
      AttributeIsQuiet(x);
      QuietIsNested(Decompiler.ClassPrefix(scope) + name);
    case Composite(items) =>
      ItemsAreNested(items, o);
      BracesAreNested(Text.Join(Decompiler.Texts(items, o), ", "));
  }

  lemma SidIsNested(sid: SID, o: Options)
    requires WellFormed(o.aliases) && IsValid(sid)
    ensures Nested("SID(" + FormatSid(o, sid) + ")")
  {
    hide Nested, FormatSid, WellFormed, IsValid;
    SidIsPlain(sid, o);
    var t := FormatSid(o, sid);
    PlainIsOneField(t, 0);
    hide Plain, Quiet, Fields;
    QuietIsNested(t);
    NestedGroup(t);
    SidWordIsNested();
    NestedAppend("SID", "(" + t + ")");
    assert "SID" + ("(" + t + ")") == "SID(" + t + ")";
  }

  lemma SidWordIsNested()
    ensures Nested("SID")
  {
    hide Nested;
    QuietIsNested("SID");
  }

  lemma BracesAreNested(s: string)
    requires Nested(s)
    ensures Nested("{" + s + "}")
  {
    hide Nested;
    QuietIsNested("{");
    QuietIsNested("}");
    NestedAppend("{", s);
    NestedAppend("{" + s, "}");
  }

  lemma {:induction false} ItemsAreNested(items: seq<Operand>, o: Options)
    requires WellFormed(o.aliases) && ConditionRoundTrip.AllPrintable(items) && QuietItems(items)
    ensures Nested(Text.Join(Decompiler.Texts(items, o), ", "))
    decreases items, 0
  {
    hide Nested, WellFormed;
    if items == [] {
      QuietIsNested("");
    } else {
      OperandIsNested(items[0], o);
      ItemsAreNested(items[1..], o);
      ListIsNested(Decompiler.OperandText(items[0], o), Decompiler.Texts(items[1..], o));
      assert Decompiler.Texts(items, o) == [Decompiler.OperandText(items[0], o)] + Decompiler.Texts(items[1..], o);
    }
  }

  lemma ListIsNested(first: string, rest: seq<string>)
    requires Nested(first) && Nested(Text.Join(rest, ", "))
    ensures Nested(Text.Join([first] + rest, ", "))
  {
    hide Nested;
    var all := [first] + rest;
    assert all[1..] == rest && all[0] == first;
    if rest != [] {
      QuietIsNested(", ");
      NestedAppend(first, ", ");
      NestedAppend(first + ", ", Text.Join(rest, ", "));
    }
  }

  lemma OperatorsAreQuiet(op: CompareOp)
    ensures Quiet(" " + Decompiler.CompareText(op) + " ")
  {
  }

  lemma MembersAreQuiet(op: MemberOp)
    ensures Quiet(Decompiler.MemberText(op) + " ")
  {
    ConditionRoundTrip.MemberTextIsIdentifier(op);
    hide Decompiler.MemberText;
  }

  lemma PrefixIsNested(word: string, x: Operand, o: Options)
    requires Quiet(word + " ") && Nested(Decompiler.OperandText(x, o))
    ensures Nested(word + " " + Decompiler.OperandText(x, o))
  {
    hide Nested, Decompiler.OperandText;
    QuietIsNested(word + " ");
    NestedAppend(word + " ", Decompiler.OperandText(x, o));
  }

  lemma CompareIsNested(op: CompareOp, a: string, b: string)
    requires Nested(a) && Nested(b)
    ensures Nested(a + " " + Decompiler.CompareText(op) + " " + b)
  {
    OperatorsAreQuiet(op);
    hide Nested, Decompiler.CompareText;
    var mid := " " + Decompiler.CompareText(op) + " ";
    QuietIsNested(mid);
    NestedAppend(a, mid);
    NestedAppend(a + mid, b);
    assert a + mid + b == a + " " + Decompiler.CompareText(op) + " " + b;
  }

  lemma LogicalIsNested(a: string, op: string, b: string)
    requires Nested(a) && Nested(b) && Quiet(op)
    ensures Nested("(" + a + ")" + op + "(" + b + ")")
  {
    hide Nested;
    NestedGroup(a);
    NestedGroup(b);
    QuietIsNested(op);
    NestedAppend("(" + a + ")", op);
    NestedAppend("(" + a + ")" + op, "(" + b + ")");
    assert "(" + a + ")" + op + ("(" + b + ")") == "(" + a + ")" + op + "(" + b + ")";
  }

  /** Without parentheses in its string literals, a condition's text has matching parentheses only. */
  lemma {:induction false} ConditionIsNested(c: Condition, o: Options)
    requires WellFormed(o.aliases) && ConditionRoundTrip.PrintableCondition(c) && QuietCondition(c)
    ensures Nested(Decompiler.ConditionText(c, o))
    decreases c
  {
    hide Nested, WellFormed, Decompiler.OperandText, Decompiler.CompareText, Decompiler.MemberText, QuietOperand, ConditionRoundTrip.Printable;
    match c
    case Compare(op, lhs, rhs) =>
      OperandIsNested(lhs, o);
      OperandIsNested(rhs, o);
      CompareIsNested(op, Decompiler.OperandText(lhs, o), Decompiler.OperandText(rhs, o));
    case Member(op, x) =>
      OperandIsNested(x, o);
      MembersAreQuiet(op);
      PrefixIsNested(Decompiler.MemberText(op), x, o);
    case Exists(x) =>
      OperandIsNested(x, o);
      assert "Exists" + " " == "Exists ";
      PrefixIsNested("Exists", x, o);
    case NotExists(x) =>
      OperandIsNested(x, o);
      assert "Not_Exists" + " " == "Not_Exists ";
      PrefixIsNested("Not_Exists", x, o);
    case And(l, r) =>
      ConditionIsNested(l, o);
      ConditionIsNested(r, o);
      LogicalTextIs(Decompiler.ConditionText(l, o), Decompiler.ConditionText(r, o));
      LogicalIsNested(Decompiler.ConditionText(l, o), " && ", Decompiler.ConditionText(r, o));
    case Or(l, r) =>
      ConditionIsNested(l, o);
      ConditionIsNested(r, o);
      LogicalTextIs(Decompiler.ConditionText(l, o), Decompiler.ConditionText(r, o));
      LogicalIsNested(Decompiler.ConditionText(l, o), " || ", Decompiler.ConditionText(r, o));
    case Not(sub) =>
      ConditionIsNested(sub, o);
      NestedGroup(Decompiler.ConditionText(sub, o));
      QuietIsNested("!");
      NestedAppend("!", "(" + Decompiler.ConditionText(sub, o) + ")");
      assert "!" + ("(" + Decompiler.ConditionText(sub, o) + ")") == "!(" + Decompiler.ConditionText(sub, o) + ")";
  }

  lemma LogicalTextIs(a: string, b: string)
    ensures "(" + a + ") && (" + b + ")" == "(" + a + ")" + " && " + "(" + b + ")"
    ensures "(" + a + ") || (" + b + ")" == "(" + a + ")" + " || " + "(" + b + ")"
  {
    assert ") && (" == ")" + " && " + "(" && ") || (" == ")" + " || " + "(";
  }

  ghost predicate QuietAce(a: TextAce) { a.cond.Some? ==> QuietCondition(a.cond.value) }

  ghost predicate QuietAcl(l: TextAcl) {
    l.aces.Some? ==> forall i :: 0 <= i < |l.aces.value| ==> QuietAce(l.aces.value[i])
  }

  lemma QuietAceIsSafe(a: TextAce, o: Options)
    requires WellFormed(o.aliases) && WritableAce(a) && QuietAce(a)
    ensures AceSafe(a, o)
  {
    if a.cond.Some? {
      CondIsPrintable(a);
      hide QuietCondition, ConditionRoundTrip.PrintableCondition, Decompiler.ConditionText, ScanSafe, WritableAce;
      ConditionIsNested(a.cond.value, o);
      NestedIsSafe(Decompiler.ConditionText(a.cond.value, o));
    }
  }

  lemma QuietAclIsSafe(l: TextAcl, o: Options)
    requires WellFormed(o.aliases) && WritableAcl(l) && QuietAcl(l)
    ensures AclSafe(l, o)
  {
    hide WritableAce, QuietAce, AceSafe;
    if l.aces.Some? {
      forall i | 0 <= i < |l.aces.value| ensures AceSafe(l.aces.value[i], o) {
        QuietAceIsSafe(l.aces.value[i], o);
      }
    }
  }

  /** A parsed text with no parenthesis in any string literal is read back unless a hex number swallows a tag. */
  lemma QuietIsReadable(s: string, o: Options)
    requires WellFormed(o.aliases) && TreeOf(s, o).Some?
    requires QuietAcl(TreeOf(s, o).value.dacl) && QuietAcl(TreeOf(s, o).value.sacl)
    ensures Readable(TreeOf(s, o).value, o) <==> !Swallowed(TreeOf(s, o).value, o)
  {
    hide TreeOf, WritableAcl, QuietAcl, AclSafe, Swallowed, WellFormed;
    ParsedIsWritable(s, o);
    QuietAclIsSafe(TreeOf(s, o).value.dacl, o);
    QuietAclIsSafe(TreeOf(s, o).value.sacl, o);
  }
}
