/** Parsing what was rendered: the round trip of security descriptors through SDDL text. */
module SddlRoundTrip {
  import opened Wrappers
  import opened Bytes
  import opened Numerals
  import opened Sid
  import opened Aliases
  import opened Aces
  import opened Conditions
  import opened SddlTables
  import opened SddlText
  import opened SddlScanning
  import ConditionNesting
  import ConditionParser
  import ConditionRoundTrip
  import Decompiler

  // --- trees with a text -----------------------------------------------

  /** An ACE of the kind parsing gives: nothing in it that its clause cannot say. */
  ghost predicate WritableAce(a: TextAce) {
    && IsSupported(a.kind) && !a.flags.spare && IsValid(a.sid)
    && (a.objectType.Some? || a.inheritedType.Some? ==> CarriesGuids(a.kind))
    && (a.cond.Some? <==> IsCallback(a.kind))
    && (a.cond.Some? ==> ConditionRoundTrip.PrintableCondition(a.cond.value))
  }

  ghost predicate WritableAcl(l: TextAcl) {
    l.aces.Some? ==> forall i :: 0 <= i < |l.aces.value| ==> WritableAce(l.aces.value[i])
  }

  ghost predicate Writable(t: Tree) { WritableAcl(t.dacl) && WritableAcl(t.sacl) }

  /** A condition whose operands fit their 32-bit lengths. */
  ghost predicate AceFits(a: TextAce) { a.cond.Some? ==> ConditionFits(a.cond.value) }

  ghost predicate AclFits(l: TextAcl) {
    l.aces.Some? ==> forall i :: 0 <= i < |l.aces.value| ==> AceFits(l.aces.value[i])
  }

  ghost predicate TreeFits(t: Tree) { AclFits(t.dacl) && AclFits(t.sacl) }

  /**
   Condition text the surrounding scanner takes whole. The scanner counts parentheses and semicolons even inside
   string literals, from two levels down for the closing parenthesis and from one for the fields.
   */
  predicate ScanSafe(text: string) {
    CloseAt(text, 2).None? && DepthAfter(text, 2) == 2 && |Fields(text, 1)| == 1
  }

  predicate AceSafe(a: TextAce, o: Options) { a.cond.Some? ==> ScanSafe(Decompiler.ConditionText(a.cond.value, o)) }

  predicate AcesSafe(aces: seq<TextAce>, o: Options) {
    forall i :: 0 <= i < |aces| ==> AceSafe(aces[i], o)
  }

  predicate AclSafe(l: TextAcl, o: Options) { l.aces.Some? ==> AcesSafe(l.aces.value, o) }

  predicate TreeSafe(t: Tree, o: Options) { AclSafe(t.dacl, o) && AclSafe(t.sacl, o) }

  // --- parsing gives writable trees ------------------------------------

  lemma FieldsAreWritable(kind: byte, fs: seq<string>, o: Options)
    requires WellFormed(o.aliases) && IsSupported(kind) && |fs| == (if IsCallback(kind) then 7 else 6)
    requires AceOfFields(kind, fs, o).Some?
    ensures WritableAce(AceOfFields(kind, fs, o).value)
  {
    hide WithFlags, MaskOfText, GuidField, ParseSidText, ConditionParser.ParseConditionText, WellFormed;
    hide ConditionRoundTrip.PrintableCondition;
    NeverSpare(NO_FLAGS, fs[1]);
    ParsedSidIsValid(o, fs[5]);
    if IsCallback(kind) {
      ConditionRoundTrip.ParsedTextIsPrintable(fs[6], o);
    }
  }

  lemma ParsedAceIsWritable(body: string, o: Options)
    requires WellFormed(o.aliases) && ParseAce(body, o).Some?
    ensures WritableAce(ParseAce(body, o).value)
  {
    hide Fields, TypeOfTag, WritableAce, AceOfFields;
    var fs := Fields(body, 0);
    FieldsAreWritable(TypeOfTag(fs[0]).value, fs, o);
  }

  lemma ScannedAceIsWritable(s: string, o: Options)
    requires WellFormed(o.aliases) && s != "" && s[0] == '(' && ScanAce(s, o).Some?
    ensures WritableAce(ScanAce(s, o).value.0)
  {
    hide ParseAce, WritableAce, WellFormed;
    ParsedAceIsWritable(s[1..CloseAt(s, 0).value], o);
  }

  lemma {:induction false} ScannedAcesAreWritable(s: string, o: Options)
    requires WellFormed(o.aliases) && ScanAces(s, o).Some?
    ensures forall i :: 0 <= i < |ScanAces(s, o).value.0| ==> WritableAce(ScanAces(s, o).value.0[i])
    decreases |s|
  {
    hide ScanAce, WritableAce, WellFormed;
    if s != "" && s[0] == '(' {
      var (a, rest) := ScanAce(s, o).value;
      ScannedAceIsWritable(s, o);
      ScannedAcesAreWritable(rest, o);
    }
  }

  lemma ScannedAclIsWritable(s: string, o: Options)
    requires WellFormed(o.aliases) && ScanAcl(s, o).Some?
    ensures WritableAcl(ScanAcl(s, o).value.0)
  {
    hide FlagRun, ReadAclFlags, Raised, ScanAces, WritableAce, WellFormed;
    var n := FlagRun(s).value;
    if ScanAces(s[n..], o).Some? {
      ScannedAcesAreWritable(s[n..], o);
    }
  }

  lemma {:induction false} ScannedPartsAreWritable(s: string, o: Options, t: Tree, seen: Seen)
    requires WellFormed(o.aliases) && Writable(t) && ScanParts(s, o, t, seen).Some?
    ensures Writable(ScanParts(s, o, t, seen).value)
    decreases |s|
  {
    hide ScanSid, ScanAcl, WritableAcl, WellFormed;
    if s != "" {
      if s[0] == 'O' {
        var (sid, rest) := ScanSid(s[2..], o).value;
        ScannedPartsAreWritable(rest, o, t.(owner := sid), seen.(owner := true));
      } else if s[0] == 'G' {
        var (sid, rest) := ScanSid(s[2..], o).value;
        ScannedPartsAreWritable(rest, o, t.(group := sid), seen.(group := true));
      } else if s[0] == 'D' {
        var (acl, rest) := ScanAcl(s[2..], o).value;
        ScannedAclIsWritable(s[2..], o);
        ScannedPartsAreWritable(rest, o, t.(dacl := acl), seen.(dacl := true));
      } else {
        var (acl, rest) := ScanAcl(s[2..], o).value;
        ScannedAclIsWritable(s[2..], o);
        ScannedPartsAreWritable(rest, o, t.(sacl := acl), seen.(sacl := true));
      }
    }
  }

  // --- ACEs ------------------------------------------------------------

  lemma HexIsPlain(s: string)
    requires Hex(s)
    ensures Plain(s)
  {
  }

  lemma TagIsPlain(kind: byte)
    ensures Plain(TagText(kind))
  {
    hide TypeOfTag;
  }

  lemma FlagsArePlain(f: Flags)
    ensures Plain(FlagsText(f))
  {
    CodeIsPlain(f.ci, 'C', 'I');
    CodeIsPlain(f.oi, 'O', 'I');
    CodeIsPlain(f.np, 'N', 'P');
    CodeIsPlain(f.io, 'I', 'O');
    CodeIsPlain(f.inherited, 'I', 'D');
    CodeIsPlain(f.success, 'S', 'A');
    CodeIsPlain(f.failure, 'F', 'A');
    hide FlagCode, Plain;
    var t6 := FlagCode(f.success, 'S', 'A') + FlagCode(f.failure, 'F', 'A');
    PlainJoin(FlagCode(f.success, 'S', 'A'), FlagCode(f.failure, 'F', 'A'));
    PlainJoin(FlagCode(f.inherited, 'I', 'D'), t6);
    var t5 := FlagCode(f.inherited, 'I', 'D') + t6;
    PlainJoin(FlagCode(f.io, 'I', 'O'), t5);
    var t4 := FlagCode(f.io, 'I', 'O') + t5;
    PlainJoin(FlagCode(f.np, 'N', 'P'), t4);
    var t3 := FlagCode(f.np, 'N', 'P') + t4;
    PlainJoin(FlagCode(f.oi, 'O', 'I'), t3);
    PlainJoin(FlagCode(f.ci, 'C', 'I'), FlagCode(f.oi, 'O', 'I') + t3);
  }

  lemma CodeIsPlain(on: bool, a: char, b: char)
    requires Upper(a) && Upper(b)
    ensures Plain(FlagCode(on, a, b))
  {
  }

  lemma PlainJoin(a: string, b: string)
    requires Plain(a) && Plain(b)
    ensures Plain(a + b)
  {
  }

  lemma MaskIsPlain(m: u32)
    ensures Plain(MaskText(m))
  {
    if m != 0 {
      HexIsPlain(Digits(m as int, 16));
    }
  }

  lemma GuidIsPlain(g: Option<Guid>)
    ensures Plain(GuidFieldText(g))
  {
    if g.Some? {
      HexIsPlain(HexEncode(Shown(g.value)));
    }
  }

  lemma SidIsPlain(sid: SID, o: Options)
    requires WellFormed(o.aliases) && IsValid(sid)
    ensures Plain(FormatSid(o, sid)) && FormatSid(o, sid) != ""
  {
    FormatIsSidText(o, sid);
    if AliasOf(o, sid).Some? {
      AliasResolves(o, sid);
    }
  }

  /** A clause's fields, each but the last with its separator. */
  function ClauseBody(f0: string, f1: string, f2: string, f3: string, f4: string, last: string): string {
    f0 + ";" + (f1 + ";" + (f2 + ";" + (f3 + ";" + (f4 + ";" + last))))
  }

  lemma ClauseLayout(tag: string, flags: Flags, mask: u32, objectType: Option<Guid>, inheritedType: Option<Guid>, sid: string,
                     cond: string)
    ensures Clause(tag, flags, mask, objectType, inheritedType, sid, cond)
         == "(" + (ClauseBody(tag, FlagsText(flags), MaskText(mask), GuidFieldText(objectType), GuidFieldText(inheritedType), sid)
                   + cond) + ")"
  {
    hide FlagsText, MaskText, GuidFieldText;
    Layout(tag, FlagsText(flags), MaskText(mask), GuidFieldText(objectType), GuidFieldText(inheritedType), sid, cond);
  }

  lemma Layout(f0: string, f1: string, f2: string, f3: string, f4: string, f5: string, c: string)
    ensures "(" + f0 + ";" + f1 + ";" + f2 + ";" + f3 + ";" + f4 + ";" + f5 + c + ")"
         == "(" + (ClauseBody(f0, f1, f2, f3, f4, f5) + c) + ")"
  {
  }

  lemma BodyBefore(f0: string, f1: string, f2: string, f3: string, f4: string, f5: string, c: string)
    ensures ClauseBody(f0, f1, f2, f3, f4, f5) + c == ClauseBody(f0, f1, f2, f3, f4, f5 + c)
  {
  }

  lemma BodyIsQuiet(f0: string, f1: string, f2: string, f3: string, f4: string, f5: string)
    requires Plain(f0) && Plain(f1) && Plain(f2) && Plain(f3) && Plain(f4) && Plain(f5)
    ensures Quiet(ClauseBody(f0, f1, f2, f3, f4, f5))
  {
    QuietJoin(f4, f5);
    QuietJoin(f3, f4 + ";" + f5);
    QuietJoin(f2, f3 + ";" + (f4 + ";" + f5));
    QuietJoin(f1, f2 + ";" + (f3 + ";" + (f4 + ";" + f5)));
    QuietJoin(f0, f1 + ";" + (f2 + ";" + (f3 + ";" + (f4 + ";" + f5))));
  }

  lemma QuietJoin(a: string, b: string)
    requires Quiet(a) && Quiet(b)
    ensures Quiet(a + ";" + b)
  {
  }

  /** The six fields every clause has, as rendered. */
  function BodyOf(a: TextAce, o: Options): string {
    ClauseBody(TagText(a.kind), FlagsText(a.flags), MaskText(a.mask), GuidFieldText(a.objectType), GuidFieldText(a.inheritedType),
               FormatSid(o, a.sid))
  }

  lemma AceBody(a: TextAce, o: Options)
    requires WellFormed(o.aliases) && WritableAce(a)
    ensures Quiet(BodyOf(a, o)) && AceText(a, o) == "(" + (BodyOf(a, o) + CondText(a.cond, o)) + ")"
  {
    TagIsPlain(a.kind);
    FlagsArePlain(a.flags);
    MaskIsPlain(a.mask);
    GuidIsPlain(a.objectType);
    GuidIsPlain(a.inheritedType);
    SidIsPlain(a.sid, o);
    hide TagText, FlagsText, MaskText, GuidFieldText, FormatSid, CondText, Quiet, Plain, ClauseBody, Clause;
    ClauseLayout(TagText(a.kind), a.flags, a.mask, a.objectType, a.inheritedType, FormatSid(o, a.sid), CondText(a.cond, o));
    BodyIsQuiet(TagText(a.kind), FlagsText(a.flags), MaskText(a.mask), GuidFieldText(a.objectType), GuidFieldText(a.inheritedType),
                FormatSid(o, a.sid));
  }

  ghost function Shift(r: Option<nat>, k: nat): Option<nat> {
    match r case None => None case Some(n) => Some(k + n)
  }

  /** Where a clause's parenthesis closes, up to its condition. */
  lemma CloseOfClause(body: string, after: string)
    requires Quiet(body)
    ensures CloseAt("(" + (body + after), 0) == Shift(CloseAt(after, 1), 1 + |body|)
  {
    hide Quiet;
    QuietIsLevel(body, 1);
    CloseAtAppend(body, after, 1);
    assert ("(" + (body + after))[1..] == body + after;
  }

  /** The clause ends where it was made to exactly when its condition text, if any, is level where the scanner counts. */
  lemma CloseOfCondition(text: string, rest: string)
    ensures CloseAt(";(" + text + "))" + rest, 1) == Some(|text| + 3) <==> CloseAt(text, 2).None? && DepthAfter(text, 2) == 2
  {
    var tail := "))" + rest;
    assert ";(" + text + "))" + rest == ";(" + (text + tail);
    TwoSteps(text + tail);
    if CloseAt(text, 2).Some? {
      CloseAtWithin(text, tail, 2);
    } else {
      CloseAtAppend(text, tail, 2);
      hide CloseAt;
      CloseTwice(rest, DepthAfter(text, 2));
    }
  }

  lemma TwoSteps(s: string)
    ensures CloseAt(";(" + s, 1) == Shift(CloseAt(s, 2), 2)
  {
    var t := ";(" + s;
    assert t[1..] == "(" + s && ("(" + s)[1..] == s;
  }

  lemma CloseTwice(rest: string, depth: int)
    ensures CloseAt("))" + rest, depth) == Some(1) <==> depth == 2
  {
    var s := "))" + rest;
    assert s[1..] == ")" + rest && (")" + rest)[1..] == rest;
  }

  lemma ParenthesisFields(text: string)
    ensures |Fields("(" + text + ")", 0)| == |Fields(text, 1)|
  {
    FieldCount(text, ")", 1);
    OpeningFields(text + ")");
    ClosingField(DepthAfter(text, 1));
    hide Fields, DepthAfter;
    assert "(" + text + ")" == "(" + (text + ")");
  }

  lemma OpeningFields(s: string)
    ensures |Fields("(" + s, 0)| == |Fields(s, 1)|
  {
    assert ("(" + s)[1..] == s;
  }

  lemma ClosingField(depth: int)
    ensures |Fields(")", depth)| == 1
  {
    assert Fields(")"[1..], depth - 1) == [""];
  }

  lemma BodyFields(a: TextAce, last: string, o: Options)
    requires Plain(TagText(a.kind)) && Plain(FlagsText(a.flags)) && Plain(MaskText(a.mask))
    requires Plain(GuidFieldText(a.objectType)) && Plain(GuidFieldText(a.inheritedType)) && Plain(FormatSid(o, a.sid))
    requires last == "" || last[0] == ';'
    ensures Fields(BodyOf(a, o) + last, 0)
         == FirstFields(a) + (if last == "" then [FormatSid(o, a.sid)] else [FormatSid(o, a.sid)] + Fields(last[1..], 0))
  {
    hide Fields, Plain, TagText, FlagsText, MaskText, GuidFieldText, FormatSid, ClauseBody;
    var sid := FormatSid(o, a.sid);
    BodyBefore(TagText(a.kind), FlagsText(a.flags), MaskText(a.mask), GuidFieldText(a.objectType), GuidFieldText(a.inheritedType),
               sid, last);
    ClauseFields(TagText(a.kind), FlagsText(a.flags), MaskText(a.mask), GuidFieldText(a.objectType), GuidFieldText(a.inheritedType),
                 sid + last);
    if last == "" {
      PlainIsOneField(sid, 0);
      assert sid + last == sid;
    } else {
      FirstField(sid, last[1..]);
      assert sid + last == sid + ";" + last[1..];
    }
  }

  function FirstFields(a: TextAce): (fs: seq<string>)
    ensures |fs| == 5 && fs[0] == TagText(a.kind)
  {
    [TagText(a.kind), FlagsText(a.flags), MaskText(a.mask), GuidFieldText(a.objectType), GuidFieldText(a.inheritedType)]
  }

  lemma ClauseFields(f0: string, f1: string, f2: string, f3: string, f4: string, last: string)
    requires Plain(f0) && Plain(f1) && Plain(f2) && Plain(f3) && Plain(f4)
    ensures Fields(ClauseBody(f0, f1, f2, f3, f4, last), 0) == [f0, f1, f2, f3, f4] + Fields(last, 0)
  {
    hide Fields, Plain;
    SixFields(f0, f1, f2, f3, f4, last);
  }

  lemma GuidFieldBack(g: Option<Guid>)
    ensures GuidField(GuidFieldText(g)) == Some(g)
  {
    hide GuidText, GuidOfText;
    if g.Some? {
      GuidTextBack(g.value);
    }
  }

  /** The fields of a writable ACE are read back as it. */
  lemma FieldsBack(a: TextAce, fs: seq<string>, o: Options)
    requires WellFormed(o.aliases) && WritableAce(a)
    requires |fs| == (if IsCallback(a.kind) then 7 else 6) && fs[..5] == FirstFields(a) && fs[5] == FormatSid(o, a.sid)
    requires a.cond.Some? ==> ConditionParser.ParseConditionText(fs[6], o) == a.cond
    ensures AceOfFields(a.kind, fs, o) == Some(a)
  {
    SidIsPlain(a.sid, o);
    hide Plain, WellFormed, FormatSid, ParseSidText, FlagsText, FlagsOfText, MaskText, MaskOfText, GuidFieldText, GuidField;
    hide ConditionParser.ParseConditionText, ConditionRoundTrip.PrintableCondition, Decompiler.ConditionText;
    assert fs[..5][1] == fs[1] && fs[..5][2] == fs[2] && fs[..5][3] == fs[3] && fs[..5][4] == fs[4];
    FlagsBack(a.flags);
    MaskBack(a.mask);
    GuidFieldBack(a.objectType);
    GuidFieldBack(a.inheritedType);
    ParseOfFormat(o, a.sid);
  }

  lemma FieldsArePlain(a: TextAce, o: Options)
    requires WellFormed(o.aliases) && WritableAce(a)
    ensures Plain(TagText(a.kind)) && Plain(FlagsText(a.flags)) && Plain(MaskText(a.mask))
    ensures Plain(GuidFieldText(a.objectType)) && Plain(GuidFieldText(a.inheritedType)) && Plain(FormatSid(o, a.sid))
  {
    hide Plain;
    TagIsPlain(a.kind);
    FlagsArePlain(a.flags);
    MaskIsPlain(a.mask);
    GuidIsPlain(a.objectType);
    GuidIsPlain(a.inheritedType);
    SidIsPlain(a.sid, o);
  }

  lemma TagBack(kind: byte)
    requires IsSupported(kind)
    ensures TypeOfTag(TagText(kind)) == Some(kind)
  {
    hide TypeOfTag;
    SupportedHasTag(kind);
  }

  lemma ParseOfFields(body: string, kind: byte, o: Options)
    requires var fs := Fields(body, 0); |fs| >= 6 && TypeOfTag(fs[0]) == Some(kind) && IsSupported(kind)
    ensures var fs := Fields(body, 0);
            ParseAce(body, o) == if |fs| == (if IsCallback(kind) then 7 else 6) then AceOfFields(kind, fs, o) else None
  {
    hide Fields, TypeOfTag, AceOfFields, IsSupported, IsCallback;
  }

  /** What the fields of a rendered body are. */
  lemma FieldsOfBody(a: TextAce, o: Options)
    requires WellFormed(o.aliases) && WritableAce(a)
    ensures var fs := Fields(BodyOf(a, o) + CondText(a.cond, o), 0);
            && |fs| >= 6 && fs[..5] == FirstFields(a) && fs[0] == TagText(a.kind) && fs[5] == FormatSid(o, a.sid)
            && (|fs| == (if a.cond.Some? then 7 else 6) <==> OneFieldCond(a, o))
            && (a.cond.Some? && OneFieldCond(a, o) ==> fs[6] == "(" + Decompiler.ConditionText(a.cond.value, o) + ")")
  {
    hide Fields, Plain, WellFormed, WritableAce, FormatSid, BodyOf, CondText, OneFieldCond, TagText, FlagsText, MaskText;
    hide GuidFieldText, Decompiler.ConditionText;
    FieldsArePlain(a, o);
    var last := CondText(a.cond, o);
    CondFields(a, o);
    BodyFields(a, last, o);
    var sid := FormatSid(o, a.sid);
    FiveFirst(FirstFields(a), if last == "" then [sid] else [sid] + Fields(last[1..], 0));
  }

  lemma FiveFirst(a: seq<string>, b: seq<string>)
    requires |a| == 5 && b != []
    ensures var c := a + b;
            |c| == 5 + |b| && c[..5] == a && c[0] == a[0] && c[5] == b[0] && (|b| > 1 ==> c[6] == b[1])
  {
  }

  /** A body is read back as its ACE exactly when its condition text, if any, holds no separator outside parentheses. */
  lemma BodyParses(a: TextAce, o: Options)
    requires WellFormed(o.aliases) && WritableAce(a)
    ensures ParseAce(BodyOf(a, o) + CondText(a.cond, o), o) == if OneFieldCond(a, o) then Some(a) else None
  {
    TagBack(a.kind);
    FieldsOfBody(a, o);
    hide Fields, WellFormed, TagText, TypeOfTag, FormatSid, AceOfFields, BodyOf, CondText, ParseAce, OneFieldCond, FirstFields;
    hide Decompiler.ConditionText, ConditionRoundTrip.PrintableCondition, IsSupported, CarriesGuids;
    var body := BodyOf(a, o) + CondText(a.cond, o);
    ParseOfFields(body, a.kind, o);
    if OneFieldCond(a, o) {
      if a.cond.Some? {
        ConditionRoundTrip.ParseOfGroupedText(a.cond.value, o);
      }
      hide ConditionParser.ParseConditionText;
      FieldsBack(a, Fields(body, 0), o);
    }
  }

  predicate OneFieldCond(a: TextAce, o: Options) {
    a.cond.Some? ==> |Fields(Decompiler.ConditionText(a.cond.value, o), 1)| == 1
  }

  lemma CondFields(a: TextAce, o: Options)
    ensures var last := CondText(a.cond, o);
            && (last == "" <==> a.cond.None?) && (a.cond.None? ==> OneFieldCond(a, o))
            && (a.cond.Some? ==> last[0] == ';' && last[1..] == "(" + Decompiler.ConditionText(a.cond.value, o) + ")")
            && (a.cond.Some? ==> if OneFieldCond(a, o) then Fields(last[1..], 0) == [last[1..]] else |Fields(last[1..], 0)| > 1)
  {
    hide Fields, Decompiler.ConditionText;
    if a.cond.Some? {
      var text := Decompiler.ConditionText(a.cond.value, o);
      ParenthesisFields(text);
      assert Group(text) == ";" + ("(" + text + ")");
      if OneFieldCond(a, o) {
        OneField("(" + text + ")", 0);
      }
    }
  }

  /** Text level with its surroundings two parentheses down. */
  predicate Level(text: string) { CloseAt(text, 2).None? && DepthAfter(text, 2) == 2 }

  lemma CloseWithout(body: string, rest: string)
    requires Quiet(body)
    ensures var text := "(" + (body + "") + ")"; CloseAt(text + rest, 0) == Some(|text| - 1)
  {
    hide Quiet, CloseAt;
    CloseOfClause(body, ")" + rest);
    CloseHere(rest);
    assert "(" + (body + "") + ")" + rest == "(" + (body + (")" + rest));
  }

  lemma CloseHere(rest: string)
    ensures CloseAt(")" + rest, 1) == Some(0)
  {
  }

  lemma CloseWith(body: string, text: string, rest: string)
    requires Quiet(body)
    ensures var whole := "(" + (body + Group(text)) + ")"; CloseAt(whole + rest, 0) == Some(|whole| - 1) <==> Level(text)
  {
    hide Quiet, CloseAt, DepthAfter;
    CloseOfClause(body, ";(" + text + "))" + rest);
    CloseOfCondition(text, rest);
    assert "(" + (body + Group(text)) + ")" + rest == "(" + (body + (";(" + text + "))" + rest));
  }

  predicate LevelCond(a: TextAce, o: Options) {
    a.cond.Some? ==> Level(Decompiler.ConditionText(a.cond.value, o))
  }

  /** Where a rendered ACE closes. */
  lemma CloseOfAce(a: TextAce, rest: string, o: Options)
    requires WellFormed(o.aliases) && WritableAce(a)
    ensures CloseAt(AceText(a, o) + rest, 0) == Some(|AceText(a, o)| - 1) <==> LevelCond(a, o)
  {
    AceBody(a, o);
    hide AceText, BodyOf, CloseAt, Quiet, WritableAce, WellFormed, CondText, LevelCond;
    CloseOfBody(BodyOf(a, o), a, rest, o);
  }

  lemma CloseOfBody(body: string, a: TextAce, rest: string, o: Options)
    requires Quiet(body)
    ensures var text := "(" + (body + CondText(a.cond, o)) + ")"; CloseAt(text + rest, 0) == Some(|text| - 1) <==> LevelCond(a, o)
  {
    hide CloseAt, Quiet, Level, Group, Decompiler.ConditionText;
    if a.cond.None? {
      CloseWithout(body, rest);
    } else {
      CloseWith(body, Decompiler.ConditionText(a.cond.value, o), rest);
    }
  }

  lemma {:induction false} ClosesAtParenthesis(s: string, depth: int)
    requires CloseAt(s, depth).Some?
    ensures s[CloseAt(s, depth).value] == ')'
  {
    if !(s[0] == ')' && depth + Nesting(s[0]) == 0) {
      ClosesAtParenthesis(s[1..], depth + Nesting(s[0]));
    }
  }

  lemma FieldsWithCut(a: TextAce, cut: string, o: Options)
    requires WellFormed(o.aliases) && WritableAce(a)
    ensures var fs := Fields(BodyOf(a, o) + (";(" + cut), 0);
            var more := Fields("(" + cut, 0);
            && |fs| == 6 + |more| && fs[0] == TagText(a.kind) && fs[6] == more[0]
            && fs[..5] == FirstFields(a) && fs[5] == FormatSid(o, a.sid)
  {
    hide Fields, Plain, WellFormed, WritableAce, FormatSid, BodyOf, TagText, FlagsText, MaskText, GuidFieldText;
    FieldsArePlain(a, o);
    var last := ";(" + cut;
    BodyFields(a, last, o);
    assert last[1..] == "(" + cut;
    FiveFirst(FirstFields(a), [FormatSid(o, a.sid)] + Fields("(" + cut, 0));
  }

  /** A condition that does not parse makes the body unreadable, whatever fields it splits into. */
  lemma BadCondition(a: TextAce, cut: string, o: Options)
    requires WellFormed(o.aliases) && WritableAce(a) && a.cond.Some?
    requires ConditionParser.ParseConditionText("(" + cut, o) == None
    ensures ParseAce(BodyOf(a, o) + (";(" + cut), o) == None
  {
    TagBack(a.kind);
    FieldsWithCut(a, cut, o);
    hide Fields, WellFormed, BodyOf, ConditionParser.ParseConditionText, ParseAce, TypeOfTag, TagText, AceOfFields;
    var body := BodyOf(a, o) + (";(" + cut);
    ParseOfFields(body, a.kind, o);
    if |Fields("(" + cut, 0)| == 1 {
      OneField("(" + cut, 0);
      NoCondition(a.kind, Fields(body, 0), o);
    }
  }

  lemma NoCondition(kind: byte, fs: seq<string>, o: Options)
    requires IsCallback(kind) && |fs| == 7 && ConditionParser.ParseConditionText(fs[6], o) == None
    ensures AceOfFields(kind, fs, o) == None
  {
    hide FlagsOfText, MaskOfText, GuidField, ParseSidText, ConditionParser.ParseConditionText;
  }

  /** Condition text cut at a closing parenthesis other than its own is no condition. */
  lemma MiscutFails(c: Condition, rest: string, m: nat, o: Options)
    requires WellFormed(o.aliases) && ConditionRoundTrip.PrintableCondition(c)
    requires var tail := CondTail(c, rest, o); m < |tail| && tail[m] == ')' && m != |Decompiler.ConditionText(c, o)| + 1
    ensures ConditionParser.ParseConditionText("(" + CondTail(c, rest, o)[..m], o) == None
  {
    hide Decompiler.ConditionText, ConditionParser.ParseConditionText, ConditionRoundTrip.PrintableCondition, WellFormed;
    var text := Decompiler.ConditionText(c, o);
    var tail := text + "))" + rest;
    var p := "(" + tail[..m];
    if m <= |text| {
      var b := (text + ")")[m..];
      CutLayout(text, rest, m);
      ConditionNesting.CutFails(c, o, p, b);
    } else {
      var more := tail[|text| + 1..m];
      assert more[0] == tail[|text| + 1] == ')';
      assert p == "(" + text + ")" + more;
      ConditionNesting.ExtensionFails(c, o, more);
    }
  }

  lemma CutLayout(text: string, rest: string, m: nat)
    requires m <= |text|
    ensures var tail := text + "))" + rest;
            var b := (text + ")")[m..];
            "(" + tail[..m] + b == "(" + text + ")" && b != "" && b[0] == tail[m]
  {
    var tail := text + "))" + rest;
    assert tail[..m] == (text + ")")[..m];
    assert (text + ")")[..m] + (text + ")")[m..] == text + ")";
  }

  /** What a parenthesis that closes anywhere in or after the condition has inside it. */
  lemma InsideClause(body: string, tail: string)
    requires Quiet(body) && CloseAt("(" + (body + (";(" + tail)), 0).Some?
    ensures CloseAt(tail, 2).Some?
    ensures var s := "(" + (body + (";(" + tail));
            var m := CloseAt(tail, 2).value;
            CloseAt(s, 0) == Some(3 + |body| + m) && tail[m] == ')' && s[1..3 + |body| + m] == body + (";(" + tail[..m])
  {
    hide CloseAt, Quiet;
    CloseOfClause(body, ";(" + tail);
    TwoSteps(tail);
    ClosesAtParenthesis(tail, 2);
    InsideLayout(body, tail, CloseAt(tail, 2).value);
  }

  lemma ClauseTail(body: string, text: string, rest: string)
    ensures "(" + (body + Group(text)) + ")" + rest == "(" + (body + (";(" + (text + "))" + rest)))
  {
  }

  lemma InsideLayout(body: string, tail: string, m: nat)
    requires m <= |tail|
    ensures ("(" + (body + (";(" + tail)))[1..3 + |body| + m] == body + (";(" + tail[..m])
  {
  }

  /** What follows the opening parenthesis of a condition. */
  function CondTail(c: Condition, rest: string, o: Options): string { Decompiler.ConditionText(c, o) + "))" + rest }

  lemma InsideAce(a: TextAce, rest: string, o: Options)
    requires WellFormed(o.aliases) && WritableAce(a) && a.cond.Some? && CloseAt(AceText(a, o) + rest, 0).Some?
    ensures CloseAt(CondTail(a.cond.value, rest, o), 2).Some?
    ensures var s, tail := AceText(a, o) + rest, CondTail(a.cond.value, rest, o);
            var m := CloseAt(tail, 2).value;
            && CloseAt(s, 0) == Some(3 + |BodyOf(a, o)| + m) && tail[m] == ')'
            && s[1..CloseAt(s, 0).value] == BodyOf(a, o) + (";(" + tail[..m])
            && |AceText(a, o)| == |BodyOf(a, o)| + |Decompiler.ConditionText(a.cond.value, o)| + 5
  {
    AceBody(a, o);
    hide AceText, BodyOf, CloseAt, Quiet, WellFormed, WritableAce, Decompiler.ConditionText;
    var text := Decompiler.ConditionText(a.cond.value, o);
    ClauseTail(BodyOf(a, o), text, rest);
    InsideClause(BodyOf(a, o), text + "))" + rest);
  }

  lemma CondIsPrintable(a: TextAce)
    requires WritableAce(a) && a.cond.Some?
    ensures ConditionRoundTrip.PrintableCondition(a.cond.value)
  {
    hide ConditionRoundTrip.PrintableCondition;
  }

  lemma MiscutBody(a: TextAce, rest: string, m: nat, o: Options)
    requires WellFormed(o.aliases) && WritableAce(a) && a.cond.Some?
    requires var tail := CondTail(a.cond.value, rest, o);
             m < |tail| && tail[m] == ')' && m != |Decompiler.ConditionText(a.cond.value, o)| + 1
    ensures ParseAce(BodyOf(a, o) + (";(" + CondTail(a.cond.value, rest, o)[..m]), o) == None
  {
    CondIsPrintable(a);
    hide BodyOf, CondTail, ParseAce, ConditionParser.ParseConditionText, Decompiler.ConditionText, WritableAce, WellFormed;
    MiscutFails(a.cond.value, rest, m, o);
    BadCondition(a, CondTail(a.cond.value, rest, o)[..m], o);
  }

  /** When the parenthesis closes elsewhere, what is inside is no ACE. */
  lemma WrongCloseFails(a: TextAce, rest: string, o: Options)
    requires WellFormed(o.aliases) && WritableAce(a) && a.cond.Some?
    requires var s := AceText(a, o) + rest; CloseAt(s, 0).Some? && CloseAt(s, 0) != Some(|AceText(a, o)| - 1)
    ensures var s := AceText(a, o) + rest; CloseAt(s, 0).value >= 1 && ParseAce(s[1..CloseAt(s, 0).value], o) == None
  {
    hide ParseAce, CloseAt, AceText, BodyOf, CondTail, Decompiler.ConditionText, WritableAce, WellFormed;
    InsideAce(a, rest, o);
    MiscutBody(a, rest, CloseAt(CondTail(a.cond.value, rest, o), 2).value, o);
  }

  /** What scanning gives, by where the parenthesis closes and what is inside it. */
  lemma TakeFront(body: string, rest: string, a: TextAce, o: Options)
    requires var s := "(" + body + ")" + rest;
             CloseAt(s, 0).Some? && CloseAt(s, 0) != Some(|body| + 1) ==>
               CloseAt(s, 0).value >= 1 && ParseAce(s[1..CloseAt(s, 0).value], o) == None
    ensures var s := "(" + body + ")" + rest;
            && s[0] == '('
            && ScanAce(s, o) == if CloseAt(s, 0) != Some(|body| + 1) || ParseAce(body, o) == None then None
                                else Some((ParseAce(body, o).value, rest))
  {
    var s := "(" + body + ")" + rest;
    assert s[1..|body| + 1] == body && s[|body| + 2..] == rest;
    hide ParseAce, CloseAt;
  }

  /** A rendered ACE is taken off the front as itself when the scanner can take its condition text whole, and else not at all. */
  lemma AceScans(a: TextAce, rest: string, o: Options)
    requires WellFormed(o.aliases) && WritableAce(a)
    ensures AceText(a, o) != "" && (AceText(a, o) + rest)[0] == '('
    ensures ScanAce(AceText(a, o) + rest, o) == if AceSafe(a, o) then Some((a, rest)) else None
  {
    AceBody(a, o);
    CloseOfAce(a, rest, o);
    BodyParses(a, o);
    hide AceText, BodyOf, CondText, CloseAt, DepthAfter, Fields, Quiet, ParseAce, WritableAce, WellFormed, Decompiler.ConditionText;
    var s := AceText(a, o) + rest;
    if CloseAt(s, 0).Some? && CloseAt(s, 0) != Some(|AceText(a, o)| - 1) {
      WrongCloseFails(a, rest, o);
    }
    TakeFront(BodyOf(a, o) + CondText(a.cond, o), rest, a, o);
    hide ScanAce;
  }

  /** A clause with any text for its condition, as long as it parses and the scanner can take it whole. */
  lemma ClauseScans(a: TextAce, text: string, rest: string, o: Options)
    requires WellFormed(o.aliases) && WritableAce(a) && a.cond.Some? && ScanSafe(text)
    requires ConditionParser.ParseConditionText("(" + text + ")", o) == a.cond
    ensures var s := "(" + (BodyOf(a, o) + Group(text)) + ")" + rest; s[0] == '(' && ScanAce(s, o) == Some((a, rest))
  {
    hide BodyOf, CloseAt, DepthAfter, Fields, ParseAce, WritableAce, WellFormed, Group, ConditionParser.ParseConditionText, Quiet;
    BodyIsPlainText(a, o);
    BodyWithCond(a, text, o);
    CloseWith(BodyOf(a, o), text, rest);
    FrontOfClause(BodyOf(a, o) + Group(text), rest, a, o);
  }

  lemma BodyIsPlainText(a: TextAce, o: Options)
    requires WellFormed(o.aliases) && WritableAce(a)
    ensures Quiet(BodyOf(a, o))
  {
    AceBody(a, o);
  }

  lemma FrontOfClause(body: string, rest: string, a: TextAce, o: Options)
    requires var text := "(" + body + ")"; CloseAt(text + rest, 0) == Some(|text| - 1) && ParseAce(body, o) == Some(a)
    ensures var s := "(" + body + ")" + rest; s[0] == '(' && ScanAce(s, o) == Some((a, rest))
  {
    hide CloseAt, ParseAce;
    TakeFront(body, rest, a, o);
  }

  lemma BodyWithCond(a: TextAce, text: string, o: Options)
    requires WellFormed(o.aliases) && WritableAce(a) && a.cond.Some? && ScanSafe(text)
    requires ConditionParser.ParseConditionText("(" + text + ")", o) == a.cond
    ensures ParseAce(BodyOf(a, o) + Group(text), o) == Some(a)
  {
    hide Fields, CloseAt, DepthAfter, WellFormed, WritableAce, BodyOf, ConditionParser.ParseConditionText, ParseAce, TypeOfTag, TagText;
    hide FirstFields, FormatSid, AceOfFields;
    KindHasTag(a);
    CutOfGroup(text);
    FieldsWithCut(a, text + ")", o);
    ParenthesisFields(text);
    OneField("(" + text + ")", 0);
    hide Group;
    var body := BodyOf(a, o) + Group(text);
    ParseOfFields(body, a.kind, o);
    FieldsBack(a, Fields(body, 0), o);
  }

  lemma KindHasTag(a: TextAce)
    requires WritableAce(a) && a.cond.Some?
    ensures IsSupported(a.kind) && IsCallback(a.kind) && TypeOfTag(TagText(a.kind)) == Some(a.kind)
  {
    TagBack(a.kind);
  }

  lemma CutOfGroup(text: string)
    ensures Group(text) == ";(" + (text + ")") && "(" + text + ")" == "(" + (text + ")")
  {
  }
}
