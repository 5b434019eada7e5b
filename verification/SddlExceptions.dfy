/** Accepted texts whose rendering Parse does not accept: both ways in which one is not readable do occur. */
module SddlExceptions {
  import opened Wrappers
  import opened Sid
  import opened Aliases
  import opened Conditions
  import opened SddlTables
  import opened SddlText
  import opened SddlScanning
  import opened SddlRoundTrip
  import opened SddlTheorems
  import opened SddlDescriptors
  import opened ConditionLexer
  import Utf16
  import ConditionNesting
  import ConditionParser
  import ConditionRoundTrip
  import Decompiler

  /** A text that is accepted, and rendered as one that is not. */
  predicate Lost(s: string, o: Options) {
    && SddlText.Parse(s, o).Some?
    && var text := Format(SddlText.Parse(s, o).value, o);
    text.Some? && SddlText.Parse(text.value, o) == None
  }

  lemma UnreadableIsLost(s: string, o: Options)
    requires WellFormed(o.aliases) && TreeOf(s, o).Some?
    requires TreeFits(TreeOf(s, o).value) && !Readable(TreeOf(s, o).value, o)
    ensures Lost(s, o)
  {
    ParseFormatParse(s, o);
    hide TreeOf, Format, Build, TreeText, Readable, TreeFits, WellFormed;
  }

  // --- a hex number before D: ------------------------------------------

  /** A text that starts with its D: section. */
  lemma DaclFirst(body: string, l: TextAcl, rest: string, o: Options)
    requires Solid(body) && ScanAcl(body, o) == Some((l, rest))
    ensures TreeOf("D:" + body, o) == ScanParts(rest, o, EMPTY.(dacl := l), NOTHING.(dacl := true))
  {
    hide ScanAcl, Solid;
    var s := "D:" + body;
    SolidEnd("D:", body);
    TrimOfSolid(s);
    assert s[2..] == body;
  }

  /** The list sections first, then an owner that is written as a bare hex number. */
  lemma OwnerLast(sid: SID, o: Options)
    requires WellFormed(o.aliases) && IsValid(sid)
    ensures TreeOf("D:" + SidPart('O', sid, o), o) == Some(EMPTY.(owner := sid, dacl := TextAcl(false, false, false, Some([]))))
  {
    SidIsSolid('O', sid, o);
    OwnerStarts(sid, o);
    hide SidPart, WellFormed, ScanParts, AliasOf, HexEnded, Solid, TreeOf, ScanAcl;
    var owner := SidPart('O', sid, o);
    var l := TextAcl(false, false, false, Some([]));
    EmptyAcl(owner, o);
    DaclFirst(owner, l, owner, o);
    assert owner + "" == owner;
    OwnerScans(sid, "", EMPTY.(dacl := l), NOTHING.(dacl := true), o);
    NothingLeft(EMPTY.(dacl := l, owner := sid), NOTHING.(dacl := true, owner := true), o);
  }

  lemma OwnerStarts(sid: SID, o: Options)
    requires IsValid(sid)
    ensures var s := SidPart('O', sid, o); |s| > 1 && s[0] == 'O' && s[1] == ':'
  {
    hide FormatSid;
  }

  lemma EmptyAcl(rest: string, o: Options)
    requires |rest| > 1 && rest[0] == 'O' && rest[1] == ':'
    ensures ScanAcl(rest, o) == Some((TextAcl(false, false, false, Some([])), rest))
  {
    assert FlagRun(rest) == Some(0) && rest[..0] == "" && rest[0..] == rest;
    assert Raised("") == "" && ReadAclFlags(NO_ACL_FLAGS, "") == Some(NO_ACL_FLAGS);
  }

  /** Every such text is accepted, and what it is rendered as is not. */
  lemma HexOwnerLost(sid: SID, o: Options)
    requires WellFormed(o.aliases) && HexEnded(sid) && AliasOf(o, sid).None?
    ensures Lost("D:" + SidPart('O', sid, o), o)
  {
    OwnerLast(sid, o);
    hide TreeOf, AliasOf, HexEnded, WellFormed, SidPart, Lost;
    UnreadableIsLost("D:" + SidPart('O', sid, o), o);
  }

  // --- a semicolon in a string literal ---------------------------------

  const LITERAL := Compare(Equal, Attr(Local, "a"), StringLit(");("))

  /** Its text, in two parts: up to the literal's parenthesis, and from there on. */
  const OPENING := "a == \""
  const MIDDLE := ");(\""

  lemma LiteralText(o: Options)
    ensures Decompiler.ConditionText(LITERAL, o) == OPENING + MIDDLE
  {
    assert Decompiler.ConditionText(LITERAL, o) == "" + "a" + " " + "==" + " " + ("\"" + ");(" + "\"");
  }

  lemma LiteralIsPrintable()
    ensures ConditionRoundTrip.PrintableCondition(LITERAL) && ConditionFits(LITERAL)
  {
    assert !ConditionParser.PrefixKeyword("a");
    Utf16Size("a");
    Utf16Size(");(");
  }

  lemma Utf16Size(s: string)
    requires |s| <= 3
    ensures |Utf16.Utf16le(s)| <= 12
  {
    Utf16Bound(s);
  }

  lemma {:induction false} Utf16Bound(s: string)
    ensures |Utf16.Encode(s)| <= 2 * |s|
  {
    if s != "" {
      Utf16Bound(s[1..]);
    }
  }

  /** The middle of the literal, from `depth` down. */
  lemma MiddleScans(depth: int)
    ensures |Fields(MIDDLE, depth)| == (if depth == 1 then 2 else 1)
    ensures depth != 1 ==> CloseAt(MIDDLE, depth).None?
    ensures DepthAfter(MIDDLE, depth) == depth
  {
    var m1, m2, m3 := ";(\"", "(\"", "\"";
    assert MIDDLE[1..] == m1 && m1[1..] == m2 && m2[1..] == m3 && m3[1..] == "";
    assert |Fields(m3, depth)| == 1 && CloseAt(m3, depth).None? && DepthAfter(m3, depth) == depth;
    assert |Fields(m2, depth - 1)| == 1 && CloseAt(m2, depth - 1).None? && DepthAfter(m2, depth - 1) == depth;
    assert |Fields(m1, depth - 1)| == (if depth == 1 then 2 else 1);
  }

  lemma LiteralScans(depth: int)
    ensures var t := OPENING + MIDDLE;
            && |Fields(t, depth)| == |Fields(OPENING, depth)| + (if depth == 1 then 1 else 0)
            && (depth != 1 ==> CloseAt(t, depth).None?) && DepthAfter(t, depth) == depth
  {
    MiddleScans(depth);
    QuietIsLevel(OPENING, depth);
    hide Fields, CloseAt, DepthAfter;
    FieldCount(OPENING, MIDDLE, depth);
    CloseAtAppend(OPENING, MIDDLE, depth);
    DepthAppend(OPENING, MIDDLE, depth);
  }

  /** One level down the literal's semicolon splits the field. */
  lemma LiteralSplits()
    ensures !ScanSafe(OPENING + MIDDLE)
  {
    hide Fields, CloseAt, DepthAfter, Quiet;
    LiteralScans(1);
    QuietIsOneField(OPENING, 1);
  }

  /** Two levels down it does not. */
  lemma GroupedLiteralIsWhole()
    ensures ScanSafe("(" + (OPENING + MIDDLE) + ")")
  {
    QuietIsOneField(OPENING, 2);
    hide Fields, CloseAt, DepthAfter;
    LiteralScans(2);
    LiteralScans(3);
    GroupedIsSafe(OPENING + MIDDLE);
  }

  lemma GroupedIsSafe(t: string)
    requires CloseAt(t, 3).None? && DepthAfter(t, 3) == 3 && DepthAfter(t, 2) == 2 && |Fields(t, 2)| == 1
    ensures ScanSafe("(" + t + ")")
  {
    hide Fields, CloseAt, DepthAfter;
    FieldCount(t, ")", 2);
    ClosingField(2);
    CloseAtAppend(t, ")", 3);
    DepthAppend(t, ")", 3);
    ClosingText(3);
    OpeningText(t + ")", 2);
    OpeningCount(t + ")", 1);
    assert "(" + t + ")" == "(" + (t + ")");
  }

  lemma OpeningCount(s: string, depth: int)
    requires depth != 0
    ensures |Fields("(" + s, depth)| == |Fields(s, depth + 1)|
  {
    assert ("(" + s)[1..] == s;
  }

  type Tok = ConditionLexer.Token

  /** A second pair of parentheses around text that has one. */
  lemma LexGroup(text: string, group: seq<Tok>)
    requires Lex(text) == Some(group + [EOF])
    ensures Lex("(" + text + ")") == Some([ConditionRoundTrip.LP] + (group + ([ConditionRoundTrip.RP] + [EOF])))
  {
    hide Lex;
    ConditionNesting.LexBefore(text, ")");
    assert (group + [EOF])[..|group|] == group;
    LexPunctuation(')', "");
    LexNothing();
    LexPunctuation('(', text + ")");
    assert "(" + text + ")" == "(" + (text + ")");
  }

  lemma ParseGroup(inner: seq<Tok>, c: Condition, o: Options)
    requires ConditionRoundTrip.ParsesTo(inner, c, [ConditionRoundTrip.RP] + [EOF], o)
    ensures var lp, rp := ConditionRoundTrip.LP, ConditionRoundTrip.RP;
            ConditionParser.ParseOr([lp] + (([lp] + inner + [rp]) + ([rp] + [EOF])), o) == Some((c, [EOF]))
  {
    hide ConditionParser.ParseOr, ConditionParser.ParseUnary;
    var lp, rp := ConditionRoundTrip.LP, ConditionRoundTrip.RP;
    var group := [lp] + inner + [rp];
    ConditionRoundTrip.GroupParses(inner, c, [rp] + [EOF], o);
    assert group + ([rp] + [EOF]) == [lp] + (inner + ([rp] + ([rp] + [EOF])));
    ConditionRoundTrip.UnaryAlone(group + ([rp] + [EOF]), c, [rp] + [EOF], o);
    ConditionRoundTrip.GroupParses(group, c, [EOF], o);
    ConditionRoundTrip.WholeParses([lp] + (group + ([rp] + [EOF])), c, o);
  }

  /** A second pair of parentheses around a rendered condition changes nothing. */
  lemma DoubleGroup(c: Condition, o: Options)
    requires WellFormed(o.aliases) && ConditionRoundTrip.PrintableCondition(c)
    ensures ConditionParser.ParseConditionText("((" + Decompiler.ConditionText(c, o) + "))", o) == Some(c)
  {
    hide Lex, ConditionParser.ParseOr, Decompiler.ConditionText, ConditionRoundTrip.ConditionTokens, ConditionRoundTrip.ParsesTo;
    hide ConditionRoundTrip.PrintableCondition, WellFormed;
    var inner := ConditionRoundTrip.ConditionTokens(c, o);
    var text := "(" + Decompiler.ConditionText(c, o) + ")";
    ConditionRoundTrip.LexOfGroupedText(c, o);
    LexGroup(text, [ConditionRoundTrip.LP] + inner + [ConditionRoundTrip.RP]);
    ConditionRoundTrip.ConditionParses(c, [ConditionRoundTrip.RP] + [EOF], o);
    ParseGroup(inner, c, o);
    assert "((" + Decompiler.ConditionText(c, o) + "))" == "(" + text + ")";
  }

  lemma LexNothing()
    ensures Lex("") == Some([EOF]) && [')'] + "" == ")"
  {
  }

  function LiteralAce(sid: SID): TextAce {
    TextAce(ALLOWED_CALLBACK, NO_FLAGS, 0, None, None, sid, Some(LITERAL))
  }

  /** The clause with its condition in two pairs of parentheses. */
  function LiteralClause(sid: SID, o: Options): string {
    "(" + (BodyOf(LiteralAce(sid), o) + Group("(" + (OPENING + MIDDLE) + ")")) + ")"
  }

  lemma LiteralIsWritable(sid: SID)
    requires IsValid(sid)
    ensures WritableAce(LiteralAce(sid)) && AceFits(LiteralAce(sid))
  {
    LiteralIsPrintable();
    hide ConditionRoundTrip.PrintableCondition, ConditionFits;
  }

  lemma LiteralIsUnsafe(sid: SID, o: Options)
    ensures !AceSafe(LiteralAce(sid), o)
  {
    LiteralText(o);
    LiteralSplits();
    hide Decompiler.ConditionText, ScanSafe;
  }

  lemma LiteralParses(o: Options)
    requires WellFormed(o.aliases)
    ensures ConditionParser.ParseConditionText("(" + ("(" + (OPENING + MIDDLE) + ")") + ")", o) == Some(LITERAL)
  {
    LiteralText(o);
    LiteralIsPrintable();
    DoubleGroup(LITERAL, o);
    hide ConditionParser.ParseConditionText, Decompiler.ConditionText;
    assert "((" + (OPENING + MIDDLE) + "))" == "(" + ("(" + (OPENING + MIDDLE) + ")") + ")";
  }

  lemma ClauseReads(sid: SID, o: Options)
    requires WellFormed(o.aliases) && IsValid(sid)
    ensures var s := LiteralClause(sid, o); s[0] == '(' && ScanAce(s, o) == Some((LiteralAce(sid), ""))
  {
    LiteralIsWritable(sid);
    LiteralParses(o);
    GroupedLiteralIsWhole();
    hide BodyOf, Group, ScanSafe, ScanAce, ConditionParser.ParseConditionText, WritableAce, WellFormed;
    ClauseScans(LiteralAce(sid), "(" + (OPENING + MIDDLE) + ")", "", o);
    assert LiteralClause(sid, o) + "" == LiteralClause(sid, o);
  }

  lemma LiteralTree(sid: SID, o: Options)
    requires WellFormed(o.aliases) && IsValid(sid)
    ensures TreeOf("D:" + LiteralClause(sid, o), o)
         == Some(EMPTY.(dacl := TextAcl(false, false, false, Some([LiteralAce(sid)]))))
  {
    hide BodyOf, Group, LiteralAce, ScanAce, ScanParts, ScanAcl, WellFormed, Solid, WritableAce, AceFits, AceSafe, TreeOf;
    ClauseReads(sid, o);
    Closed(BodyOf(LiteralAce(sid), o) + Group("(" + (OPENING + MIDDLE) + ")"));
    var l := TextAcl(false, false, false, Some([LiteralAce(sid)]));
    hide LiteralClause;
    OneAce(LiteralClause(sid, o), LiteralAce(sid), o);
    DaclFirst(LiteralClause(sid, o), l, "", o);
    NothingLeft(EMPTY.(dacl := l), NOTHING.(dacl := true), o);
  }

  lemma OneAce(clause: string, a: TextAce, o: Options)
    requires clause != "" && clause[0] == '(' && ScanAce(clause, o) == Some((a, ""))
    ensures ScanAcl(clause, o) == Some((TextAcl(false, false, false, Some([a])), ""))
  {
    hide ScanAce;
    assert FlagRun(clause) == Some(0) && clause[..0] == "" && clause[0..] == clause;
    assert Raised("") == "" && ReadAclFlags(NO_ACL_FLAGS, "") == Some(NO_ACL_FLAGS);
    assert ScanAces("", o) == Some(([], ""));
    assert [a] + [] == [a];
  }

  lemma OneUnsafeAce(a: TextAce, o: Options)
    requires !AceSafe(a, o) && AceFits(a)
    ensures var t := EMPTY.(dacl := TextAcl(false, false, false, Some([a]))); TreeFits(t) && !Readable(t, o)
  {
    hide AceSafe, AceFits;
    assert [a][0] == a;
  }

  /** The text of a callback ACE with a semicolon in a literal is accepted, and what it is rendered as is not. */
  lemma LiteralLost(sid: SID, o: Options)
    requires WellFormed(o.aliases) && IsValid(sid)
    ensures Lost("D:" + LiteralClause(sid, o), o)
  {
    LiteralTree(sid, o);
    LiteralIsWritable(sid);
    LiteralIsUnsafe(sid, o);
    OneUnsafeAce(LiteralAce(sid), o);
    hide LiteralClause, LiteralAce, AceFits, AceSafe, WritableAce, WellFormed, TreeOf, TreeFits, Readable, Lost;
    UnreadableIsLost("D:" + LiteralClause(sid, o), o);
  }
}
