/** How the SDDL scanner takes rendered text apart again. */
module SddlScanning {
  import opened Wrappers
  import opened Bytes
  import opened Numerals
  import opened Sid
  import opened Aliases
  import opened SddlTables
  import opened SddlText
  import ConditionLexer

  // --- parentheses and fields ------------------------------------------

  /** The nesting depth after `s`, when it is `depth` before it. */
  function DepthAfter(s: string, depth: int): int {
    if s == "" then depth else DepthAfter(s[1..], depth + Nesting(s[0]))
  }

  predicate NoParen(c: char) { c != '(' && c != ')' }

  predicate PlainChar(c: char) { NoParen(c) && c != ';' }

  /** No parenthesis and no separator. */
  predicate Plain(s: string) { ConditionLexer.All(s, PlainChar) }

  /** No parenthesis. */
  predicate Quiet(s: string) { ConditionLexer.All(s, NoParen) }

  lemma {:induction false} CloseAtAppend(a: string, b: string, depth: int)
    requires CloseAt(a, depth).None?
    ensures CloseAt(a + b, depth) == match CloseAt(b, DepthAfter(a, depth)) case None => None case Some(n) => Some(|a| + n)
  {
    if a == "" {
      assert a + b == b;
    } else {
      assert (a + b)[1..] == a[1..] + b;
      CloseAtAppend(a[1..], b, depth + Nesting(a[0]));
    }
  }

  lemma {:induction false} CloseAtWithin(a: string, b: string, depth: int)
    requires CloseAt(a, depth).Some?
    ensures CloseAt(a + b, depth) == CloseAt(a, depth)
  {
    assert (a + b)[1..] == a[1..] + b;
    if !(a[0] == ')' && depth + Nesting(a[0]) == 0) {
      CloseAtWithin(a[1..], b, depth + Nesting(a[0]));
    }
  }

  lemma {:induction false} QuietIsLevel(s: string, depth: int)
    requires Quiet(s)
    ensures CloseAt(s, depth).None? && DepthAfter(s, depth) == depth
  {
    if s != "" {
      QuietIsLevel(s[1..], depth);
    }
  }

  lemma {:induction false} DepthAppend(a: string, b: string, depth: int)
    ensures DepthAfter(a + b, depth) == DepthAfter(b, DepthAfter(a, depth))
  {
    if a == "" {
      assert a + b == b;
    } else {
      assert (a + b)[1..] == a[1..] + b;
      DepthAppend(a[1..], b, depth + Nesting(a[0]));
    }
  }

  /** Fields run on across text that splits nowhere. */
  lemma {:induction false} FieldsAppend(a: string, b: string, depth: int)
    requires Fields(a, depth) == [a]
    ensures var rest := Fields(b, DepthAfter(a, depth)); Fields(a + b, depth) == [a + rest[0]] + rest[1..]
  {
    if a == "" {
      assert a + b == b;
      var rest := Fields(b, depth);
      assert [a + rest[0]] + rest[1..] == rest by { assert a + rest[0] == rest[0]; }
    } else {
      assert (a + b)[1..] == a[1..] + b && (a + b)[0] == a[0];
      var next := depth + Nesting(a[0]);
      WholeField(a, depth);
      FieldsAppend(a[1..], b, next);
      var rest := Fields(b, DepthAfter(a, depth));
      var inner := [a[1..] + rest[0]] + rest[1..];
      assert inner[1..] == rest[1..];
      assert [a[0]] + (a[1..] + rest[0]) == a + rest[0];
    }
  }

  lemma WholeField(a: string, depth: int)
    requires a != "" && Fields(a, depth) == [a]
    ensures !(a[0] == ';' && depth == 0) && Fields(a[1..], depth + Nesting(a[0])) == [a[1..]]
  {
    if a[0] == ';' && depth == 0 {
      assert false;
    } else {
      var rest := Fields(a[1..], depth + Nesting(a[0]));
      assert |Fields(a, depth)| == |rest|;
      assert Fields(a, depth)[0] == a && Fields(a, depth)[0] == [a[0]] + rest[0];
      assert rest[0] == a[1..] by { assert ([a[0]] + rest[0])[1..] == rest[0]; }
      assert rest == [rest[0]];
    }
  }

  /** How many fields there are does not depend on what they follow. */
  lemma {:induction false} FieldCount(a: string, b: string, depth: int)
    ensures |Fields(a + b, depth)| == |Fields(a, depth)| + |Fields(b, DepthAfter(a, depth))| - 1
  {
    if a == "" {
      assert a + b == b;
    } else {
      assert (a + b)[1..] == a[1..] + b;
      FieldCount(a[1..], b, depth + Nesting(a[0]));
    }
  }

  /** One field is the whole text. */
  lemma {:induction false} OneField(s: string, depth: int)
    requires |Fields(s, depth)| == 1
    ensures Fields(s, depth) == [s]
  {
    if s != "" {
      OneField(s[1..], depth + Nesting(s[0]));
      assert [s[0]] + s[1..] == s;
    }
  }

  lemma {:induction false} PlainIsOneField(s: string, depth: int)
    requires Plain(s)
    ensures Fields(s, depth) == [s] && Quiet(s)
  {
    if s != "" {
      PlainIsOneField(s[1..], depth);
      assert [s[0]] + s[1..] == s;
    }
  }

  lemma {:induction false} QuietIsOneField(s: string, depth: int)
    requires Quiet(s) && depth != 0
    ensures Fields(s, depth) == [s]
  {
    if s != "" {
      QuietIsOneField(s[1..], depth);
      assert [s[0]] + s[1..] == s;
    }
  }

  /** A plain field and its separator come off the front. */
  lemma FirstField(a: string, rest: string)
    requires Plain(a)
    ensures Fields(a + ";" + rest, 0) == [a] + Fields(rest, 0)
  {
    hide Fields, Quiet;
    PlainIsOneField(a, 0);
    QuietIsLevel(a, 0);
    FieldsAppend(a, ";" + rest, 0);
    Separator(rest);
    assert a + ";" + rest == a + (";" + rest);
    assert ([""] + Fields(rest, 0))[1..] == Fields(rest, 0) && a + "" == a;
  }

  lemma Separator(rest: string)
    ensures Fields(";" + rest, 0) == [""] + Fields(rest, 0)
  {
    assert (";" + rest)[1..] == rest;
  }

  lemma SixFields(f0: string, f1: string, f2: string, f3: string, f4: string, rest: string)
    requires Plain(f0) && Plain(f1) && Plain(f2) && Plain(f3) && Plain(f4)
    ensures Fields(f0 + ";" + (f1 + ";" + (f2 + ";" + (f3 + ";" + (f4 + ";" + rest)))), 0)
         == [f0, f1, f2, f3, f4] + Fields(rest, 0)
  {
    hide Fields, Plain;
    FirstField(f4, rest);
    FirstField(f3, f4 + ";" + rest);
    FirstField(f2, f3 + ";" + (f4 + ";" + rest));
    FirstField(f1, f2 + ";" + (f3 + ";" + (f4 + ";" + rest)));
    FirstField(f0, f1 + ";" + (f2 + ";" + (f3 + ";" + (f4 + ";" + rest))));
  }

  // --- SIDs ------------------------------------------------------------

  /** Text that continues neither a decimal number, nor a hex prefix, nor a list of sub-authorities. */
  predicate EndsNumber(rest: string) {
    rest == "" || (!Digit(rest[0]) && rest[0] != 'x' && rest[0] != 'X')
  }

  predicate EndsHex(rest: string) {
    rest == "" || !ConditionLexer.HexChar(rest[0])
  }

  lemma DecimalSize(digits: string, rest: string)
    requires digits != "" && Decimal(digits) && EndsNumber(rest)
    ensures NumberSize(digits + rest) == Some(|digits|)
  {
    var s := digits + rest;
    assert ConditionLexer.All(digits, Digit);
    ConditionLexer.SpanOfRun(digits, rest, Digit);
    if |s| >= 2 && |digits| >= 2 {
      assert s[1] == digits[1];
    }
  }

  lemma HexSize(digits: string, rest: string)
    requires digits != "" && Hex(digits) && EndsHex(rest)
    ensures NumberSize("0x" + digits + rest) == Some(2 + |digits|)
  {
    var s := "0x" + digits + rest;
    assert ConditionLexer.All(digits, ConditionLexer.HexChar);
    ConditionLexer.SpanOfRun(digits, rest, ConditionLexer.HexChar);
    assert s[2..] == digits + rest;
  }

  lemma {:induction false} DashedSize(subs: seq<u32>, rest: string)
    requires EndsNumber(rest) && (rest == "" || rest[0] != '-')
    ensures SubsPrefix(Dashed(SubTexts(subs)), rest)
  {
    hide NumberSize, SubsPrefix, Dashed, SubTexts, Digits;
    DashedOfNone(subs);
    if subs == [] {
      NoSubs(rest);
    } else {
      var first, more := Digits(subs[0] as int, 10), Dashed(SubTexts(subs[1..]));
      assert subs[0..] == subs;
      DashedStep(subs, 0);
      DashedOfNone(subs[1..]);
      DashedSize(subs[1..], rest);
      DashEndsNumber(more, rest);
      DecimalSize(first, more + rest);
      NextSub(first, more, rest);
    }
  }

  lemma DashEndsNumber(more: string, rest: string)
    requires EndsNumber(rest) && (more == "" || more[0] == '-')
    ensures EndsNumber(more + rest)
  {
    if more == "" {
      assert more + rest == rest;
    }
  }

  predicate SubsPrefix(t: string, rest: string) { SubsSize(t + rest) == Some(|t|) }

  lemma NextSub(first: string, more: string, rest: string)
    requires NumberSize(first + (more + rest)) == Some(|first|) && SubsPrefix(more, rest)
    ensures SubsPrefix("-" + first + more, rest)
  {
    hide NumberSize;
    var s := "-" + first + more + rest;
    assert s[1..] == first + (more + rest) && s[1 + |first|..] == more + rest;
  }

  /** A SID whose text ends in a hex number: no sub-authorities, and an authority of more than 32 bits. */
  predicate HexEnded(sid: SID)
    ensures HexEnded(sid) ==> IsValid(sid)
  {
    IsValid(sid) && Count(sid) == 0 && Authority(sid) >= TWO_32
  }

  /** What may follow a SID in a text: nothing, or another component. */
  predicate EndsSid(rest: string) {
    rest == "" || rest[0] == 'G' || rest[0] == 'D' || rest[0] == 'S'
  }

  lemma DashedOfNone(subs: seq<u32>)
    ensures Dashed(SubTexts(subs)) == "" <==> subs == []
    ensures subs != [] ==> Dashed(SubTexts(subs))[0] == '-'
  {
    if subs != [] {
      hide Dashed, SubTexts;
      DashedStep(subs, 0);
      assert subs[0..] == subs;
    }
  }

  lemma PrintedSize(sid: SID, rest: string)
    requires IsValid(sid) && EndsSid(rest)
    requires !(HexEnded(sid) && rest != "" && rest[0] == 'D')
    ensures SidSize(Printed(sid) + rest) == Some(|Printed(sid)|)
  {
    DashedSize(SubAuthorities(sid), rest);
    DashedOfNone(SubAuthorities(sid));
    hide SidSize, SubsSize, NumberSize, Dashed, SubTexts, Authority, AuthorityText, SubAuthorities;
    var auth, subs := AuthorityText(Authority(sid)), Dashed(SubTexts(SubAuthorities(sid)));
    AuthoritySize(Authority(sid), subs + rest);
    LiteralSize(auth, subs, rest);
  }

  lemma LiteralSize(auth: string, subs: string, rest: string)
    requires NumberSize(auth + (subs + rest)) == Some(|auth|) && SubsPrefix(subs, rest)
    ensures SidSize("S-1-" + auth + subs + rest) == Some(|"S-1-" + auth + subs|)
  {
    hide NumberSize, SubsSize;
    LiteralLayout(auth, subs, rest);
  }

  lemma AuthoritySize(a: nat, rest: string)
    requires if a >= TWO_32 then EndsHex(rest) else EndsNumber(rest)
    ensures NumberSize(AuthorityText(a) + rest) == Some(|AuthorityText(a)|)
  {
    if a >= TWO_32 {
      HexSize(Digits(a, 16), rest);
    } else {
      DecimalSize(Digits(a, 10), rest);
    }
  }

  lemma LiteralLayout(auth: string, subs: string, rest: string)
    ensures var s := "S-1-" + auth + subs + rest;
            "S-" <= s && "S-1-" <= s && s[4..] == auth + (subs + rest) && s[4 + |auth|..] == subs + rest
  {
    var s := "S-1-" + auth + subs + rest;
    assert s[..4] == "S-1-" && s[..2] == "S-";
  }

  /** A rendered SID is taken off the front of what follows it, unless a D: continues its hex number. */
  lemma SidScans(sid: SID, o: Options, rest: string)
    requires WellFormed(o.aliases) && IsValid(sid) && EndsSid(rest)
    requires !(HexEnded(sid) && AliasOf(o, sid).None? && rest != "" && rest[0] == 'D')
    ensures ScanSid(FormatSid(o, sid) + rest, o) == Some((sid, rest))
  {
    hide AliasOf, Printed, ParseSidText, WellFormed, RawSidSize, HexEnded;
    var text := FormatSid(o, sid);
    var s := text + rest;
    ParseOfFormat(o, sid);
    assert s[..|text|] == text && s[|text|..] == rest;
    if AliasOf(o, sid).Some? {
      AliasResolves(o, sid);
      assert s[1] == text[1];
    } else {
      PrintedSize(sid, rest);
    }
  }

  /** Followed by a D:, a hex number swallows the D, and a colon is left at the front. */
  lemma HexSwallows(sid: SID, o: Options, rest: string)
    requires HexEnded(sid) && AliasOf(o, sid).None? && rest != "" && rest[0] == ':'
    ensures SidSize(FormatSid(o, sid) + "D" + rest) == Some(|FormatSid(o, sid)| + 1)
  {
    DashedOfNone(SubAuthorities(sid));
    hide AliasOf, SidSize, NumberSize, SubsPrefix, Authority, SubAuthorities, Dashed, SubTexts;
    SwallowedLiteral(Digits(Authority(sid), 16), rest);
  }

  lemma SwallowedLiteral(digits: string, rest: string)
    requires digits != "" && Hex(digits) && rest != "" && rest[0] == ':'
    ensures SidSize("S-1-" + ("0x" + digits) + "" + "D" + rest) == Some(|"S-1-" + ("0x" + digits)| + 1)
  {
    hide SidSize, NumberSize, SubsPrefix, Hex;
    SwallowedSize(digits, rest);
    assert "0x" + (digits + "D") + ("" + rest) == "0x" + (digits + "D") + rest;
    NoSubs(rest);
    LiteralSize("0x" + (digits + "D"), "", rest);
    assert "S-1-" + ("0x" + digits) + "" + "D" + rest == "S-1-" + ("0x" + (digits + "D")) + "" + rest;
  }

  lemma NoSubs(rest: string)
    requires rest == "" || rest[0] != '-'
    ensures SubsPrefix("", rest)
  {
    assert "" + rest == rest;
  }

  lemma SwallowedSize(digits: string, rest: string)
    requires digits != "" && Hex(digits) && rest != "" && rest[0] == ':'
    ensures NumberSize("0x" + (digits + "D") + rest) == Some(2 + |digits| + 1)
  {
    var run := digits + "D";
    var s := "0x" + run + rest;
    assert ConditionLexer.All(run, ConditionLexer.HexChar);
    ConditionLexer.SpanOfRun(run, rest, ConditionLexer.HexChar);
    assert s[2..] == run + rest;
  }

  // --- ACL flags -------------------------------------------------------

  lemma {:induction false} FlagRunEnds(run: string, rest: string)
    requires ConditionLexer.All(run, FlagChar) && FlagRun(rest) == Some(0) && (rest == "" || rest[0] != ':')
    ensures FlagRun(run + rest) == Some(|run|)
  {
    if run == "" {
      assert run + rest == rest;
    } else {
      assert (run + rest)[1..] == run[1..] + rest;
      FlagRunEnds(run[1..], rest);
    }
  }

  lemma {:induction false} RaisedIsItself(s: string)
    requires ConditionLexer.All(s, RaisedChar)
    ensures Raised(s) == s
  {
    if s != "" {
      RaisedIsItself(s[1..]);
      assert [s[0]] + s[1..] == s;
    }
  }

  lemma NotNull(c: char, rest: string)
    requires c != 'N'
    ensures !(NullWord() <= [c] + rest)
  {
    hide NullWord;
  }

  lemma ReadProtected(f: AclFlags, on: bool, rest: string)
    requires !f.protected
    ensures ReadAclFlags(f, Letter(on, 'P') + rest) == ReadAclFlags(f.(protected := on), rest)
  {
    hide NullWord;
    if on {
      NotNull('P', rest);
      assert (['P'] + rest)[1..] == rest;
    } else {
      assert "" + rest == rest;
    }
  }

  lemma ReadRequested(f: AclFlags, on: bool, rest: string)
    requires !f.requested
    ensures ReadAclFlags(f, FlagCode(on, 'A', 'R') + rest) == ReadAclFlags(f.(requested := on), rest)
  {
    hide NullWord;
    if on {
      NotNull('A', ['R'] + rest);
      var s := ['A', 'R'] + rest;
      assert s == ['A'] + (['R'] + rest) && s[0] == 'A' && s[1] == 'R' && s[2..] == rest;
    } else {
      assert "" + rest == rest;
    }
  }

  lemma ReadInherited(f: AclFlags, on: bool, rest: string)
    requires !f.inherited
    ensures ReadAclFlags(f, FlagCode(on, 'A', 'I') + rest) == ReadAclFlags(f.(inherited := on), rest)
  {
    hide NullWord;
    if on {
      NotNull('A', ['I'] + rest);
      var s := ['A', 'I'] + rest;
      assert s == ['A'] + (['I'] + rest) && s[0] == 'A' && s[1] == 'I' && s[2..] == rest;
    } else {
      assert "" + rest == rest;
    }
  }

  lemma ReadNull(f: AclFlags, isNull: bool)
    requires !f.isNull
    ensures ReadAclFlags(f, if isNull then NullWord() else "") == Some(f.(isNull := isNull))
  {
    hide NullWord;
    if isNull {
      assert NullWord()[17..] == "";
    }
  }

  /** The whole flag run of a section. */
  function Run(p: bool, r: bool, i: bool, isNull: bool): string {
    AclFlagsText(p, r, i) + (if isNull then NullWord() else "")
  }

  lemma FlagsRead(p: bool, r: bool, i: bool, isNull: bool)
    ensures ReadAclFlags(NO_ACL_FLAGS, Run(p, r, i, isNull)) == Some(AclFlags(p, r, i, isNull))
  {
    hide ReadAclFlags, NullWord, Letter, FlagCode;
    var end := if isNull then NullWord() else "";
    var t2 := FlagCode(i, 'A', 'I') + end;
    var t1 := FlagCode(r, 'A', 'R') + t2;
    assert Run(p, r, i, isNull) == Letter(p, 'P') + t1;
    ReadProtected(NO_ACL_FLAGS, p, t1);
    ReadRequested(AclFlags(p, false, false, false), r, t2);
    ReadInherited(AclFlags(p, r, false, false), i, end);
    ReadNull(AclFlags(p, r, i, false), isNull);
  }

  lemma RunIsRaised(p: bool, r: bool, i: bool, isNull: bool)
    ensures ConditionLexer.All(Run(p, r, i, isNull), RaisedChar)
  {
    hide NullWord;
  }

  lemma RaisedIsFlag(s: string)
    requires ConditionLexer.All(s, RaisedChar)
    ensures ConditionLexer.All(s, FlagChar)
  {
  }

  /** The flags of a section are read back, whatever ends the run. */
  lemma RunScans(p: bool, r: bool, i: bool, isNull: bool, rest: string)
    requires FlagRun(rest) == Some(0) && (rest == "" || rest[0] != ':')
    ensures var run := Run(p, r, i, isNull);
            FlagRun(run + rest) == Some(|run|)
            && ReadAclFlags(NO_ACL_FLAGS, Raised((run + rest)[..|run|])) == Some(AclFlags(p, r, i, isNull))
  {
    hide ReadAclFlags, Run;
    var run := Run(p, r, i, isNull);
    RunIsRaised(p, r, i, isNull);
    RaisedIsFlag(run);
    FlagRunEnds(run, rest);
    RaisedIsItself(run);
    FlagsRead(p, r, i, isNull);
    assert (run + rest)[..|run|] == run;
  }
}
