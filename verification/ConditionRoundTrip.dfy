/**
 Text, tree and bytecode agree: what a condition decompiles to compiles back to the same bytecode
 (sddl/condition.go and sddl/decompile.go).
 */
module ConditionRoundTrip {
  import opened Wrappers
  import opened Bytes
  import opened Numerals
  import opened Text
  import opened Sid
  import opened Aliases
  import opened Conditions
  import opened Decompiler
  import opened ConditionLexer
  import opened ConditionParser

  type Tok = ConditionLexer.Token

  // --- the trees the compiler produces --------------------------------

  /** An operand whose text can be told apart: the compiler makes no other kind. */
  ghost predicate Printable(x: Operand)
    decreases x, 1
  {
    match x
    case IntLit(n) => -TWO_63 <= n < TWO_63
    case StringLit(s) => ConditionLexer.All(s, NotQuote)
    case OctetLit(_) => true
    case SidLit(sid) => IsValid(sid)
    case Attr(scope, name) =>
      if scope.Local? then Identifier(name) else name != "" && ConditionLexer.All(name, AttrChar)
    case Composite(items) => AllPrintable(items)
  }

  ghost predicate AllPrintable(items: seq<Operand>)
    decreases items, 0
  {
    items == [] || (Printable(items[0]) && AllPrintable(items[1..]))
  }

  /** An infix relation never starts with a local attribute named like a prefix operator. */
  ghost predicate PrintableCondition(c: Condition) {
    match c
    case Compare(_, lhs, rhs) =>
      && Printable(lhs) && Printable(rhs)
      && !(lhs.Attr? && lhs.scope.Local? && PrefixKeyword(lhs.name))
    case Member(_, operand) => Printable(operand)
    case Exists(operand) => Printable(operand)
    case NotExists(operand) => Printable(operand)
    case And(l, r) => PrintableCondition(l) && PrintableCondition(r)
    case Or(l, r) => PrintableCondition(l) && PrintableCondition(r)
    case Not(sub) => PrintableCondition(sub)
  }

  lemma AtomIsPrintable(t: Tok, o: Options)
    requires WellFormed(o.aliases) && TokenShape(t) && Atom(t, o).Some?
    ensures Printable(Atom(t, o).value)
  {
    if t.kind == SidRef {
      ParsedSidIsValid(o, t.text);
    } else if t.kind == AttrRef {
      var dot := Span(t.text, NotDot);
      assert t.text[dot + 1..] == t.text[1..][dot..];
    }
  }

  lemma {:induction false} ParsedOperandIsPrintable(ts: Tokens, o: Options)
    requires WellFormed(o.aliases) && Closed(ts) && TokenShapes(ts) && ParseOperand(ts, o).Some?
    ensures Printable(ParseOperand(ts, o).value.0) && TokenShapes(ParseOperand(ts, o).value.1)
    decreases |ts|, 0
  {
    if ts[0].kind == LBrace {
      ParsedItemsArePrintable(ts[1..], o);
    } else {
      AtomIsPrintable(ts[0], o);
    }
  }

  lemma {:induction false} ParsedItemsArePrintable(ts: Tokens, o: Options)
    requires WellFormed(o.aliases) && Closed(ts) && TokenShapes(ts) && ParseItems(ts, o).Some?
    ensures AllPrintable(ParseItems(ts, o).value.0) && TokenShapes(ParseItems(ts, o).value.1)
    decreases |ts|, 1
  {
    hide ParseOperand, Printable, TokenShape;
    if ts[0].kind != RBrace {
      ParsedOperandIsPrintable(ts, o);
      var (item, rest) := ParseOperand(ts, o).value;
      if rest[0].kind == Comma {
        ParsedItemsArePrintable(rest[1..], o);
        var items := ParseItems(rest[1..], o).value.0;
        assert ([item] + items)[1..] == items;
      } else {
        assert [item][1..] == [];
      }
    }
  }

  lemma ParsedLocalAttribute(ts: Tokens, o: Options)
    requires Closed(ts) && ParseOperand(ts, o).Some?
    ensures var x := ParseOperand(ts, o).value.0;
            x.Attr? && x.scope.Local? ==> ts[0].kind == Ident && ts[0].text == x.name
  {
    hide ParseItems;
  }

  lemma {:induction false} ParsedTermIsPrintable(ts: Tokens, o: Options)
    requires WellFormed(o.aliases) && Closed(ts) && TokenShapes(ts) && ParseTerm(ts, o).Some?
    ensures PrintableCondition(ParseTerm(ts, o).value.0) && TokenShapes(ParseTerm(ts, o).value.1)
    decreases |ts|, 2
  {
    hide ParseOr, ParseOperand, Printable, TokenShape;
    if ts[0].kind == LParen {
      ParsedOrIsPrintable(ts[1..], o);
    } else if ts[0].kind == Ident && PrefixKeyword(ts[0].text) {
      ParsedOperandIsPrintable(ts[1..], o);
    } else {
      ParsedOperandIsPrintable(ts, o);
      ParsedLocalAttribute(ts, o);
      ParsedOperandIsPrintable(ParseOperand(ts, o).value.1[1..], o);
    }
  }

  lemma {:induction false} ParsedUnaryIsPrintable(ts: Tokens, o: Options)
    requires WellFormed(o.aliases) && Closed(ts) && TokenShapes(ts) && ParseUnary(ts, o).Some?
    ensures PrintableCondition(ParseUnary(ts, o).value.0) && TokenShapes(ParseUnary(ts, o).value.1)
    decreases |ts|, 3
  {
    hide ParseTerm, Printable, TokenShape;
    if ts[0].kind == Bang {
      ParsedUnaryIsPrintable(ts[1..], o);
    } else {
      ParsedTermIsPrintable(ts, o);
    }
  }

  lemma {:induction false} AndRestIsPrintable(lhs: Condition, ts: Tokens, o: Options)
    requires WellFormed(o.aliases) && Closed(ts) && TokenShapes(ts)
    requires PrintableCondition(lhs) && AndRest(lhs, ts, o).Some?
    ensures PrintableCondition(AndRest(lhs, ts, o).value.0) && TokenShapes(AndRest(lhs, ts, o).value.1)
    decreases |ts|, 4
  {
    if ts[0].kind == AndAnd {
      ParsedUnaryIsPrintable(ts[1..], o);
      var (rhs, rest) := ParseUnary(ts[1..], o).value;
      AndRestIsPrintable(And(lhs, rhs), rest, o);
    }
  }

  lemma {:induction false} ParsedAndIsPrintable(ts: Tokens, o: Options)
    requires WellFormed(o.aliases) && Closed(ts) && TokenShapes(ts) && ParseAnd(ts, o).Some?
    ensures PrintableCondition(ParseAnd(ts, o).value.0) && TokenShapes(ParseAnd(ts, o).value.1)
    decreases |ts|, 5
  {
    ParsedUnaryIsPrintable(ts, o);
    var (lhs, rest) := ParseUnary(ts, o).value;
    AndRestIsPrintable(lhs, rest, o);
  }

  lemma {:induction false} OrRestIsPrintable(lhs: Condition, ts: Tokens, o: Options)
    requires WellFormed(o.aliases) && Closed(ts) && TokenShapes(ts)
    requires PrintableCondition(lhs) && OrRest(lhs, ts, o).Some?
    ensures PrintableCondition(OrRest(lhs, ts, o).value.0) && TokenShapes(OrRest(lhs, ts, o).value.1)
    decreases |ts|, 6
  {
    if ts[0].kind == OrOr {
      ParsedAndIsPrintable(ts[1..], o);
      var (rhs, rest) := ParseAnd(ts[1..], o).value;
      OrRestIsPrintable(Or(lhs, rhs), rest, o);
    }
  }

  lemma {:induction false} ParsedOrIsPrintable(ts: Tokens, o: Options)
    requires WellFormed(o.aliases) && Closed(ts) && TokenShapes(ts) && ParseOr(ts, o).Some?
    ensures PrintableCondition(ParseOr(ts, o).value.0) && TokenShapes(ParseOr(ts, o).value.1)
    decreases |ts|, 7
  {
    ParsedAndIsPrintable(ts, o);
    var (lhs, rest) := ParseAnd(ts, o).value;
    OrRestIsPrintable(lhs, rest, o);
  }

  // --- the tokens of a tree -------------------------------------------

  const LP := ConditionLexer.Token(LParen, "(")
  const RP := ConditionLexer.Token(RParen, ")")
  const LB := ConditionLexer.Token(LBrace, "{")
  const RB := ConditionLexer.Token(RBrace, "}")
  const COMMA := ConditionLexer.Token(Comma, ",")
  const AND_AND := ConditionLexer.Token(AndAnd, "&&")
  const OR_OR := ConditionLexer.Token(OrOr, "||")
  const BANG := ConditionLexer.Token(Bang, "!")

  /** The one token of an operand that is not a composite. */
  function AtomToken(x: Operand, o: Options): Tok
    requires !x.Composite?
  {
    match x
    case IntLit(n) => ConditionLexer.Token(Integer, FormatInt(n))
    case StringLit(s) => ConditionLexer.Token(Str, s)
    case OctetLit(data) => ConditionLexer.Token(Octet, HexEncode(data))
    case SidLit(sid) => ConditionLexer.Token(SidRef, FormatSid(o, sid))
    case Attr(scope, name) => ConditionLexer.Token(if scope.Local? then Ident else AttrRef, ClassPrefix(scope) + name)
  }

  function OperandTokens(x: Operand, o: Options): (ts: Tokens)
    ensures |ts| > 0 && ts[0].kind != LParen && ts[0].kind != Bang && ts[0].kind != RBrace && ts[0].kind != Eof
    decreases x, 1
  {
    if x.Composite? then [LB] + ItemTokens(x.items, o) + [RB] else [AtomToken(x, o)]
  }

  function ItemTokens(items: seq<Operand>, o: Options): Tokens
    decreases items, 0
  {
    if items == [] then []
    else if |items| == 1 then OperandTokens(items[0], o)
    else OperandTokens(items[0], o) + [COMMA] + ItemTokens(items[1..], o)
  }

  function CompareTok(op: CompareOp): Tok {
    var text := CompareText(op);
    ConditionLexer.Token(if IdentStart(text[0]) then Ident else Rel, text)
  }

  function ConditionTokens(c: Condition, o: Options): Tokens {
    match c
    case Compare(op, lhs, rhs) => OperandTokens(lhs, o) + [CompareTok(op)] + OperandTokens(rhs, o)
    case Member(op, x) => [ConditionLexer.Token(Ident, MemberText(op))] + OperandTokens(x, o)
    case Exists(x) => [ConditionLexer.Token(Ident, "Exists")] + OperandTokens(x, o)
    case NotExists(x) => [ConditionLexer.Token(Ident, "Not_Exists")] + OperandTokens(x, o)
    case And(l, r) =>
      [LP] + ConditionTokens(l, o) + [RP, AND_AND, LP] + ConditionTokens(r, o) + [RP]
    case Or(l, r) =>
      [LP] + ConditionTokens(l, o) + [RP, OR_OR, LP] + ConditionTokens(r, o) + [RP]
    case Not(sub) => [BANG, LP] + ConditionTokens(sub, o) + [RP]
  }

  // --- text to tokens -------------------------------------------------

  /** Where a run of characters may stop: at the end of the text or at a space or closing delimiter. */
  predicate Delimited(rest: string) {
    rest == "" || rest[0] in " ),}"
  }

  /** `text` lexes to `ts` whatever follows it, or (when not `free`) whatever delimited text follows it. */
  ghost predicate Reads(text: string, ts: Tokens, free: bool) {
    && text != ""
    && forall rest: string {:trigger Lex(text + rest)} :: free || Delimited(rest) ==> Lex(text + rest) == Then(ts, rest)
  }

  lemma ReadsBoth(a: string, sa: Tokens, freeA: bool, b: string, sb: Tokens, freeB: bool)
    requires Reads(a, sa, freeA) && Reads(b, sb, freeB) && (freeA || Delimited(b))
    ensures Reads(a + b, sa + sb, freeB)
  {
    forall rest: string | freeB || Delimited(rest)
      ensures Lex(a + b + rest) == Then(sa + sb, rest)
    {
      assert a + b + rest == a + (b + rest);
      assert Delimited(b) ==> Delimited(b + rest);
      LexThrough(a + (b + rest), sa, b + rest, sb, rest);
    }
  }

  lemma LexThrough(s: string, sa: Tokens, mid: string, sb: Tokens, rest: string)
    requires Lex(s) == Then(sa, mid) && Lex(mid) == Then(sb, rest)
    ensures Lex(s) == Then(sa + sb, rest)
  {
    ThenThen(sa, sb, rest);
  }

  lemma ReadsMore(text: string, ts: Tokens)
    requires Reads(text, ts, true)
    ensures Reads(text, ts, false)
  {
  }

  /** A text that scans as one token, whatever acceptable text follows. */
  lemma ReadsToken(text: string, t: Tok, free: bool)
    requires text != ""
    requires forall rest: string :: free || Delimited(rest) ==> Scan(text + rest) == Some(Lexeme(t, |text|))
    ensures Reads(text, [t], free)
  {
    forall rest: string | free || Delimited(rest)
      ensures Lex(text + rest) == Then([t], rest)
    {
      LexHead(text, rest, t);
    }
  }

  lemma ReadsSpace()
    ensures Reads(" ", [], true)
  {
    forall rest: string
      ensures Lex(" " + rest) == Then([], rest)
    {
      LexBlank(rest);
      if Lex(rest).Some? {
        assert [] + Lex(rest).value == Lex(rest).value;
      }
    }
  }

  predicate Punctuation(t: Tok) {
    t == LP || t == RP || t == LB || t == RB || t == COMMA
  }

  lemma ReadsPunctuation(t: Tok)
    requires Punctuation(t)
    ensures Reads(t.text, [t], true)
  {
    forall rest: string
      ensures Scan(t.text + rest) == Some(Lexeme(t, 1))
    {
      assert (t.text + rest)[..1] == t.text;
    }
    ReadsToken(t.text, t, true);
  }

  /** The two-character operators. */
  predicate Pair(t: Tok) {
    || t == AND_AND || t == OR_OR
    || (t.kind == Rel && (t.text == "==" || t.text == "!=" || t.text == "<=" || t.text == ">="))
  }

  lemma ReadsPair(t: Tok)
    requires Pair(t)
    ensures Reads(t.text, [t], true)
  {
    forall rest: string
      ensures Scan(t.text + rest) == Some(Lexeme(t, 2))
    {
      assert (t.text + rest)[..2] == t.text;
    }
    ReadsToken(t.text, t, true);
  }

  lemma ReadsAngle(t: Tok)
    requires t.kind == Rel && (t.text == "<" || t.text == ">")
    ensures Reads(t.text, [t], false)
  {
    forall rest: string | Delimited(rest)
      ensures Scan(t.text + rest) == Some(Lexeme(t, 1))
    {
      assert (t.text + rest)[..1] == t.text;
    }
    ReadsToken(t.text, t, false);
  }

  lemma ReadsNegation()
    ensures Reads("!(", [BANG, LP], true)
  {
    ReadsPunctuation(LP);
    forall rest: string
      ensures Lex("!(" + rest) == Then([BANG, LP], rest)
    {
      assert "!(" + rest == "!" + ("(" + rest);
      assert ("!" + ("(" + rest))[..1] == "!";
      LexHead("!", "(" + rest, BANG);
      assert Lex("(" + rest) == Then([LP], rest);
      ThenThen([BANG], [LP], rest);
      assert [BANG] + [LP] == [BANG, LP];
    }
  }

  lemma ReadsWord(word: string)
    requires Identifier(word)
    ensures Reads(word, [ConditionLexer.Token(Ident, word)], false)
  {
    var t := ConditionLexer.Token(Ident, word);
    forall rest: string | Delimited(rest)
      ensures Scan(word + rest) == Some(Lexeme(t, |word|))
    {
      ScanIdent(word, rest);
    }
    ReadsToken(word, t, false);
  }

  lemma ScanIdent(word: string, rest: string)
    requires Identifier(word) && Delimited(rest)
    ensures Scan(word + rest) == Some(Lexeme(ConditionLexer.Token(Ident, word), |word|))
  {
    var s := word + rest;
    SpanOfRun(word, rest, IdentChar);
    assert s[..|word|] == word;
    assert |word| < |s| ==> s[|word|] == rest[0];
    assert Scan(s) == ScanWord(s);
  }

  /** A first character and a run: the shape of an attribute reference and of an integer. */
  lemma SpanAfterFirst(word: string, rest: string, p: char -> bool)
    requires word != "" && ConditionLexer.All(word[1..], p) && (rest == "" || !p(rest[0]))
    ensures Span((word + rest)[1..], p) == |word| - 1
    ensures (word + rest)[..|word|] == word
  {
    assert (word + rest)[1..] == word[1..] + rest;
    SpanOfRun(word[1..], rest, p);
  }

  lemma ReadsInteger(word: string)
    requires word != "" && (word[0] == '-' || '0' <= word[0] <= '9') && Decimal(word[1..])
    ensures Reads(word, [ConditionLexer.Token(Integer, word)], false)
  {
    var t := ConditionLexer.Token(Integer, word);
    forall rest: string | Delimited(rest)
      ensures Scan(word + rest) == Some(Lexeme(t, |word|))
    {
      SpanAfterFirst(word, rest, NumChar);
    }
    ReadsToken(word, t, false);
  }

  lemma ReadsAttribute(word: string)
    requires word != "" && word[0] == '@' && ConditionLexer.All(word[1..], AttrChar)
    ensures Reads(word, [ConditionLexer.Token(AttrRef, word)], false)
  {
    var t := ConditionLexer.Token(AttrRef, word);
    forall rest: string | Delimited(rest)
      ensures Scan(word + rest) == Some(Lexeme(t, |word|))
    {
      SpanAfterFirst(word, rest, AttrChar);
    }
    ReadsToken(word, t, false);
  }

  lemma ReadsOctet(digits: string)
    requires Hex(digits)
    ensures Reads("#" + digits, [ConditionLexer.Token(Octet, digits)], false)
  {
    var text, t := "#" + digits, ConditionLexer.Token(Octet, digits);
    forall rest: string | Delimited(rest)
      ensures Scan(text + rest) == Some(Lexeme(t, |text|))
    {
      assert text[1..] == digits;
      SpanAfterFirst(text, rest, HexChar);
      assert (text + rest)[1..|text|] == digits;
    }
    ReadsToken(text, t, false);
  }

  lemma ReadsString(s: string)
    requires ConditionLexer.All(s, NotQuote)
    ensures Reads("\"" + s + "\"", [ConditionLexer.Token(Str, s)], false)
  {
    var text, t := "\"" + s + "\"", ConditionLexer.Token(Str, s);
    forall rest: string | Delimited(rest)
      ensures Scan(text + rest) == Some(Lexeme(t, |text|))
    {
      assert (text + rest)[1..] == s + ("\"" + rest);
      SpanOfRun(s, "\"" + rest, NotQuote);
      assert (text + rest)[1..1 + |s|] == s;
    }
    ReadsToken(text, t, false);
  }

  lemma ScanSid(s: string, text: string, tail: string)
    requires s == "SID(" + tail && text <= tail && |text| < |tail| && tail[|text|] == ')'
    requires SidTextLike(text)
    ensures Scan(s) == Some(Lexeme(ConditionLexer.Token(SidRef, text), |text| + 5))
  {
    assert s == "SID" + ("(" + tail);
    SpanOfRun("SID", "(" + tail, IdentChar);
    assert tail == text + tail[|text|..];
    SpanOfRun(text, tail[|text|..], NotRParen);
    ScanSidWord(s, text, tail);
  }

  lemma ScanSidWord(s: string, text: string, tail: string)
    requires |s| == 4 + |tail| && s[..3] == "SID" && s[3] == '(' && s[4..] == tail
    requires text <= tail && |text| < |tail|
    requires Span(s, IdentChar) == 3 && Span(tail, NotRParen) == |text|
    ensures Scan(s) == Some(Lexeme(ConditionLexer.Token(SidRef, text), |text| + 5))
  {
    assert s[4..4 + |text|] == tail[..|text|] == text;
    assert s[0] == s[..3][0] == 'S';
    assert ScanWord(s) == Some(Lexeme(ConditionLexer.Token(SidRef, text), |text| + 5));
  }

  lemma ReadsSid(text: string)
    requires SidTextLike(text)
    ensures Reads("SID(" + text + ")", [ConditionLexer.Token(SidRef, text)], false)
  {
    var whole, t := "SID(" + text + ")", ConditionLexer.Token(SidRef, text);
    forall rest: string | Delimited(rest)
      ensures Scan(whole + rest) == Some(Lexeme(t, |whole|))
    {
      var tail := text + ")" + rest;
      assert whole + rest == "SID(" + tail;
      ScanSid(whole + rest, text, tail);
    }
    ReadsToken(whole, t, false);
  }

  /** An attribute's class prefix is an @ and attribute characters. */
  lemma AttributeText(scope: AttrClass, name: string)
    requires !scope.Local? && ConditionLexer.All(name, AttrChar)
    ensures var word := ClassPrefix(scope) + name; word[0] == '@' && ConditionLexer.All(word[1..], AttrChar)
  {
    assert (ClassPrefix(scope) + name)[1..] == ClassPrefix(scope)[1..] + name;
  }

  lemma AtomReads(x: Operand, o: Options)
    requires WellFormed(o.aliases) && Printable(x) && !x.Composite?
    ensures Reads(OperandText(x, o), [AtomToken(x, o)], false)
  {
    match x {
      case IntLit(n) => ReadsInteger(FormatInt(n));
      case StringLit(s) => ReadsString(s);
      case OctetLit(data) => ReadsOctet(HexEncode(data));
      case SidLit(sid) =>
        FormatIsSidText(o, sid);
        ReadsSid(FormatSid(o, sid));
      case Attr(scope, name) =>
        if scope.Local? {
          assert "" + name == name;
          ReadsWord(name);
        } else {
          AttributeText(scope, name);
          ReadsAttribute(ClassPrefix(scope) + name);
        }
    }
  }

  /** `text` between two delimiters. */
  lemma ReadsEnclosed(open: string, so: Tokens, text: string, ts: Tokens, close: Tok)
    requires Reads(open, so, true) && Reads(text, ts, false) && (close == RP || close == RB)
    ensures Reads(open + text + close.text, so + ts + [close], true)
  {
    ReadsPunctuation(close);
    ReadsBoth(open, so, true, text, ts, false);
    ReadsBoth(open + text, so + ts, false, close.text, [close], true);
  }

  lemma ReadsComma()
    ensures Reads(", ", [COMMA], true)
  {
    ReadsPunctuation(COMMA);
    ReadsSpace();
    ReadsBoth(",", [COMMA], true, " ", [], true);
    assert "," + " " == ", " && [COMMA] + [] == [COMMA];
  }

  lemma ReadsList(a: string, sa: Tokens, b: string, sb: Tokens)
    requires Reads(a, sa, false) && Reads(b, sb, false)
    ensures Reads(a + ", " + b, sa + [COMMA] + sb, false)
  {
    ReadsComma();
    assert Delimited(", ");
    ReadsBoth(a, sa, false, ", ", [COMMA], true);
    ReadsBoth(a + ", ", sa + [COMMA], true, b, sb, false);
  }

  lemma {:induction false} OperandReads(x: Operand, o: Options)
    requires WellFormed(o.aliases) && Printable(x)
    ensures Reads(OperandText(x, o), OperandTokens(x, o), false)
    decreases x, 1
  {
    if x.Composite? {
      ReadsPunctuation(LB);
      if x.items == [] {
        ReadsPunctuation(RB);
        ReadsBoth("{", [LB], true, "}", [RB], true);
        ReadsMore("{" + "}", [LB] + [RB]);
        assert "{" + "}" == OperandText(x, o) && [LB] + [RB] == OperandTokens(x, o);
      } else {
        ItemsRead(x.items, o);
        ReadsEnclosed("{", [LB], Join(Texts(x.items, o), ", "), ItemTokens(x.items, o), RB);
        ReadsMore(OperandText(x, o), OperandTokens(x, o));
      }
    } else {
      AtomReads(x, o);
    }
  }

  lemma {:induction false} ItemsRead(items: seq<Operand>, o: Options)
    requires WellFormed(o.aliases) && AllPrintable(items) && items != []
    ensures Reads(Join(Texts(items, o), ", "), ItemTokens(items, o), false)
    decreases items, 0
  {
    var texts := Texts(items, o);
    OperandReads(items[0], o);
    if |items| == 1 {
      assert texts == [OperandText(items[0], o)];
    } else {
      assert texts[1..] == Texts(items[1..], o);
      ItemsRead(items[1..], o);
      ReadsList(OperandText(items[0], o), OperandTokens(items[0], o), Join(texts[1..], ", "), ItemTokens(items[1..], o));
    }
  }

  lemma CompareOpReads(op: CompareOp)
    ensures Reads(CompareText(op), [CompareTok(op)], false)
  {
    var t := CompareTok(op);
    if t.kind == Ident {
      ReadsWord(t.text);
    } else if op.Less? || op.Greater? {
      ReadsAngle(t);
    } else {
      ReadsPair(t);
      ReadsMore(t.text, [t]);
    }
  }

  /** a, an infix token between spaces, b. */
  lemma ReadsInfix(a: string, sa: Tokens, t: Tok, b: string, sb: Tokens, free: bool)
    requires Reads(a, sa, false) && Reads(t.text, [t], false) && Reads(b, sb, free)
    ensures Reads(a + " " + t.text + " " + b, sa + [t] + sb, free)
  {
    ReadsSpace();
    assert Delimited(" ");
    ReadsBoth(a, sa, false, " ", [], true);
    ReadsBoth(a + " ", sa + [], true, t.text, [t], false);
    ReadsBoth(a + " " + t.text, sa + [] + [t], false, " ", [], true);
    ReadsBoth(a + " " + t.text + " ", sa + [] + [t] + [], true, b, sb, free);
    assert sa + [] + [t] + [] + sb == sa + [t] + sb;
  }

  lemma ReadsPrefix(word: string, b: string, sb: Tokens)
    requires Identifier(word) && Reads(b, sb, false)
    ensures Reads(word + " " + b, [ConditionLexer.Token(Ident, word)] + sb, false)
  {
    var t := ConditionLexer.Token(Ident, word);
    ReadsWord(word);
    ReadsSpace();
    assert Delimited(" ");
    ReadsBoth(word, [t], false, " ", [], true);
    ReadsBoth(word + " ", [t] + [], true, b, sb, false);
    assert [t] + [] + sb == [t] + sb;
  }

  /** Two groups around a logical operator. */
  lemma ReadsLogical(a: string, sa: Tokens, t: Tok, b: string, sb: Tokens)
    requires Reads(a, sa, false) && Reads(b, sb, false)
    requires t == AND_AND || t == OR_OR
    ensures Reads("(" + a + ") " + t.text + " (" + b + ")", [LP] + sa + [RP, t, LP] + sb + [RP], false)
  {
    ReadsPunctuation(LP);
    ReadsPair(t);
    ReadsMore(t.text, [t]);
    ReadsEnclosed("(", [LP], a, sa, RP);
    ReadsMore("(" + a + ")", [LP] + sa + [RP]);
    ReadsEnclosed("(", [LP], b, sb, RP);
    ReadsMore("(" + b + ")", [LP] + sb + [RP]);
    ReadsInfix("(" + a + ")", [LP] + sa + [RP], t, "(" + b + ")", [LP] + sb + [RP], false);
    assert "(" + a + ")" + " " + t.text + " " + ("(" + b + ")") == "(" + a + ") " + t.text + " (" + b + ")";
    assert [LP] + sa + [RP] + [t] + ([LP] + sb + [RP]) == [LP] + sa + [RP, t, LP] + sb + [RP];
  }

  lemma LogicalText(a: string, b: string)
    ensures "(" + a + ") " + "&&" + " (" + b + ")" == "(" + a + ") && (" + b + ")"
    ensures "(" + a + ") " + "||" + " (" + b + ")" == "(" + a + ") || (" + b + ")"
  {
  }

  /** The word a prefix form opens with. */
  function PrefixWord(c: Condition): string
    requires c.Member? || c.Exists? || c.NotExists?
  {
    if c.Member? then MemberText(c.mop) else if c.Exists? then "Exists" else "Not_Exists"
  }

  lemma PrefixWordIsKeyword(c: Condition)
    requires c.Member? || c.Exists? || c.NotExists?
    ensures Identifier(PrefixWord(c)) && PrefixKeyword(PrefixWord(c))
  {
    hide MemberOfKeyword, Identifier;
    if c.Member? {
      assert MemberOfKeyword(MemberText(c.mop)) == Some(c.mop);
      MemberTextIsIdentifier(c.mop);
    } else {
      ExistsIsIdentifier();
    }
  }

  lemma MemberTextIsIdentifier(op: MemberOp)
    ensures Identifier(MemberText(op))
  {
  }

  lemma ExistsIsIdentifier()
    ensures Identifier("Exists") && Identifier("Not_Exists")
  {
  }

  lemma PrefixShape(c: Condition, o: Options)
    requires c.Member? || c.Exists? || c.NotExists?
    ensures ConditionText(c, o) == PrefixWord(c) + " " + OperandText(c.operand, o)
    ensures ConditionTokens(c, o) == [ConditionLexer.Token(Ident, PrefixWord(c))] + OperandTokens(c.operand, o)
  {
    assert "Exists" + " " == "Exists " && "Not_Exists" + " " == "Not_Exists ";
  }

  lemma PrefixReads(c: Condition, o: Options)
    requires WellFormed(o.aliases) && (c.Member? || c.Exists? || c.NotExists?) && Printable(c.operand)
    ensures Reads(ConditionText(c, o), ConditionTokens(c, o), false)
  {
    PrefixShape(c, o);
    PrefixWordIsKeyword(c);
    OperandReads(c.operand, o);
    ReadsPrefix(PrefixWord(c), OperandText(c.operand, o), OperandTokens(c.operand, o));
  }

  lemma CompareReads(op: CompareOp, lhs: Operand, rhs: Operand, o: Options)
    requires WellFormed(o.aliases) && Printable(lhs) && Printable(rhs)
    ensures Reads(ConditionText(Compare(op, lhs, rhs), o), ConditionTokens(Compare(op, lhs, rhs), o), false)
  {
    OperandReads(lhs, o);
    OperandReads(rhs, o);
    CompareOpReads(op);
    ReadsInfix(OperandText(lhs, o), OperandTokens(lhs, o), CompareTok(op), OperandText(rhs, o), OperandTokens(rhs, o), false);
  }

  /** A printable tree's text lexes to the tree's tokens. */
  lemma {:induction false} ConditionReads(c: Condition, o: Options)
    requires WellFormed(o.aliases) && PrintableCondition(c)
    ensures Reads(ConditionText(c, o), ConditionTokens(c, o), false)
    decreases c
  {
    match c
    case Compare(op, lhs, rhs) => CompareReads(op, lhs, rhs, o);
    case Member(_, _) => PrefixReads(c, o);
    case Exists(_) => PrefixReads(c, o);
    case NotExists(_) => PrefixReads(c, o);
    case And(l, r) =>
      ConditionReads(l, o);
      ConditionReads(r, o);
      LogicalReads(l, r, AND_AND, o);
    case Or(l, r) =>
      ConditionReads(l, o);
      ConditionReads(r, o);
      LogicalReads(l, r, OR_OR, o);
    case Not(sub) =>
      ConditionReads(sub, o);
      NotReads(sub, o);
  }

  lemma LogicalReads(l: Condition, r: Condition, t: Tok, o: Options)
    requires Reads(ConditionText(l, o), ConditionTokens(l, o), false)
    requires Reads(ConditionText(r, o), ConditionTokens(r, o), false)
    requires t == AND_AND || t == OR_OR
    ensures var c := if t == AND_AND then And(l, r) else Or(l, r);
            Reads(ConditionText(c, o), ConditionTokens(c, o), false)
  {
    hide Reads, OperandText, OperandTokens;
    ReadsLogical(ConditionText(l, o), ConditionTokens(l, o), t, ConditionText(r, o), ConditionTokens(r, o));
    LogicalText(ConditionText(l, o), ConditionText(r, o));
  }

  lemma NotReads(sub: Condition, o: Options)
    requires Reads(ConditionText(sub, o), ConditionTokens(sub, o), false)
    ensures Reads(ConditionText(Not(sub), o), ConditionTokens(Not(sub), o), false)
  {
    hide Reads, OperandText, OperandTokens;
    ReadsNegation();
    ReadsEnclosed("!(", [BANG, LP], ConditionText(sub, o), ConditionTokens(sub, o), RP);
    ReadsMore("!(" + ConditionText(sub, o) + ")", [BANG, LP] + ConditionTokens(sub, o) + [RP]);
  }

  /** The text of a printable tree, in parentheses, lexes to the tree's tokens in parentheses. */
  lemma LexOfGroupedText(c: Condition, o: Options)
    requires WellFormed(o.aliases) && PrintableCondition(c)
    ensures Lex("(" + ConditionText(c, o) + ")") == Some([LP] + ConditionTokens(c, o) + [RP] + [EOF])
  {
    ConditionReads(c, o);
    ReadsPunctuation(LP);
    ReadsEnclosed("(", [LP], ConditionText(c, o), ConditionTokens(c, o), RP);
    var text := "(" + ConditionText(c, o) + ")";
    assert text + "" == text;
    assert Lex("") == Some([EOF]);
  }

  // --- tokens to trees ------------------------------------------------

  lemma AttributeParses(scope: AttrClass, name: string)
    requires !scope.Local? && name != ""
    ensures AttrOperand(ClassPrefix(scope) + name) == Some(Attr(scope, name))
  {
    var word := match scope case User => "@User" case Resource => "@Resource" case _ => "@Device";
    var text := ClassPrefix(scope) + name;
    assert text == word + ("." + name);
    SpanOfRun(word, "." + name, NotDot);
    assert text[1..|word|] == word[1..] && text[|word| + 1..] == name;
  }

  lemma AtomParses(x: Operand, o: Options)
    requires WellFormed(o.aliases) && Printable(x) && !x.Composite?
    ensures Atom(AtomToken(x, o), o) == Some(x)
  {
    hide ParseInt0, HexDecode, ParseSidText, AttrOperand, FormatSid, FormatInt, HexEncode;
    match x {
      case IntLit(n) => ParseIntOfFormat(n);
      case OctetLit(data) => HexRoundTrip(data);
      case SidLit(sid) => ParseOfFormat(o, sid);
      case StringLit(_) =>
      case Attr(_, _) => AttributeAtom(x, o);
    }
  }

  lemma AttributeAtom(x: Operand, o: Options)
    requires x.Attr? && Printable(x)
    ensures Atom(AtomToken(x, o), o) == Some(x)
  {
    if x.scope.Local? {
      assert "" + x.name == x.name;
    } else {
      AttributeParses(x.scope, x.name);
    }
  }

  /** The tokens of an operand, before any others, parse to the operand and leave the others. */
  lemma {:induction false} OperandParses(x: Operand, rest: Tokens, o: Options)
    requires WellFormed(o.aliases) && Printable(x) && Closed(rest)
    ensures ParseOperand(OperandTokens(x, o) + rest, o) == Some((x, rest))
    decreases x, 1
  {
    hide ParseItems, Atom;
    var ts := OperandTokens(x, o) + rest;
    if x.Composite? {
      ItemsParse(x.items, rest, o);
      assert ts[1..] == ItemTokens(x.items, o) + ([RB] + rest);
    } else {
      AtomParses(x, o);
      assert ts[1..] == rest;
    }
  }

  lemma {:induction false} ItemsParse(items: seq<Operand>, rest: Tokens, o: Options)
    requires WellFormed(o.aliases) && AllPrintable(items) && Closed(rest)
    ensures ParseItems(ItemTokens(items, o) + ([RB] + rest), o) == Some((items, rest))
    decreases items, 0
  {
    hide ParseOperand, OperandTokens, Printable, ParseItems;
    var tail := [RB] + rest;
    if items == [] {
      NoItemsParse(rest, o);
      assert ItemTokens(items, o) + tail == tail;
    } else if |items| == 1 {
      OperandParses(items[0], tail, o);
      LastItemParses(OperandTokens(items[0], o), items[0], rest, o);
      assert items == [items[0]];
    } else {
      OperandParses(items[0], [COMMA] + (ItemTokens(items[1..], o) + tail), o);
      ItemsParse(items[1..], rest, o);
      NextItemParses(OperandTokens(items[0], o), items[0], ItemTokens(items[1..], o), items[1..], rest, o);
      assert items == [items[0]] + items[1..];
    }
  }

  lemma NoItemsParse(rest: Tokens, o: Options)
    requires Closed(rest)
    ensures ParseItems([RB] + rest, o) == Some(([], rest))
  {
    assert ([RB] + rest)[1..] == rest;
  }

  lemma LastItemParses(first: Tokens, x: Operand, rest: Tokens, o: Options)
    requires first != [] && first[0].kind != RBrace && first[0].kind != Eof && Closed(rest)
    requires ParseOperand(first + ([RB] + rest), o) == Some((x, [RB] + rest))
    ensures ParseItems(first + ([RB] + rest), o) == Some(([x], rest))
  {
    assert ([RB] + rest)[1..] == rest;
  }

  lemma NextItemParses(first: Tokens, x: Operand, others: Tokens, items: seq<Operand>, rest: Tokens, o: Options)
    requires first != [] && first[0].kind != RBrace && first[0].kind != Eof && Closed(rest)
    requires ParseOperand(first + ([COMMA] + (others + ([RB] + rest))), o) == Some((x, [COMMA] + (others + ([RB] + rest))))
    requires ParseItems(others + ([RB] + rest), o) == Some((items, rest))
    ensures ParseItems(first + [COMMA] + others + ([RB] + rest), o) == Some(([x] + items, rest))
  {
    var more := others + ([RB] + rest);
    TokensBetween(first, COMMA, others, [RB] + rest);
    assert ([COMMA] + more)[1..] == more;
  }

  /** A tree, parsed where a closing parenthesis follows it. */
  ghost predicate ParsesTo(ts: Tokens, c: Condition, rest: Tokens, o: Options) {
    Closed(rest) && ParseOr(ts + ([RP] + rest), o) == Some((c, [RP] + rest))
  }

  /** A parenthesised tree is a unary expression. */
  lemma GroupParses(ts: Tokens, c: Condition, rest: Tokens, o: Options)
    requires ParsesTo(ts, c, rest, o)
    ensures ParseUnary([LP] + (ts + ([RP] + rest)), o) == Some((c, rest))
  {
    hide ParseOr, ParseOperand;
    var inner := ts + ([RP] + rest);
    assert ([LP] + inner)[1..] == inner && ([RP] + rest)[1..] == rest;
    assert ParseTerm([LP] + inner, o) == Some((c, rest));
  }

  /** A unary expression before a closing parenthesis is a whole one. */
  lemma UnaryAlone(ts: Tokens, c: Condition, rest: Tokens, o: Options)
    requires Closed(ts) && Closed(rest) && rest[0].kind == RParen && ParseUnary(ts, o) == Some((c, rest))
    ensures ParseAnd(ts, o) == Some((c, rest)) && ParseOr(ts, o) == Some((c, rest))
  {
    hide ParseUnary;
  }

  lemma AndParses(ts: Tokens, l: Condition, mid: Tokens, r: Condition, rest: Tokens, o: Options)
    requires Closed(ts) && Closed(mid) && Closed(rest) && rest[0].kind == RParen
    requires ParseUnary(ts, o) == Some((l, [AND_AND] + mid)) && ParseUnary(mid, o) == Some((r, rest))
    ensures ParseOr(ts, o) == Some((And(l, r), rest))
  {
    assert ([AND_AND] + mid)[1..] == mid;
    assert AndRest(l, [AND_AND] + mid, o) == AndRest(And(l, r), rest, o) == Some((And(l, r), rest));
    assert ParseAnd(ts, o) == Some((And(l, r), rest));
  }

  lemma OrParses(ts: Tokens, l: Condition, mid: Tokens, r: Condition, rest: Tokens, o: Options)
    requires Closed(ts) && Closed(mid) && Closed(rest) && rest[0].kind == RParen
    requires ParseUnary(ts, o) == Some((l, [OR_OR] + mid)) && ParseUnary(mid, o) == Some((r, rest))
    ensures ParseOr(ts, o) == Some((Or(l, r), rest))
  {
    assert ([OR_OR] + mid)[1..] == mid;
    UnaryAlone(mid, r, rest, o);
    assert AndRest(l, [OR_OR] + mid, o) == Some((l, [OR_OR] + mid));
    assert ParseAnd(ts, o) == Some((l, [OR_OR] + mid));
    assert OrRest(l, [OR_OR] + mid, o) == OrRest(Or(l, r), rest, o) == Some((Or(l, r), rest));
  }

  lemma NotParses(ts: Tokens, c: Condition, rest: Tokens, o: Options)
    requires Closed(ts) && Closed(rest) && rest[0].kind == RParen && ParseUnary(ts, o) == Some((c, rest))
    ensures ParseOr([BANG] + ts, o) == Some((Not(c), rest))
  {
    assert ([BANG] + ts)[1..] == ts;
    UnaryAlone([BANG] + ts, Not(c), rest, o);
  }

  lemma CompareOpParses(op: CompareOp)
    ensures RelOp(CompareTok(op)) == Some(op)
  {
  }

  lemma InfixParses(ts: Tokens, lhs: Operand, op: CompareOp, mid: Tokens, rhs: Operand, rest: Tokens, o: Options)
    requires Closed(ts) && Closed(mid) && Closed(rest) && rest[0].kind == RParen
    requires ts[0].kind != Bang && ts[0].kind != LParen && !(ts[0].kind == Ident && PrefixKeyword(ts[0].text))
    requires ParseOperand(ts, o) == Some((lhs, [CompareTok(op)] + mid)) && ParseOperand(mid, o) == Some((rhs, rest))
    ensures ParseOr(ts, o) == Some((Compare(op, lhs, rhs), rest))
  {
    CompareOpParses(op);
    assert ([CompareTok(op)] + mid)[1..] == mid;
    assert ParseTerm(ts, o) == Some((Compare(op, lhs, rhs), rest));
    UnaryAlone(ts, Compare(op, lhs, rhs), rest, o);
  }

  lemma CompareParses(op: CompareOp, lhs: Operand, rhs: Operand, rest: Tokens, o: Options)
    requires WellFormed(o.aliases) && Closed(rest) && PrintableCondition(Compare(op, lhs, rhs))
    ensures ParsesTo(ConditionTokens(Compare(op, lhs, rhs), o), Compare(op, lhs, rhs), rest, o)
  {
    hide ParseOr, ParseOperand, AtomToken, OperandTokens;
    FirstToken(lhs, o);
    var tail := [RP] + rest;
    var mid := OperandTokens(rhs, o) + tail;
    var ts := OperandTokens(lhs, o) + ([CompareTok(op)] + mid);
    OperandParses(rhs, tail, o);
    OperandParses(lhs, [CompareTok(op)] + mid, o);
    InfixParses(ts, lhs, op, mid, rhs, tail, o);
    TokensBetween(OperandTokens(lhs, o), CompareTok(op), OperandTokens(rhs, o), tail);
  }

  lemma TokenBefore(t: Tok, b: Tokens, rest: Tokens)
    ensures [t] + b + rest == [t] + (b + rest)
  {
  }

  lemma TokensBetween(a: Tokens, t: Tok, b: Tokens, rest: Tokens)
    ensures a + [t] + b + rest == a + ([t] + (b + rest))
  {
  }

  /** An operand opens with an identifier only when it is a local attribute. */
  lemma FirstToken(x: Operand, o: Options)
    ensures var ts := OperandTokens(x, o);
            ts[0].kind == Ident ==> x.Attr? && x.scope.Local? && ts[0].text == x.name
  {
    if x.Attr? && x.scope.Local? {
      assert "" + x.name == x.name;
    }
  }

  lemma PrefixParses(c: Condition, rest: Tokens, o: Options)
    requires WellFormed(o.aliases) && Closed(rest)
    requires (c.Member? || c.Exists? || c.NotExists?) && Printable(c.operand)
    ensures ParsesTo(ConditionTokens(c, o), c, rest, o)
  {
    hide ParseOr, ParseUnary, ParseOperand, OperandTokens, PrefixWord, ConditionTokens, ConditionText, Printable, PrefixKeyword;
    var tail := [RP] + rest;
    var x := c.operand;
    var mid := OperandTokens(x, o) + tail;
    var ts := [ConditionLexer.Token(Ident, PrefixWord(c))] + mid;
    PrefixShape(c, o);
    PrefixWordIsKeyword(c);
    OperandParses(x, tail, o);
    PrefixTerm(c, ts, mid, tail, o);
    UnaryAlone(ts, c, tail, o);
    TokenBefore(ts[0], OperandTokens(x, o), tail);
  }

  lemma PrefixTerm(c: Condition, ts: Tokens, mid: Tokens, rest: Tokens, o: Options)
    requires (c.Member? || c.Exists? || c.NotExists?) && Closed(mid) && PrefixKeyword(PrefixWord(c))
    requires ts == [ConditionLexer.Token(Ident, PrefixWord(c))] + mid
    requires ParseOperand(mid, o) == Some((c.operand, rest))
    ensures Closed(ts) && ParseUnary(ts, o) == Some((c, rest))
  {
    hide ParseOr, ParseOperand, PrefixKeyword;
    assert ts[1..] == mid;
    assert ParseTerm(ts, o) == Some((c, rest));
  }

  /** The tokens of a tree parse to the tree, wherever a closing parenthesis follows. */
  lemma {:induction false} ConditionParses(c: Condition, rest: Tokens, o: Options)
    requires WellFormed(o.aliases) && PrintableCondition(c) && Closed(rest)
    ensures ParsesTo(ConditionTokens(c, o), c, rest, o)
    decreases c
  {
    hide ParsesTo, Printable, OperandTokens, PrefixKeyword;
    match c
    case Compare(op, lhs, rhs) => CompareParses(op, lhs, rhs, rest, o);
    case Member(_, _) => PrefixParses(c, rest, o);
    case Exists(_) => PrefixParses(c, rest, o);
    case NotExists(_) => PrefixParses(c, rest, o);
    case And(l, r) =>
      var mid := [LP] + (ConditionTokens(r, o) + ([RP] + ([RP] + rest)));
      ConditionParses(r, [RP] + rest, o);
      ConditionParses(l, [AND_AND] + mid, o);
      LogicalParses(ConditionTokens(l, o), l, AND_AND, ConditionTokens(r, o), r, rest, o);
    case Or(l, r) =>
      var mid := [LP] + (ConditionTokens(r, o) + ([RP] + ([RP] + rest)));
      ConditionParses(r, [RP] + rest, o);
      ConditionParses(l, [OR_OR] + mid, o);
      LogicalParses(ConditionTokens(l, o), l, OR_OR, ConditionTokens(r, o), r, rest, o);
    case Not(sub) =>
      ConditionParses(sub, [RP] + rest, o);
      NegationParses(ConditionTokens(sub, o), sub, rest, o);
  }

  lemma NegationParses(ts: Tokens, c: Condition, rest: Tokens, o: Options)
    requires Closed(rest) && ParsesTo(ts, c, [RP] + rest, o)
    ensures ParsesTo([BANG, LP] + ts + [RP], Not(c), rest, o)
  {
    hide ParseOr, ParseUnary;
    var inner := [LP] + (ts + ([RP] + ([RP] + rest)));
    GroupParses(ts, c, [RP] + rest, o);
    NotParses(inner, c, [RP] + rest, o);
    assert [BANG, LP] + ts + [RP] + ([RP] + rest) == [BANG] + inner;
  }

  lemma LogicalParses(sa: Tokens, l: Condition, t: Tok, sb: Tokens, r: Condition, rest: Tokens, o: Options)
    requires (t == AND_AND || t == OR_OR) && Closed(rest)
    requires ParsesTo(sb, r, [RP] + rest, o)
    requires ParsesTo(sa, l, [t] + ([LP] + (sb + ([RP] + ([RP] + rest)))), o)
    ensures ParsesTo([LP] + sa + [RP, t, LP] + sb + [RP], if t == AND_AND then And(l, r) else Or(l, r), rest, o)
  {
    hide ParseOr, ParseUnary;
    var mid := [LP] + (sb + ([RP] + ([RP] + rest)));
    var ts := [LP] + (sa + ([RP] + ([t] + mid)));
    GroupParses(sb, r, [RP] + rest, o);
    GroupParses(sa, l, [t] + mid, o);
    if t == AND_AND {
      AndParses(ts, l, mid, r, [RP] + rest, o);
    } else {
      OrParses(ts, l, mid, r, [RP] + rest, o);
    }
    LogicalTokens(sa, t, sb, [RP] + rest);
  }

  lemma LogicalTokens(sa: Tokens, t: Tok, sb: Tokens, rest: Tokens)
    ensures [LP] + sa + [RP, t, LP] + sb + [RP] + rest
         == [LP] + (sa + ([RP] + ([t] + ([LP] + (sb + ([RP] + rest))))))
  {
  }

  // --- the round trip -------------------------------------------------

  /** Text printed from a printable tree and put in parentheses parses to that tree. */
  lemma ParseOfGroupedText(c: Condition, o: Options)
    requires WellFormed(o.aliases) && PrintableCondition(c)
    ensures ParseConditionText("(" + ConditionText(c, o) + ")", o) == Some(c)
  {
    hide ParseOr, ParseUnary, Lex, ConditionTokens, ConditionText, PrintableCondition;
    var inner := ConditionTokens(c, o);
    LexOfGroupedText(c, o);
    ConditionParses(c, [EOF], o);
    var ts := [LP] + (inner + ([RP] + [EOF]));
    assert [LP] + inner + [RP] + [EOF] == ts;
    GroupParses(inner, c, [EOF], o);
    WholeParses(ts, c, o);
  }

  lemma WholeParses(ts: Tokens, c: Condition, o: Options)
    requires Closed(ts) && ParseUnary(ts, o) == Some((c, [EOF]))
    ensures ParseOr(ts, o) == Some((c, [EOF]))
  {
    assert ParseAnd(ts, o) == Some((c, [EOF]));
  }

  /** Compiled text is always a printable tree: the parser emits nothing the printer cannot spell. */
  lemma ParsedTextIsPrintable(s: string, o: Options)
    requires WellFormed(o.aliases) && ParseConditionText(s, o).Some?
    ensures PrintableCondition(ParseConditionText(s, o).value)
  {
    LexShapes(s);
    ParsedOrIsPrintable(Lex(s).value, o);
  }

  /**
   The round-trip theorem. Every text the compiler accepts, as long as no operand outgrows its 32-bit
   length, decompiles without error, and what it decompiles to compiles to the very same bytes.
   */
  lemma CompileDecompileCompile(s: string, o: Options)
    requires WellFormed(o.aliases)
    requires ParseConditionText(s, o).Some? && ConditionFits(ParseConditionText(s, o).value)
    ensures var body := EncodedBody(Code(ParseConditionText(s, o).value));
            && DecodeCondition(body, o).Some?
            && var again := ParseConditionText("(" + DecodeCondition(body, o).value + ")", o);
            && again.Some? && EncodedBody(Code(again.value)) == body
  {
    hide ParseConditionText, DecodeCondition, EncodedBody, ConditionText, ConditionFits, PrintableCondition, Code;
    var c := ParseConditionText(s, o).value;
    ParsedTextIsPrintable(s, o);
    DecodeOfEncoded(c, o);
    ParseOfGroupedText(c, o);
  }
}
