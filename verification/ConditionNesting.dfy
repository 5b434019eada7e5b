/**
 Parentheses in conditional-expression text: what is left of rendered text when it is cut before one of its
 closing parentheses, or run on past its last, is no expression.
 */
module ConditionNesting {
  import opened Wrappers
  import opened Aliases
  import opened Conditions
  import opened Decompiler
  import opened ConditionLexer
  import opened ConditionParser
  import opened ConditionRoundTrip

  // --- lexing the front of a text --------------------------------------

  lemma {:induction false} SpanBefore(s: string, b: string, p: char -> bool)
    requires b != "" && !p(b[0])
    ensures Span(s + b, p) == Span(s, p)
  {
    if s == "" {
      assert s + b == b;
    } else {
      assert (s + b)[1..] == s[1..] + b;
      SpanBefore(s[1..], b, p);
    }
  }

  lemma {:induction false} SpanInside(s: string, b: string, p: char -> bool)
    requires Span(s, p) < |s|
    ensures Span(s + b, p) == Span(s, p)
  {
    assert (s + b)[1..] == s[1..] + b && (s + b)[0] == s[0];
    if p(s[0]) {
      SpanInside(s[1..], b, p);
    }
  }

  lemma SameSlice(a: string, b: string, i: nat, j: nat)
    requires i <= j <= |a|
    ensures (a + b)[i..j] == a[i..j]
  {
  }

  lemma SameWord(kind: Kind, a: string, b: string, n: nat)
    requires n <= |a|
    ensures Word(kind, a + b, n) == Word(kind, a, n)
  {
    assert (a + b)[..n] == a[..n];
  }

  lemma StringBefore(a: string, b: string)
    requires a != "" && a[0] == '"' && ScanString(a).Some?
    ensures ScanString(a + b) == ScanString(a)
  {
    hide Span;
    assert (a + b)[1..] == a[1..] + b;
    SpanInside(a[1..], b, NotQuote);
    SameSlice(a, b, 1, 1 + Span(a[1..], NotQuote));
  }

  lemma SymbolBefore(a: string, b: string)
    requires a != "" && ScanSymbol(a).Some? && b != "" && b[0] == ')'
    ensures ScanSymbol(a + b) == ScanSymbol(a)
  {
    var s := a + b;
    assert s[0] == a[0] && s[1] == (if |a| > 1 then a[1] else ')');
    assert s[..1] == a[..1] && (|a| > 1 ==> s[..2] == a[..2]);
  }

  /** A token that is complete before a closing parenthesis is the same token with it there. */
  lemma ScanBefore(a: string, b: string)
    requires a != "" && Scan(a).Some? && b != "" && b[0] == ')'
    ensures Scan(a + b) == Scan(a)
  {
    hide Span, ScanString, ScanWord, ScanSymbol, Word;
    var c := a[0];
    assert (a + b)[0] == c;
    if c == '"' {
      StringBefore(a, b);
    } else if c == '#' || c == '@' || c == '-' || '0' <= c <= '9' {
      ScanRun(a, b);
    } else if IdentStart(c) {
      WordBefore(a, b);
    } else {
      ScanPunctuation(a, b);
    }
  }

  /** Octets, attributes and numbers. */
  lemma ScanRun(a: string, b: string)
    requires a != "" && b != "" && b[0] == ')'
    requires a[0] == '#' || a[0] == '@' || a[0] == '-' || '0' <= a[0] <= '9'
    ensures Scan(a + b) == Scan(a)
  {
    hide Span, ScanString, ScanWord, ScanSymbol, Word;
    assert (a + b)[1..] == a[1..] + b && (a + b)[0] == a[0];
    if a[0] == '#' {
      SpanBefore(a[1..], b, HexChar);
      SameSlice(a, b, 1, 1 + Span(a[1..], HexChar));
    } else if a[0] == '@' {
      SpanBefore(a[1..], b, AttrChar);
      SameWord(AttrRef, a, b, 1 + Span(a[1..], AttrChar));
    } else {
      SpanBefore(a[1..], b, NumChar);
      SameWord(Integer, a, b, 1 + Span(a[1..], NumChar));
    }
  }

  lemma ScanPunctuation(a: string, b: string)
    requires a != "" && Scan(a).Some? && b != "" && b[0] == ')'
    requires a[0] != '"' && a[0] != '#' && a[0] != '@' && a[0] != '-' && !('0' <= a[0] <= '9') && !IdentStart(a[0])
    ensures Scan(a + b) == Scan(a)
  {
    hide Span, ScanString, ScanWord, ScanSymbol;
    assert (a + b)[0] == a[0] && (a + b)[..1] == a[..1];
    if !Space(a[0]) && a[0] !in "(){}," {
      SymbolBefore(a, b);
    }
  }

  lemma WordBefore(a: string, b: string)
    requires a != "" && IdentStart(a[0]) && ScanWord(a).Some? && b != "" && b[0] == ')'
    ensures ScanWord(a + b) == ScanWord(a)
  {
    hide Span;
    SpanBefore(a, b, IdentChar);
    var n := Span(a, IdentChar);
    var s := a + b;
    assert s[..n] == a[..n];
    if n < |a| {
      assert s[n] == a[n] && s[n + 1..] == a[n + 1..] + b;
      if a[..n] == "SID" && a[n] == '(' {
        SpanInside(a[n + 1..], b, NotRParen);
        SameSlice(a, b, n + 1, n + 1 + Span(a[n + 1..], NotRParen));
      }
    }
  }

  /** The tokens of a text that lexes by itself, with a closing parenthesis and more after it. */
  lemma {:induction false} LexBefore(a: string, b: string)
    requires Lex(a).Some? && b != "" && b[0] == ')'
    ensures Lex(a + b) == Then(Lex(a).value[..|Lex(a).value| - 1], b)
    decreases |a|
  {
    hide Scan;
    if a == "" {
      assert a + b == b;
      EmptyThen(b);
    } else {
      var lexeme := Scan(a).value;
      ScanBefore(a, b);
      LexBefore(a[lexeme.size..], b);
      assert (a + b)[lexeme.size..] == a[lexeme.size..] + b;
      var rest := Lex(a[lexeme.size..]).value;
      if lexeme.Lexeme? {
        var ts := [lexeme.token] + rest;
        assert ts[..|ts| - 1] == [lexeme.token] + rest[..|rest| - 1];
        ThenThen([lexeme.token], rest[..|rest| - 1], b);
      }
    }
  }

  lemma EmptyThen(b: string)
    ensures Then([], b) == Lex(b)
  {
    if Lex(b).Some? {
      assert [] + Lex(b).value == Lex(b).value;
    }
  }

  // --- nesting of tokens -----------------------------------------------

  function Step(t: Tok): int {
    if t.kind == LParen then 1 else if t.kind == RParen then -1 else 0
  }

  /** The nesting depth at the end of `ts`, or where it says Eof, when it is `depth` before it. */
  function Net(ts: Tokens, depth: int): int {
    if ts == [] || ts[0].kind == Eof then depth else Net(ts[1..], depth + Step(ts[0]))
  }

  /** A parse uses up as many closing parentheses as opening ones. */
  lemma {:induction false} OperandNet(ts: Tokens, o: Options, depth: int)
    requires Closed(ts) && ParseOperand(ts, o).Some?
    ensures Net(ts, depth) == Net(ParseOperand(ts, o).value.1, depth)
    decreases |ts|, 0
  {
    hide Atom;
    if ts[0].kind == LBrace {
      ItemsNet(ts[1..], o, depth);
    } else {
      AtomKind(ts[0], o);
    }
  }

  lemma AtomKind(t: Tok, o: Options)
    requires Atom(t, o).Some?
    ensures t.kind != Eof && Step(t) == 0
  {
  }

  lemma {:induction false} ItemsNet(ts: Tokens, o: Options, depth: int)
    requires Closed(ts) && ParseItems(ts, o).Some?
    ensures Net(ts, depth) == Net(ParseItems(ts, o).value.1, depth)
    decreases |ts|, 1
  {
    hide ParseOperand;
    if ts[0].kind != RBrace {
      OperandNet(ts, o, depth);
      var rest := ParseOperand(ts, o).value.1;
      if rest[0].kind == Comma {
        ItemsNet(rest[1..], o, depth);
      }
    }
  }

  lemma {:induction false} TermNet(ts: Tokens, o: Options, depth: int)
    requires Closed(ts) && ParseTerm(ts, o).Some?
    ensures Net(ts, depth) == Net(ParseTerm(ts, o).value.1, depth)
    decreases |ts|, 2
  {
    hide ParseOperand, ParseOr;
    if ts[0].kind == LParen {
      OrNet(ts[1..], o, depth + 1);
    } else if ts[0].kind == Ident && PrefixKeyword(ts[0].text) {
      OperandNet(ts[1..], o, depth);
    } else {
      OperandNet(ts, o, depth);
      var rest := ParseOperand(ts, o).value.1;
      assert rest[0].kind == Rel || rest[0].kind == Ident;
      OperandNet(rest[1..], o, depth);
    }
  }

  lemma {:induction false} UnaryNet(ts: Tokens, o: Options, depth: int)
    requires Closed(ts) && ParseUnary(ts, o).Some?
    ensures Net(ts, depth) == Net(ParseUnary(ts, o).value.1, depth)
    decreases |ts|, 3
  {
    hide ParseTerm;
    if ts[0].kind == Bang {
      UnaryNet(ts[1..], o, depth);
    } else {
      TermNet(ts, o, depth);
    }
  }

  lemma {:induction false} AndRestNet(lhs: Condition, ts: Tokens, o: Options, depth: int)
    requires Closed(ts) && AndRest(lhs, ts, o).Some?
    ensures Net(ts, depth) == Net(AndRest(lhs, ts, o).value.1, depth)
    decreases |ts|, 4
  {
    hide ParseUnary;
    if ts[0].kind == AndAnd {
      UnaryNet(ts[1..], o, depth);
      var (rhs, rest) := ParseUnary(ts[1..], o).value;
      AndRestNet(And(lhs, rhs), rest, o, depth);
    }
  }

  lemma {:induction false} AndNet(ts: Tokens, o: Options, depth: int)
    requires Closed(ts) && ParseAnd(ts, o).Some?
    ensures Net(ts, depth) == Net(ParseAnd(ts, o).value.1, depth)
    decreases |ts|, 5
  {
    hide ParseUnary, AndRest;
    UnaryNet(ts, o, depth);
    var (lhs, rest) := ParseUnary(ts, o).value;
    AndRestNet(lhs, rest, o, depth);
  }

  lemma {:induction false} OrRestNet(lhs: Condition, ts: Tokens, o: Options, depth: int)
    requires Closed(ts) && OrRest(lhs, ts, o).Some?
    ensures Net(ts, depth) == Net(OrRest(lhs, ts, o).value.1, depth)
    decreases |ts|, 6
  {
    hide ParseAnd;
    if ts[0].kind == OrOr {
      AndNet(ts[1..], o, depth);
      var (rhs, rest) := ParseAnd(ts[1..], o).value;
      OrRestNet(Or(lhs, rhs), rest, o, depth);
    }
  }

  lemma {:induction false} OrNet(ts: Tokens, o: Options, depth: int)
    requires Closed(ts) && ParseOr(ts, o).Some?
    ensures Net(ts, depth) == Net(ParseOr(ts, o).value.1, depth)
    decreases |ts|, 7
  {
    hide ParseAnd, OrRest;
    AndNet(ts, o, depth);
    var (lhs, rest) := ParseAnd(ts, o).value;
    OrRestNet(lhs, rest, o, depth);
  }

  /** Every text the compiler accepts has balanced parentheses. */
  lemma ParsedTextIsBalanced(s: string, o: Options)
    requires ParseConditionText(s, o).Some?
    ensures Lex(s).Some? && Net(Lex(s).value, 0) == 0
  {
    hide ParseOr, Lex;
    OrNet(Lex(s).value, o, 0);
  }

  // --- nesting of rendered trees ---------------------------------------

  /** Tokens, none of them Eof, through which the depth stays positive. */
  predicate Above(ts: Tokens, depth: int) {
    depth >= 1 && (ts == [] || (ts[0].kind != Eof && Above(ts[1..], depth + Step(ts[0]))))
  }

  /** Tokens that stay above and come back to where they began. */
  predicate Returns(ts: Tokens, depth: int) { Above(ts, depth) && Net(ts, depth) == depth }

  lemma {:induction false} AboveAppend(a: Tokens, b: Tokens, depth: int)
    requires Above(a, depth) && Above(b, Net(a, depth))
    ensures Above(a + b, depth) && Net(a + b, depth) == Net(b, Net(a, depth))
  {
    if a == [] {
      assert a + b == b;
    } else {
      assert (a + b)[1..] == a[1..] + b;
      AboveAppend(a[1..], b, depth + Step(a[0]));
    }
  }

  lemma ReturnsAppend(a: Tokens, b: Tokens, depth: int)
    requires Returns(a, depth) && Returns(b, depth)
    ensures Returns(a + b, depth)
  {
    hide Above, Net;
    AboveAppend(a, b, depth);
  }

  lemma ReturnsOne(t: Tok, depth: int)
    requires depth >= 1 && t.kind != Eof && Step(t) == 0
    ensures Returns([t], depth)
  {
    assert [t][1..] == [];
  }

  lemma ReturnsGroup(ts: Tokens, depth: int)
    requires depth >= 1 && Returns(ts, depth + 1)
    ensures Returns([LP] + ts + [RP], depth)
  {
    assert Above([RP], depth + 1) && Net([RP], depth + 1) == depth by { assert [RP][1..] == []; }
    hide Above, Net;
    AboveAppend(ts, [RP], depth + 1);
    GroupAbove(ts + [RP], depth);
    assert [LP] + ts + [RP] == [LP] + (ts + [RP]);
  }

  lemma GroupAbove(ts: Tokens, depth: int)
    requires depth >= 1 && Above(ts, depth + 1)
    ensures Above([LP] + ts, depth) && Net([LP] + ts, depth) == Net(ts, depth + 1)
  {
    assert ([LP] + ts)[1..] == ts;
  }

  lemma {:induction false} OperandReturns(x: Operand, o: Options, depth: int)
    requires depth >= 1
    ensures Returns(OperandTokens(x, o), depth)
    decreases x, 1
  {
    hide Returns;
    match x
    case Composite(items) =>
      ReturnsOne(LB, depth);
      ReturnsOne(RB, depth);
      ItemsReturn(items, o, depth);
      ReturnsAppend([LB], ItemTokens(items, o), depth);
      ReturnsAppend([LB] + ItemTokens(items, o), [RB], depth);
    case _ =>
      ReturnsOne(AtomToken(x, o), depth);
  }

  lemma {:induction false} ItemsReturn(items: seq<Operand>, o: Options, depth: int)
    requires depth >= 1
    ensures Returns(ItemTokens(items, o), depth)
    decreases items, 0
  {
    hide OperandTokens;
    if items != [] {
      OperandReturns(items[0], o, depth);
      if |items| > 1 {
        hide Returns;
        ItemsReturn(items[1..], o, depth);
        ReturnsOne(COMMA, depth);
        ReturnsAppend(OperandTokens(items[0], o), [COMMA], depth);
        ReturnsAppend(OperandTokens(items[0], o) + [COMMA], ItemTokens(items[1..], o), depth);
      }
    }
  }

  lemma {:induction false} ConditionReturns(c: Condition, o: Options, depth: int)
    requires depth >= 1
    ensures Returns(ConditionTokens(c, o), depth)
    decreases c
  {
    hide Returns, OperandTokens;
    match c
    case Compare(op, lhs, rhs) =>
      OperandReturns(lhs, o, depth);
      OperandReturns(rhs, o, depth);
      ReturnsOne(CompareTok(op), depth);
      ReturnsAppend(OperandTokens(lhs, o), [CompareTok(op)], depth);
      ReturnsAppend(OperandTokens(lhs, o) + [CompareTok(op)], OperandTokens(rhs, o), depth);
    case Member(op, x) => WordReturns(MemberText(op), x, o, depth);
    case Exists(x) => WordReturns("Exists", x, o, depth);
    case NotExists(x) => WordReturns("Not_Exists", x, o, depth);
    case And(l, r) =>
      ConditionReturns(l, o, depth + 1);
      ConditionReturns(r, o, depth + 1);
      LogicalReturns(ConditionTokens(l, o), AND_AND, ConditionTokens(r, o), depth);
    case Or(l, r) =>
      ConditionReturns(l, o, depth + 1);
      ConditionReturns(r, o, depth + 1);
      LogicalReturns(ConditionTokens(l, o), OR_OR, ConditionTokens(r, o), depth);
    case Not(sub) =>
      ConditionReturns(sub, o, depth + 1);
      ReturnsOne(BANG, depth);
      ReturnsGroup(ConditionTokens(sub, o), depth);
      ReturnsAppend([BANG], [LP] + ConditionTokens(sub, o) + [RP], depth);
      assert [BANG, LP] + ConditionTokens(sub, o) + [RP] == [BANG] + ([LP] + ConditionTokens(sub, o) + [RP]);
  }

  lemma WordReturns(word: string, x: Operand, o: Options, depth: int)
    requires depth >= 1
    ensures Returns([ConditionLexer.Token(Ident, word)] + OperandTokens(x, o), depth)
  {
    hide Returns, OperandTokens;
    OperandReturns(x, o, depth);
    ReturnsOne(ConditionLexer.Token(Ident, word), depth);
    ReturnsAppend([ConditionLexer.Token(Ident, word)], OperandTokens(x, o), depth);
  }

  lemma LogicalReturns(a: Tokens, t: Tok, b: Tokens, depth: int)
    requires depth >= 1 && (t == AND_AND || t == OR_OR) && Returns(a, depth + 1) && Returns(b, depth + 1)
    ensures Returns([LP] + a + [RP, t, LP] + b + [RP], depth)
  {
    hide Returns;
    ReturnsGroup(a, depth);
    ReturnsGroup(b, depth);
    ReturnsOne(t, depth);
    ReturnsAppend([LP] + a + [RP], [t], depth);
    ReturnsAppend([LP] + a + [RP] + [t], [LP] + b + [RP], depth);
    assert [LP] + a + [RP, t, LP] + b + [RP] == [LP] + a + [RP] + [t] + ([LP] + b + [RP]);
  }

  /** Anywhere inside tokens that stay above, the depth is positive. */
  lemma {:induction false} StillAbove(ts: Tokens, k: nat, depth: int)
    requires Above(ts, depth) && k <= |ts|
    ensures Net(ts[..k] + [EOF], depth) >= 1
  {
    var cut := ts[..k] + [EOF];
    if k == 0 {
      assert cut[0].kind == Eof;
    } else {
      StillAbove(ts[1..], k - 1, depth + Step(ts[0]));
      assert cut[1..] == ts[1..][..k - 1] + [EOF] && cut[0] == ts[0];
    }
  }

  // --- cutting rendered text -------------------------------------------

  /** The front of a sequence that is another with something after it. */
  lemma FrontOf(a: Tokens, b: Tokens, inner: Tokens)
    requires a + b == [LP] + inner + [RP] + [EOF] && |b| >= 2 && a != []
    ensures |a| - 1 <= |inner| && a == [LP] + inner[..|a| - 1]
  {
    var whole := [LP] + inner + [RP] + [EOF];
    assert a == whole[..|a|];
    assert whole[..|a|] == [LP] + inner[..|a| - 1];
  }

  lemma LexOfOpening(p: string)
    requires p != "" && p[0] == '(' && Lex(p).Some?
    ensures |Lex(p).value| >= 2
  {
    LexPunctuation('(', p[1..]);
    assert p == ['('] + p[1..];
  }

  lemma LexOfClosing(b: string)
    requires b != "" && b[0] == ')'
    ensures Lex(b).Some? ==> |Lex(b).value| >= 2 && Lex(b).value[0] == RP
  {
    LexPunctuation(')', b[1..]);
    assert b == [')'] + b[1..];
  }

  /** Rendered text in parentheses, cut before any closing parenthesis, is no expression. */
  lemma CutFails(c: Condition, o: Options, p: string, b: string)
    requires WellFormed(o.aliases) && PrintableCondition(c)
    requires p + b == "(" + ConditionText(c, o) + ")" && p != "" && b != "" && b[0] == ')'
    ensures ParseConditionText(p, o) == None
  {
    hide Lex, ParseOr, ConditionText, ConditionTokens, PrintableCondition, WellFormed, Net, Above;
    if ParseConditionText(p, o).Some? {
      assert (p + b)[0] == p[0];
      ParsedTextIsBalanced(p, o);
      var tp := Lex(p).value;
      var inner := ConditionTokens(c, o);
      LexOfGroupedText(c, o);
      LexBefore(p, b);
      LexOfOpening(p);
      LexOfClosing(b);
      EofLast(p);
      FrontOf(tp[..|tp| - 1], Lex(b).value, inner);
      ConditionReturns(c, o, 1);
      CutNet(tp, inner);
    }
  }

  lemma CutNet(tp: Tokens, inner: Tokens)
    requires |tp| >= 2 && tp[|tp| - 1] == EOF && Above(inner, 1)
    requires |tp| - 2 <= |inner| && tp[..|tp| - 1] == [LP] + inner[..|tp| - 2]
    ensures Net(tp, 0) >= 1
  {
    StillAbove(inner, |tp| - 2, 1);
    assert tp == [LP] + (inner[..|tp| - 2] + [EOF]);
    assert tp[1..] == inner[..|tp| - 2] + [EOF];
  }

  lemma {:induction false} EofLast(s: string)
    requires Lex(s).Some?
    ensures Lex(s).value[|Lex(s).value| - 1] == EOF
    decreases |s|
  {
    hide Scan;
    if s != "" {
      EofLast(s[Scan(s).value.size..]);
    }
  }

  /** Rendered text in parentheses with one more closing parenthesis after it is no expression. */
  lemma ExtensionFails(c: Condition, o: Options, more: string)
    requires WellFormed(o.aliases) && PrintableCondition(c) && more != "" && more[0] == ')'
    ensures ParseConditionText("(" + ConditionText(c, o) + ")" + more, o) == None
  {
    hide Lex, ParseOr, ParseAnd, ParseUnary, ConditionText, ConditionTokens, PrintableCondition, WellFormed;
    var inner := ConditionTokens(c, o);
    LexOfGroupedText(c, o);
    var group := [LP] + inner + [RP];
    LexBefore("(" + ConditionText(c, o) + ")", more);
    assert (group + [EOF])[..|group| + 1 - 1] == group;
    LexOfClosing(more);
    if Lex(more).Some? {
      var rest := Lex(more).value;
      ConditionParses(c, rest, o);
      GroupParses(inner, c, rest, o);
      assert group + rest == [LP] + (inner + ([RP] + rest));
      UnaryAlone(group + rest, c, rest, o);
    }
  }
}
