/**
 The words of conditional expressions, apart from any lexer (sddl/condition.go:84-196): a text is cut into white
 space and words, each as long as it can be. The lexer accepts exactly the texts that can be cut so, and the cut is
 the only one.
 */
module ConditionLexemes {
  import opened Wrappers
  import opened ConditionLexer

  type Tok = ConditionLexer.Token

  /** White space, or a word by the token it is. */
  datatype Piece = White(c: char) | Word(t: Tok)

  function Text(p: Piece): string {
    match p
    case White(c) => [c]
    case Word(t) =>
      match t.kind
      case Str => "\"" + t.text + "\""
      case SidRef => "SID(" + t.text + ")"
      case Octet => "#" + t.text
      case _ => t.text
  }

  /** What each kind of word looks like. */
  predicate Good(p: Piece) {
    match p
    case White(c) => c == ' ' || c == '\t' || c == '\n' || c == '\r'
    case Word(t) =>
      match t.kind
      case LParen => t.text == "("
      case RParen => t.text == ")"
      case LBrace => t.text == "{"
      case RBrace => t.text == "}"
      case Comma => t.text == ","
      case AndAnd => t.text == "&&"
      case OrOr => t.text == "||"
      case Bang => t.text == "!"
      case Rel => t.text == "==" || t.text == "!=" || t.text == "<" || t.text == "<=" || t.text == ">" || t.text == ">="
      case Str => All(t.text, NotQuote)
      case SidRef => All(t.text, NotRParen)
      case Octet => All(t.text, HexChar)
      case AttrRef => t.text != "" && t.text[0] == '@' && All(t.text[1..], AttrChar)
      case Integer => t.text != "" && (t.text[0] == '-' || '0' <= t.text[0] <= '9') && All(t.text[1..], NumChar)
      case Ident => t.text != "" && IdentStart(t.text[0]) && All(t.text, IdentChar)
      case Eof => false
  }

  predicate EndsAt(rest: string, p: char -> bool) { rest == "" || !p(rest[0]) }

  predicate NotEquals(rest: string) { rest == "" || rest[0] != '=' }

  /** Where a word may end: it is as long as it can be. */
  predicate Ends(p: Piece, rest: string) {
    match p
    case White(_) => true
    case Word(t) =>
      match t.kind
      case Octet => EndsAt(rest, HexChar)
      case AttrRef => EndsAt(rest, AttrChar)
      case Integer => EndsAt(rest, NumChar)
      case Ident => EndsAt(rest, IdentChar) && (t.text == "SID" ==> rest == "" || rest[0] != '(')
      case Bang => NotEquals(rest)
      case Rel => |t.text| == 1 ==> NotEquals(rest)
      case _ => true
  }

  function LexemeOf(p: Piece): Lexeme {
    match p case White(_) => Blank(1) case Word(t) => Lexeme(t, |Text(p)|)
  }

  // --- one step --------------------------------------------------------

  lemma SpanTo(run: string, close: char, rest: string, p: char -> bool)
    requires All(run, p) && !p(close)
    ensures Span(run + [close] + rest, p) == |run|
  {
    assert run + [close] + rest == run + ([close] + rest);
    SpanOfRun(run, [close] + rest, p);
  }

  lemma QuotedIsScanned(t: Tok, rest: string)
    requires t.kind == Str && All(t.text, NotQuote)
    ensures Scan("\"" + t.text + "\"" + rest) == Some(Lexeme(t, |t.text| + 2))
  {
    var s := "\"" + t.text + "\"" + rest;
    assert s[1..] == t.text + ['"'] + rest;
    SpanTo(t.text, '"', rest, NotQuote);
    assert s[1..1 + |t.text|] == t.text;
  }

  lemma SidIsScanned(t: Tok, rest: string)
    requires t.kind == SidRef && All(t.text, NotRParen)
    ensures Scan("SID(" + t.text + ")" + rest) == Some(Lexeme(t, |t.text| + 5))
  {
    var s := "SID(" + t.text + ")" + rest;
    var tail := t.text + [')'] + rest;
    assert s == "SID" + (['('] + tail) && s[4..] == tail && s[3] == '(' && s[..3] == "SID";
    SpanOfRun("SID", ['('] + tail, IdentChar);
    SpanTo(t.text, ')', rest, NotRParen);
    assert s[4..4 + |t.text|] == t.text;
  }

  // A word of one kind runs as far as its characters do.

  lemma OctetIsScanned(t: Tok, rest: string)
    requires t.kind == Octet && All(t.text, HexChar) && EndsAt(rest, HexChar)
    ensures Scan("#" + t.text + rest) == Some(Lexeme(t, 1 + |t.text|))
  {
    var s := "#" + t.text + rest;
    assert s[1..] == t.text + rest && s[1..1 + |t.text|] == t.text;
    SpanOfRun(t.text, rest, HexChar);
  }

  lemma AttributeIsScanned(t: Tok, rest: string)
    requires t.kind == AttrRef && t.text != "" && t.text[0] == '@' && All(t.text[1..], AttrChar) && EndsAt(rest, AttrChar)
    ensures Scan(t.text + rest) == Some(Lexeme(t, |t.text|))
  {
    var s := t.text + rest;
    assert s[1..] == t.text[1..] + rest && s[..|t.text|] == t.text;
    SpanOfRun(t.text[1..], rest, AttrChar);
  }

  lemma IntegerIsScanned(t: Tok, rest: string)
    requires t.kind == Integer && Good(Word(t)) && EndsAt(rest, NumChar)
    ensures Scan(t.text + rest) == Some(Lexeme(t, |t.text|))
  {
    var s := t.text + rest;
    assert s[1..] == t.text[1..] + rest && s[..|t.text|] == t.text;
    SpanOfRun(t.text[1..], rest, NumChar);
  }

  lemma IdentIsScanned(t: Tok, rest: string)
    requires t.kind == Ident && Good(Word(t)) && Ends(Word(t), rest)
    ensures Scan(t.text + rest) == Some(Lexeme(t, |t.text|))
  {
    var s := t.text + rest;
    SpanOfRun(t.text, rest, IdentChar);
    assert s[..|t.text|] == t.text && s[0] == t.text[0];
    NotPunctuation(t.text[0]);
  }

  lemma NotPunctuation(c: char)
    requires IdentStart(c)
    ensures !Space(c) && c !in "(){},\"#@-" && !('0' <= c <= '9')
  {
  }

  lemma SymbolIsScanned(t: Tok, rest: string)
    requires t.kind in {LParen, RParen, LBrace, RBrace, Comma, AndAnd, OrOr, Bang, Rel} && Good(Word(t)) && Ends(Word(t), rest)
    ensures Scan(t.text + rest) == Some(Lexeme(t, |t.text|))
  {
    var s := t.text + rest;
    assert s[..|t.text|] == t.text && s[0] == t.text[0];
    if |t.text| == 1 {
      assert |s| > 1 ==> s[1] == rest[0];
    } else {
      assert s[1] == t.text[1];
    }
  }

  lemma PieceIsScanned(p: Piece, rest: string)
    requires Good(p) && Ends(p, rest)
    ensures Text(p) != "" && Scan(Text(p) + rest) == Some(LexemeOf(p))
  {
    hide Scan;
    match p {
      case White(c) => BlankIsScanned(c, rest);
      case Word(t) =>
        match t.kind {
          case Str => QuotedIsScanned(t, rest);
          case SidRef => SidIsScanned(t, rest);
          case Octet => OctetIsScanned(t, rest);
          case AttrRef => AttributeIsScanned(t, rest);
          case Integer => IntegerIsScanned(t, rest);
          case Ident => IdentIsScanned(t, rest);
          case _ => SymbolIsScanned(t, rest);
        }
    }
  }

  lemma BlankIsScanned(c: char, rest: string)
    requires Good(White(c))
    ensures Scan([c] + rest) == Some(Blank(1))
  {
  }

  // --- and nothing else is ---------------------------------------------

  /** A piece at the front of a text, as long as it can be. */
  predicate Fronts(p: Piece, s: string) {
    |Text(p)| <= |s| && s[..|Text(p)|] == Text(p) && Good(p) && Ends(p, s[|Text(p)|..])
  }

  lemma ScannedIsPiece(s: string) returns (p: Piece)
    requires s != "" && Scan(s).Some?
    ensures Fronts(p, s) && Scan(s) == Some(LexemeOf(p)) && |Text(p)| == Scan(s).value.size
  {
    var c := s[0];
    if Space(c) {
      p := White(c);
      assert s[..1] == [c];
    } else {
      p := Word(Scan(s).value.token);
      if c == '"' {
        ScannedString(s);
      } else if c == '#' {
        ScannedOctet(s);
      } else if c == '@' {
        ScannedAttribute(s);
      } else if c == '-' || '0' <= c <= '9' {
        ScannedInteger(s);
      } else if IdentStart(c) {
        ScannedWord(s);
      } else {
        ScannedSymbol(s);
      }
    }
  }

  lemma ScannedString(s: string)
    requires s != "" && s[0] == '"' && Scan(s).Some?
    ensures Scan(s).value.Lexeme? && Fronts(Word(Scan(s).value.token), s)
    ensures |Text(Word(Scan(s).value.token))| == Scan(s).value.size
  {
    var k := Span(s[1..], NotQuote);
    assert s[1..][..k] == s[1..1 + k] && s[1..][k] == s[1 + k];
    assert s[..k + 2] == "\"" + s[1..1 + k] + "\"";
  }

  /** The longest run after a first character. */
  lemma RunAfter(s: string, p: char -> bool)
    requires s != ""
    ensures var k := Span(s[1..], p);
            && s[..1 + k] == [s[0]] + s[1..1 + k] && s[..1 + k][1..] == s[1..1 + k] && All(s[1..1 + k], p)
            && EndsAt(s[1 + k..], p)
  {
    var k := Span(s[1..], p);
    assert s[1..][..k] == s[1..1 + k];
    assert k < |s[1..]| ==> s[1 + k..][0] == s[1..][k];
  }

  lemma ScannedOctet(s: string)
    requires s != "" && s[0] == '#'
    ensures Scan(s).Some? && Scan(s).value.Lexeme? && Fronts(Word(Scan(s).value.token), s)
    ensures |Text(Word(Scan(s).value.token))| == Scan(s).value.size
  {
    RunAfter(s, HexChar);
  }

  lemma ScannedAttribute(s: string)
    requires s != "" && s[0] == '@'
    ensures Scan(s).Some? && Scan(s).value.Lexeme? && Fronts(Word(Scan(s).value.token), s)
    ensures |Text(Word(Scan(s).value.token))| == Scan(s).value.size
  {
    RunAfter(s, AttrChar);
  }

  lemma ScannedInteger(s: string)
    requires s != "" && (s[0] == '-' || '0' <= s[0] <= '9')
    ensures Scan(s).Some? && Scan(s).value.Lexeme? && Fronts(Word(Scan(s).value.token), s)
    ensures |Text(Word(Scan(s).value.token))| == Scan(s).value.size
  {
    RunAfter(s, NumChar);
  }

  lemma ScannedWord(s: string)
    requires s != "" && IdentStart(s[0]) && Scan(s).Some?
    ensures Scan(s).value.Lexeme? && Fronts(Word(Scan(s).value.token), s)
    ensures |Text(Word(Scan(s).value.token))| == Scan(s).value.size
  {
    NotPunctuation(s[0]);
    var n := Span(s, IdentChar);
    assert Scan(s) == ScanWord(s);
    hide Scan;
    if s[..n] == "SID" && n < |s| && s[n] == '(' {
      ScannedSid(s);
    } else {
      FirstOfSpan(s);
      assert Scan(s) == Some(Lexeme(ConditionLexer.Token(Ident, s[..n]), n));
      assert n < |s| ==> s[n..][0] == s[n];
    }
  }

  lemma ScannedSid(s: string)
    requires |s| > 3 && s[..3] == "SID" && Span(s, IdentChar) == 3 && s[3] == '(' && IdentStart(s[0]) && ScanWord(s).Some?
    ensures ScanWord(s).value.Lexeme? && Fronts(Word(ScanWord(s).value.token), s)
    ensures |Text(Word(ScanWord(s).value.token))| == ScanWord(s).value.size
  {
    var k := Span(s[4..], NotRParen);
    assert s[4..][..k] == s[4..4 + k] && s[4..][k] == s[4 + k];
    assert s[..k + 5] == s[..3] + [s[3]] + s[4..4 + k] + [s[4 + k]];
    assert "SID" + "(" == "SID(";
  }

  lemma FirstOfSpan(s: string)
    requires s != "" && IdentStart(s[0])
    ensures Span(s, IdentChar) > 0 && s[..Span(s, IdentChar)][0] == s[0]
  {
  }

  lemma ScannedSymbol(s: string)
    requires s != "" && Scan(s).Some? && !Space(s[0]) && s[0] !in "\"#@-" && !('0' <= s[0] <= '9') && !IdentStart(s[0])
    ensures Scan(s).value.Lexeme? && Fronts(Word(Scan(s).value.token), s)
    ensures |Text(Word(Scan(s).value.token))| == Scan(s).value.size
  {
    var n := Scan(s).value.size;
    if n == 1 {
      assert s[..1] == [s[0]];
      assert |s| > 1 ==> s[1..][0] == s[1];
    } else {
      assert s[..2] == [s[0], s[1]];
    }
  }

  // --- whole texts -----------------------------------------------------

  /** A cut of a text: good pieces, each ending where it may. */
  predicate Cut(ps: seq<Piece>, s: string) {
    if ps == [] then s == "" else Fronts(ps[0], s) && Cut(ps[1..], s[|Text(ps[0])|..])
  }

  /** The tokens of a cut: white space is none. */
  function Tokens(ps: seq<Piece>): seq<Tok> {
    if ps == [] then [EOF] else if ps[0].White? then Tokens(ps[1..]) else [ps[0].t] + Tokens(ps[1..])
  }

  lemma {:induction false} CutIsLexed(ps: seq<Piece>, s: string)
    requires Cut(ps, s)
    ensures Lex(s) == Some(Tokens(ps))
    decreases |ps|
  {
    hide Scan, Good, Ends, Text;
    if ps != [] {
      var n := |Text(ps[0])|;
      assert s == s[..n] + s[n..];
      PieceIsScanned(ps[0], s[n..]);
      CutIsLexed(ps[1..], s[n..]);
      SizeOfPiece(ps[0]);
    }
  }

  lemma SizeOfPiece(p: Piece)
    ensures LexemeOf(p).size == |Text(p)|
  {
  }

  lemma {:induction false} LexedIsCut(s: string) returns (ps: seq<Piece>)
    requires Lex(s).Some?
    ensures Cut(ps, s) && Lex(s) == Some(Tokens(ps))
    decreases |s|
  {
    hide Scan, Good, Ends, Text;
    ps := [];
    if s != "" {
      var p := ScannedIsPiece(s);
      var rest := LexedIsCut(s[Scan(s).value.size..]);
      ps := [p] + rest;
      assert ps[1..] == rest;
    }
  }

  ghost predicate CutsInto(ps: seq<Piece>, s: string, ts: seq<Tok>) {
    Cut(ps, s) && Tokens(ps) == ts
  }

  /** The lexer is the cut: a text has these tokens if and only if it can be cut into pieces with them. */
  lemma LexerIsCut(s: string, ts: seq<Tok>)
    ensures Lex(s) == Some(ts) <==> exists ps: seq<Piece> :: CutsInto(ps, s, ts)
  {
    hide Lex, Cut, Tokens;
    if Lex(s) == Some(ts) {
      var ps := LexedIsCut(s);
      assert CutsInto(ps, s, ts);
    }
    forall ps: seq<Piece> | CutsInto(ps, s, ts)
      ensures Lex(s) == Some(ts)
    {
      CutIsLexed(ps, s);
    }
  }
}
