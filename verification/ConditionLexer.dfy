/**
 The tokens of conditional-expression text (sddl/condition.go; section 2.5.1.2 of MS-DTYP). Text is the
 sequence of scalar values a Go string ranges over: every character the lexer tests is ASCII, so it
 makes the same choices on scalars as on UTF-8 bytes, and a byte that is not UTF-8 ranges as U+FFFD.
 */
module ConditionLexer {
  import opened Wrappers

  datatype Kind =
    | Eof | LParen | RParen | LBrace | RBrace | Comma | AndAnd | OrOr | Bang
    | Rel | Ident | AttrRef | Integer | Str | SidRef | Octet

  datatype Token = Token(kind: Kind, text: string)

  const EOF := Token(Eof, "")

  predicate IdentStart(c: char) { 'A' <= c <= 'Z' || 'a' <= c <= 'z' || c == '_' }

  predicate IdentChar(c: char) { IdentStart(c) || '0' <= c <= '9' }

  predicate AttrChar(c: char) { IdentChar(c) || c == '.' }

  predicate NumChar(c: char) { '0' <= c <= '9' || 'a' <= c <= 'f' || 'A' <= c <= 'F' || c == 'x' || c == 'X' }

  predicate HexChar(c: char) { '0' <= c <= '9' || 'a' <= c <= 'f' || 'A' <= c <= 'F' }

  predicate NotQuote(c: char) { c != '"' }

  predicate NotRParen(c: char) { c != ')' }

  predicate Space(c: char) { c == ' ' || c == '\t' || c == '\n' || c == '\r' }

  predicate All(s: string, p: char -> bool) {
    forall i :: 0 <= i < |s| ==> p(s[i])
  }

  /** The length of the longest prefix of `s` whose characters all satisfy `p`. */
  function Span(s: string, p: char -> bool): (n: nat)
    ensures n <= |s| && All(s[..(n)], p)
    ensures n < |s| ==> !p(s[n])
  {
    if s == "" || !p(s[0]) then 0 else 1 + Span(s[1..], p)
  }

  lemma {:induction false} SpanOfRun(run: string, rest: string, p: char -> bool)
    requires All(run, p)
    requires rest == "" || !p(rest[0])
    ensures Span(run + rest, p) == |run|
  {
    if run == "" {
      assert run + rest == rest;
    } else {
      assert (run + rest)[1..] == run[1..] + rest;
      SpanOfRun(run[1..], rest, p);
    }
  }

  /** What the lexer makes of the head of its input: nothing (white space) or a token, and how far it moves. */
  datatype Lexeme = Blank(size: nat) | Lexeme(token: Token, size: nat)

  function Word(kind: Kind, s: string, size: nat): Lexeme
    requires size <= |s|
  {
    Lexeme(Token(kind, s[..size]), size)
  }

  /** An identifier, or a whole SID(...) reference. */
  function ScanWord(s: string): (r: Option<Lexeme>)
    requires s != "" && IdentStart(s[0])
    ensures r.Some? ==> 0 < r.value.size <= |s|
  {
    var n := Span(s, IdentChar);
    if s[..n] == "SID" && n < |s| && s[n] == '(' then
      var k := Span(s[n + 1..], NotRParen);
      if n + 1 + k >= |s| then None
      else Some(Lexeme(Token(SidRef, s[n + 1..n + 1 + k]), n + k + 2))
    else Some(Word(Ident, s, n))
  }

  function ScanString(s: string): (r: Option<Lexeme>)
    requires s != "" && s[0] == '"'
    ensures r.Some? ==> 0 < r.value.size <= |s|
  {
    var k := Span(s[1..], NotQuote);
    if 1 + k >= |s| then None else Some(Lexeme(Token(Str, s[1..1 + k]), k + 2))
  }

  /** An operator of one or two characters; a lone '&', '|' or '=' is an error. */
  function ScanSymbol(s: string): (r: Option<Lexeme>)
    requires s != ""
    ensures r.Some? ==> 0 < r.value.size <= |s|
  {
    var c := s[0];
    var second := |s| > 1 && s[1] == (if c == '&' || c == '|' then c else '=');
    if c == '&' then if second then Some(Word(AndAnd, s, 2)) else None
    else if c == '|' then if second then Some(Word(OrOr, s, 2)) else None
    else if c == '!' then if second then Some(Word(Rel, s, 2)) else Some(Word(Bang, s, 1))
    else if c == '=' then if second then Some(Word(Rel, s, 2)) else None
    else if c == '<' || c == '>' then if second then Some(Word(Rel, s, 2)) else Some(Word(Rel, s, 1))
    else None
  }

  /** One step of the lexer; None is a lexical error. */
  function Scan(s: string): (r: Option<Lexeme>)
    requires s != ""
    ensures r.Some? ==> 0 < r.value.size <= |s|
  {
    var c := s[0];
    if Space(c) then Some(Blank(1))
    else if c == '(' then Some(Word(LParen, s, 1))
    else if c == ')' then Some(Word(RParen, s, 1))
    else if c == '{' then Some(Word(LBrace, s, 1))
    else if c == '}' then Some(Word(RBrace, s, 1))
    else if c == ',' then Some(Word(Comma, s, 1))
    else if c == '"' then ScanString(s)
    else if c == '#' then
      var k := Span(s[1..], HexChar);
      Some(Lexeme(Token(Octet, s[1..1 + k]), 1 + k))
    else if c == '@' then Some(Word(AttrRef, s, 1 + Span(s[1..], AttrChar)))
    else if c == '-' || '0' <= c <= '9' then Some(Word(Integer, s, 1 + Span(s[1..], NumChar)))
    else if IdentStart(c) then ScanWord(s)
    else ScanSymbol(s)
  }

  /** Every token of `s`, closed by Eof; None when the text has a lexical error. */
  function Lex(s: string): (ts: Option<seq<Token>>)
    ensures ts.Some? ==> |ts.value| > 0 && ts.value[|ts.value| - 1].kind == Eof
    decreases |s|
  {
    if s == "" then Some([EOF])
    else
      var lexeme :- Scan(s);
      var rest :- Lex(s[lexeme.size..]);
      Some(if lexeme.Blank? then rest else [lexeme.token] + rest)
  }

  /** The tokens `ts` followed by the tokens of `rest`. */
  function Then(ts: seq<Token>, rest: string): Option<seq<Token>> {
    match Lex(rest) case None => None case Some(more) => Some(ts + more)
  }

  /** lexCondition: one pass that appends tokens as it advances. */
  method LexCondition(s: string) returns (r: Option<seq<Token>>)
    ensures r == Lex(s)
  {
    hide Lex, Scan, Then;
    var toks: seq<Token> := [];
    var i := 0;
    LexStart(s);
    while i < |s|
      invariant i <= |s|
      invariant Lex(s) == Then(toks, s[i..])
      decreases |s| - i
    {
      var lexeme := ScanAt(s, i);
      LexStep(s, i, toks);
      if lexeme.None? {
        return None;
      }
      if lexeme.value.Lexeme? {
        toks := toks + [lexeme.value.token];
      }
      i := i + lexeme.value.size;
    }
    assert s[i..] == "";
    LexEnd(toks);
    r := Some(toks + [EOF]);
  }

  lemma LexStart(s: string)
    ensures Then([], s[0..]) == Lex(s)
  {
    assert s[0..] == s;
    if Lex(s).Some? {
      assert [] + Lex(s).value == Lex(s).value;
    }
  }

  lemma LexEnd(toks: seq<Token>)
    ensures Then(toks, "") == Some(toks + [EOF])
  {
  }

  lemma LexStep(s: string, i: nat, toks: seq<Token>)
    requires i < |s|
    ensures Then(toks, s[i..]) ==
            match Scan(s[i..])
            case None => None
            case Some(Blank(n)) => Then(toks, s[i + n..])
            case Some(Lexeme(t, n)) => Then(toks + [t], s[i + n..])
  {
    var scanned := Scan(s[i..]);
    if scanned.Some? {
      var n := scanned.value.size;
      assert s[i..][n..] == s[i + n..];
      var next := Lex(s[i + n..]);
      if scanned.value.Lexeme? && next.Some? {
        assert toks + ([scanned.value.token] + next.value) == toks + [scanned.value.token] + next.value;
      }
    }
  }

  /** The scan loops of lexCondition: the end of the run of `p` characters from `from`. */
  method RunEnd(s: string, from: nat, p: char -> bool) returns (j: nat)
    requires from <= |s|
    ensures j == from + Span(s[from..], p) && j <= |s|
  {
    j := from;
    while j < |s| && p(s[j])
      invariant from <= j <= |s|
      invariant Span(s[from..], p) == j - from + Span(s[j..], p)
    {
      assert s[j..][1..] == s[j + 1..];
      j := j + 1;
    }
  }

  /** The token at offset `i`: the switch of lexCondition. */
  method ScanAt(s: string, i: nat) returns (r: Option<Lexeme>)
    requires i < |s|
    ensures r == Scan(s[i..])
  {
    hide Span, ScanWord, ScanSymbol;
    var c := s[i];
    assert s[i..][1..] == s[i + 1..] && s[i..][..1] == s[i..i + 1];
    if Space(c) {
      r := Some(Blank(1));
    } else if c == '"' {
      var j := RunEnd(s, i + 1, NotQuote);
      if j >= |s| {
        return None;
      }
      assert s[i..][1..j - i] == s[i + 1..j];
      r := Some(Lexeme(Token(Str, s[i + 1..j]), j + 1 - i));
    } else if c == '#' {
      var j := RunEnd(s, i + 1, HexChar);
      assert s[i..][1..j - i] == s[i + 1..j];
      r := Some(Lexeme(Token(Octet, s[i + 1..j]), j - i));
    } else if c == '@' {
      var j := RunEnd(s, i + 1, AttrChar);
      assert s[i..][..j - i] == s[i..j];
      r := Some(Lexeme(Token(AttrRef, s[i..j]), j - i));
    } else if c == '-' || '0' <= c <= '9' {
      var j := RunEnd(s, i + 1, NumChar);
      assert s[i..][..j - i] == s[i..j];
      r := Some(Lexeme(Token(Integer, s[i..j]), j - i));
    } else if IdentStart(c) {
      r := ScanWordAt(s, i);
    } else if c == '(' {
      r := Some(Lexeme(Token(LParen, s[i..i + 1]), 1));
    } else if c == ')' {
      r := Some(Lexeme(Token(RParen, s[i..i + 1]), 1));
    } else if c == '{' {
      r := Some(Lexeme(Token(LBrace, s[i..i + 1]), 1));
    } else if c == '}' {
      r := Some(Lexeme(Token(RBrace, s[i..i + 1]), 1));
    } else if c == ',' {
      r := Some(Lexeme(Token(Comma, s[i..i + 1]), 1));
    } else {
      r := ScanSymbolAt(s, i);
    }
  }

  method ScanSymbolAt(s: string, i: nat) returns (r: Option<Lexeme>)
    requires i < |s|
    ensures r == ScanSymbol(s[i..])
  {
    var c := s[i];
    assert i + 1 < |s| ==> s[i..][..2] == s[i..i + 2];
    assert s[i..][..1] == s[i..i + 1];
    if c == '&' {
      if i + 1 >= |s| || s[i + 1] != '&' {
        return None;
      }
      r := Some(Lexeme(Token(AndAnd, s[i..i + 2]), 2));
    } else if c == '|' {
      if i + 1 >= |s| || s[i + 1] != '|' {
        return None;
      }
      r := Some(Lexeme(Token(OrOr, s[i..i + 2]), 2));
    } else if c == '!' {
      if i + 1 < |s| && s[i + 1] == '=' {
        r := Some(Lexeme(Token(Rel, s[i..i + 2]), 2));
      } else {
        r := Some(Lexeme(Token(Bang, s[i..i + 1]), 1));
      }
    } else if c == '=' {
      if i + 1 >= |s| || s[i + 1] != '=' {
        return None;
      }
      r := Some(Lexeme(Token(Rel, s[i..i + 2]), 2));
    } else if c == '<' || c == '>' {
      if i + 1 < |s| && s[i + 1] == '=' {
        r := Some(Lexeme(Token(Rel, s[i..i + 2]), 2));
      } else {
        r := Some(Lexeme(Token(Rel, s[i..i + 1]), 1));
      }
    } else {
      r := None;
    }
  }

  method ScanWordAt(s: string, i: nat) returns (r: Option<Lexeme>)
    requires i < |s| && IdentStart(s[i])
    ensures r == ScanWord(s[i..])
  {
    var j := RunEnd(s, i, IdentChar);
    var word := s[i..j];
    assert s[i..][..j - i] == word;
    if word == "SID" && j < |s| && s[j] == '(' {
      var k := RunEnd(s, j + 1, NotRParen);
      assert s[i..][j - i + 1..] == s[j + 1..];
      if k >= |s| {
        return None;
      }
      assert s[i..][j - i + 1..k - i] == s[j + 1..k];
      r := Some(Lexeme(Token(SidRef, s[j + 1..k]), k + 1 - i));
    } else {
      r := Some(Lexeme(Token(Ident, word), j - i));
    }
  }

  // --- what the lexer guarantees of its tokens ------------------------

  predicate Identifier(s: string) {
    s != "" && IdentStart(s[0]) && All(s, IdentChar)
  }

  /** An identifier token names an identifier, a string has no quote, an attribute only attribute characters. */
  predicate TokenShape(t: Token) {
    match t.kind
    case Ident => Identifier(t.text)
    case Str => All(t.text, NotQuote)
    case AttrRef => t.text != "" && All(t.text[1..], AttrChar)
    case _ => true
  }

  predicate TokenShapes(ts: seq<Token>) {
    forall i :: 0 <= i < |ts| ==> TokenShape(ts[i])
  }

  lemma ScanShape(s: string)
    requires s != "" && Scan(s).Some? && Scan(s).value.Lexeme?
    ensures TokenShape(Scan(s).value.token)
  {
    if s[0] == '@' {
      var k := Span(s[1..], AttrChar);
      assert s[..1 + k][1..] == s[1..][..k];
    } else if s[0] == '"' {
      var k := Span(s[1..], NotQuote);
      assert s[1..1 + k] == s[1..][..k];
    }
  }

  lemma {:induction false} LexShapes(s: string)
    requires Lex(s).Some?
    ensures TokenShapes(Lex(s).value)
    decreases |s|
  {
    if s != "" {
      var lexeme := Scan(s).value;
      LexShapes(s[lexeme.size..]);
      if lexeme.Lexeme? {
        ScanShape(s);
      }
    }
  }

  // --- lexing a known head --------------------------------------------

  lemma LexHead(head: string, rest: string, t: Token)
    requires head != "" && Scan(head + rest) == Some(Lexeme(t, |head|))
    ensures Lex(head + rest) == Then([t], rest)
  {
    assert (head + rest)[|head|..] == rest;
  }

  lemma LexBlank(rest: string)
    ensures Lex(" " + rest) == Lex(rest)
  {
    assert (" " + rest)[1..] == rest;
  }

  lemma LexPunctuation(c: char, rest: string)
    requires c in "(){},"
    ensures Lex([c] + rest) == Then([Token(match c case '(' => LParen case ')' => RParen case '{' => LBrace
                                           case '}' => RBrace case _ => Comma, [c])], rest)
  {
    assert ([c] + rest)[..1] == [c] && ([c] + rest)[1..] == rest;
  }

  lemma ThenThen(a: seq<Token>, b: seq<Token>, rest: string)
    ensures match Then(b, rest) case None => Then(a + b, rest) == None
                                case Some(more) => Then(a + b, rest) == Some(a + more)
  {
    match Lex(rest) {
      case None =>
      case Some(more) => assert a + (b + more) == a + b + more;
    }
  }
}
