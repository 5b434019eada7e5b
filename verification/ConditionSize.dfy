/** How long compiled conditions get: at most 16 bytes for a character, so that the round trip needs no more than short text. */
module ConditionSize {
  import opened Wrappers
  import opened Bytes
  import opened Sid
  import opened Utf16
  import opened Aliases
  import opened Numerals
  import opened Conditions
  import opened ConditionLexer
  import opened ConditionParser
  import opened ConditionRoundTrip
  import Decompiler

  // --- code that is short fits -----------------------------------------

  /** An operand whose code is under 2^32 bytes has no length that outgrows its field. */
  lemma {:induction false} ShortOperandFits(x: Operand)
    requires Printable(x) && |OperandCode(x)| < TWO_32
    ensures Fits(x)
    decreases x, 1
  {
    hide Utf16le, Encoded;
    if x.Composite? {
      ShortItemsFit(x.items);
    }
  }

  lemma {:induction false} ShortItemsFit(items: seq<Operand>)
    requires AllPrintable(items) && |ItemsCode(items)| < TWO_32
    ensures AllFit(items)
    decreases items, 0
  {
    hide Printable, OperandCode, Fits;
    if items != [] {
      ShortOperandFits(items[0]);
      ShortItemsFit(items[1..]);
    }
  }

  lemma {:induction false} ShortConditionFits(c: Condition)
    requires PrintableCondition(c) && |Code(c)| < TWO_32
    ensures ConditionFits(c)
    decreases c
  {
    hide Printable, OperandCode, Fits;
    match c
    case Compare(_, lhs, rhs) =>
      ShortOperandFits(lhs);
      ShortOperandFits(rhs);
    case Member(_, x) => ShortOperandFits(x);
    case Exists(x) => ShortOperandFits(x);
    case NotExists(x) => ShortOperandFits(x);
    case And(l, r) =>
      ShortConditionFits(l);
      ShortConditionFits(r);
    case Or(l, r) =>
      ShortConditionFits(l);
      ShortConditionFits(r);
    case Not(sub) => ShortConditionFits(sub);
  }

  // --- characters to bytes ---------------------------------------------

  /** The characters a token takes, delimiters included. */
  function Cost(t: Tok): nat {
    match t.kind
    case Eof => 0
    case Str => |t.text| + 2
    case SidRef => |t.text| + 5
    case Octet => |t.text| + 1
    case Ident => |t.text|
    case AttrRef => |t.text|
    case Integer => |t.text|
    case _ => 1
  }

  function Sum(ts: Tokens): nat {
    if ts == [] then 0 else Cost(ts[0]) + Sum(ts[1..])
  }

  lemma ScanCost(s: string)
    requires s != "" && Scan(s).Some? && Scan(s).value.Lexeme?
    ensures Cost(Scan(s).value.token) <= Scan(s).value.size
  {
    hide Span;
    if IdentStart(s[0]) {
      WordCost(s);
    }
  }

  lemma WordCost(s: string)
    requires s != "" && IdentStart(s[0]) && ScanWord(s).Some?
    ensures ScanWord(s).value.Lexeme? && Cost(ScanWord(s).value.token) <= ScanWord(s).value.size
  {
    hide Span;
    var n := Span(s, IdentChar);
    if s[..n] == "SID" {
      assert |s[..n]| == 3;
    }
  }

  lemma {:induction false} LexCost(s: string)
    requires Lex(s).Some?
    ensures Sum(Lex(s).value) <= |s|
    decreases |s|
  {
    hide Scan, Cost;
    if s != "" {
      var lexeme := Scan(s).value;
      LexCost(s[lexeme.size..]);
      if lexeme.Lexeme? {
        ScanCost(s);
        var rest := Lex(s[lexeme.size..]).value;
        assert ([lexeme.token] + rest)[1..] == rest;
      }
    } else {
      EofCost();
    }
  }

  lemma EofCost()
    ensures Sum([EOF]) == 0
  {
    assert [EOF][1..] == [];
  }

  lemma {:induction false} UnitsBound(s: string)
    ensures |Utf16.Encode(s)| <= 2 * |s|
  {
    if s != "" {
      UnitsBound(s[1..]);
    }
  }

  lemma {:induction false} HexBound(s: string)
    requires HexDecode(s).Some?
    ensures 2 * |HexDecode(s).value| == |s|
  {
    if |s| >= 2 {
      HexBound(s[2..]);
    }
  }

  lemma AtomSize(t: Tok, o: Options)
    requires WellFormed(o.aliases) && TokenShape(t) && Atom(t, o).Some?
    ensures |OperandCode(Atom(t, o).value)| <= 16 * Cost(t)
  {
    hide Span, ParseSidText, ParseInt0, HexDecode, WellFormed;
    match t.kind {
      case Str => UnitsBound(t.text);
      case Ident => UnitsBound(t.text);
      case Octet => HexBound(t.text);
      case AttrRef => AttributeSize(t.text);
      case SidRef =>
      case Integer => NoEmptyInteger();
      case _ =>
    }
  }

  lemma NoEmptyInteger()
    ensures ParseInt0("") == None
  {
  }

  lemma AttributeSize(text: string)
    requires text != "" && AttrOperand(text).Some?
    ensures |OperandCode(AttrOperand(text).value)| <= 16 * |text|
  {
    hide Span;
    var name := AttrOperand(text).value.name;
    UnitsBound(name);
  }

  // --- trees -----------------------------------------------------------

  /** `size` bytes for the tokens of `ts` that are not in `rest`. */
  predicate Paid(size: nat, ts: Tokens, rest: Tokens) {
    Sum(rest) <= Sum(ts) && size <= 16 * (Sum(ts) - Sum(rest))
  }

  lemma {:induction false} OperandSize(ts: Tokens, o: Options)
    requires WellFormed(o.aliases) && Closed(ts) && TokenShapes(ts) && ParseOperand(ts, o).Some?
    ensures Paid(|OperandCode(ParseOperand(ts, o).value.0)|, ts, ParseOperand(ts, o).value.1)
    decreases |ts|, 0
  {
    if ts[0].kind == LBrace {
      ItemsSize(ts[1..], o);
      hide Cost;
      assert Cost(ts[0]) == 1 by { BraceCost(ts[0]); }
    } else {
      AtomSize(ts[0], o);
      hide Atom, OperandCode, Cost;
    }
  }

  lemma BraceCost(t: Tok)
    requires t.kind == LBrace || t.kind == RBrace || t.kind == Comma || t.kind == LParen || t.kind == RParen || t.kind == Bang
             || t.kind == AndAnd || t.kind == OrOr || t.kind == Rel
    ensures Cost(t) == 1
  {
  }

  lemma {:induction false} ItemsSize(ts: Tokens, o: Options)
    requires WellFormed(o.aliases) && Closed(ts) && TokenShapes(ts) && ParseItems(ts, o).Some?
    ensures Paid(|ItemsCode(ParseItems(ts, o).value.0)|, ts, ParseItems(ts, o).value.1)
    decreases |ts|, 1
  {
    hide ParseOperand, TokenShape, Cost, OperandCode;
    if ts[0].kind != RBrace {
      OperandSize(ts, o);
      ParsedOperandIsPrintable(ts, o);
      var (item, rest) := ParseOperand(ts, o).value;
      if rest[0].kind == Comma {
        ItemsSize(rest[1..], o);
        ItemsHead(item, ParseItems(rest[1..], o).value.0);
      } else {
        ItemsHead(item, []);
        assert [item] + [] == [item];
      }
    }
  }

  lemma ItemsHead(item: Operand, items: seq<Operand>)
    ensures |ItemsCode([item] + items)| == |OperandCode(item)| + |ItemsCode(items)|
    ensures ItemsCode([]) == []
  {
    hide OperandCode;
    assert ([item] + items)[1..] == items;
  }

  lemma {:induction false} TermSize(ts: Tokens, o: Options)
    requires WellFormed(o.aliases) && Closed(ts) && TokenShapes(ts) && ParseTerm(ts, o).Some?
    ensures Paid(|Code(ParseTerm(ts, o).value.0)|, ts, ParseTerm(ts, o).value.1)
    decreases |ts|, 2
  {
    hide ParseOr, ParseOperand, TokenShape, OperandCode, Cost;
    if ts[0].kind == LParen {
      OrSize(ts[1..], o);
    } else if ts[0].kind == Ident && PrefixKeyword(ts[0].text) {
      WordHasCost(ts[0]);
      OperandSize(ts[1..], o);
    } else {
      OperandSize(ts, o);
      ParsedOperandIsPrintable(ts, o);
      var rest := ParseOperand(ts, o).value.1;
      OperatorHasCost(rest[0]);
      OperandSize(rest[1..], o);
    }
  }

  lemma WordHasCost(t: Tok)
    requires t.kind == Ident && TokenShape(t)
    ensures Cost(t) >= 1
  {
  }

  lemma OperatorHasCost(t: Tok)
    requires RelOp(t).Some? && TokenShape(t)
    ensures Cost(t) >= 1
  {
  }

  lemma {:induction false} UnarySize(ts: Tokens, o: Options)
    requires WellFormed(o.aliases) && Closed(ts) && TokenShapes(ts) && ParseUnary(ts, o).Some?
    ensures Paid(|Code(ParseUnary(ts, o).value.0)|, ts, ParseUnary(ts, o).value.1)
    decreases |ts|, 3
  {
    hide ParseTerm, TokenShape, Cost;
    if ts[0].kind == Bang {
      BraceCost(ts[0]);
      UnarySize(ts[1..], o);
    } else {
      TermSize(ts, o);
    }
  }

  lemma {:induction false} AndRestSize(lhs: Condition, whole: Tokens, ts: Tokens, o: Options)
    requires WellFormed(o.aliases) && Closed(ts) && TokenShapes(ts) && AndRest(lhs, ts, o).Some?
    requires Paid(|Code(lhs)|, whole, ts)
    ensures Paid(|Code(AndRest(lhs, ts, o).value.0)|, whole, AndRest(lhs, ts, o).value.1)
    decreases |ts|, 4
  {
    hide ParseUnary, TokenShape, Cost;
    if ts[0].kind == AndAnd {
      BraceCost(ts[0]);
      UnarySize(ts[1..], o);
      ParsedUnaryIsPrintable(ts[1..], o);
      var (rhs, rest) := ParseUnary(ts[1..], o).value;
      AndRestSize(And(lhs, rhs), whole, rest, o);
    }
  }

  lemma {:induction false} AndSize(ts: Tokens, o: Options)
    requires WellFormed(o.aliases) && Closed(ts) && TokenShapes(ts) && ParseAnd(ts, o).Some?
    ensures Paid(|Code(ParseAnd(ts, o).value.0)|, ts, ParseAnd(ts, o).value.1)
    decreases |ts|, 5
  {
    hide ParseUnary, AndRest, TokenShape, Paid, Code;
    UnarySize(ts, o);
    ParsedUnaryIsPrintable(ts, o);
    var (lhs, rest) := ParseUnary(ts, o).value;
    AndRestSize(lhs, ts, rest, o);
  }

  lemma {:induction false} OrRestSize(lhs: Condition, whole: Tokens, ts: Tokens, o: Options)
    requires WellFormed(o.aliases) && Closed(ts) && TokenShapes(ts) && OrRest(lhs, ts, o).Some?
    requires Paid(|Code(lhs)|, whole, ts)
    ensures Paid(|Code(OrRest(lhs, ts, o).value.0)|, whole, OrRest(lhs, ts, o).value.1)
    decreases |ts|, 6
  {
    hide ParseAnd, TokenShape, Cost;
    if ts[0].kind == OrOr {
      BraceCost(ts[0]);
      AndSize(ts[1..], o);
      ParsedAndIsPrintable(ts[1..], o);
      var (rhs, rest) := ParseAnd(ts[1..], o).value;
      OrRestSize(Or(lhs, rhs), whole, rest, o);
    }
  }

  lemma {:induction false} OrSize(ts: Tokens, o: Options)
    requires WellFormed(o.aliases) && Closed(ts) && TokenShapes(ts) && ParseOr(ts, o).Some?
    ensures Paid(|Code(ParseOr(ts, o).value.0)|, ts, ParseOr(ts, o).value.1)
    decreases |ts|, 7
  {
    hide ParseAnd, OrRest, TokenShape, Paid, Code;
    AndSize(ts, o);
    ParsedAndIsPrintable(ts, o);
    var (lhs, rest) := ParseAnd(ts, o).value;
    OrRestSize(lhs, ts, rest, o);
  }

  /** Compiling takes at most 16 bytes for each character of the text. */
  lemma CompiledSize(s: string, o: Options)
    requires WellFormed(o.aliases) && ParseConditionText(s, o).Some?
    ensures |Code(ParseConditionText(s, o).value)| <= 16 * |s|
  {
    hide Lex, ParseOr, Code, TokenShape, Sum, WellFormed;
    LexShapes(s);
    LexCost(s);
    OrSize(Lex(s).value, o);
  }

  /** The round trip, whenever what the text compiles to is under 2^32 bytes; text of under 2^28 characters always is. */
  lemma ShortTextRoundTrip(s: string, o: Options)
    requires WellFormed(o.aliases) && ParseConditionText(s, o).Some?
    requires |s| < 0x1000_0000 || |Code(ParseConditionText(s, o).value)| < TWO_32
    ensures var c := ParseConditionText(s, o).value;
            var body := EncodedBody(Code(c));
            && Decompiler.DecodeCondition(body, o) == Some(Decompiler.ConditionText(c, o))
            && ParseConditionText("(" + Decompiler.ConditionText(c, o) + ")", o) == Some(c)
  {
    hide ParseConditionText, Code, EncodedBody, Decompiler.DecodeCondition, Decompiler.ConditionText, ConditionFits, PrintableCondition, WellFormed;
    var c := ParseConditionText(s, o).value;
    CompiledSize(s, o);
    ParsedTextIsPrintable(s, o);
    ShortConditionFits(c);
    Decompiler.DecodeOfEncoded(c, o);
    ParseOfGroupedText(c, o);
  }
}
