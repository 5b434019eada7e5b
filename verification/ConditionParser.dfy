/**
 The recursive-descent compiler from tokens to bytecode (sddl/condition.go): `||` binds below `&&`,
 which binds below `!`. Each parsing function is given the tokens still to read and returns the tree
 it recognised with the tokens left over; CondParser is the cursor that walks them.
 */
module ConditionParser {
  import opened Wrappers
  import opened Bytes
  import opened Numerals
  import opened Aliases
  import opened Conditions
  import opened Decompiler
  import opened ConditionLexer

  type Tokens = seq<ConditionLexer.Token>

  type Parsed<T> = Option<(T, Tokens)>

  /** A token list closed by Eof, so that looking ahead is always possible. */
  predicate Closed(ts: Tokens) {
    |ts| > 0 && ts[|ts| - 1].kind == Eof
  }

  // --- vocabulary -----------------------------------------------------

  function CompareOfSymbol(text: string): (r: Option<CompareOp>)
    ensures r.Some? ==> text == CompareText(r.value)
  {
    if text == "==" then Some(Equal) else if text == "!=" then Some(NotEqual)
    else if text == "<" then Some(Less) else if text == "<=" then Some(LessEqual)
    else if text == ">" then Some(Greater) else if text == ">=" then Some(GreaterEqual)
    else None
  }

  function CompareOfKeyword(text: string): (r: Option<CompareOp>)
    ensures r.Some? ==> text == CompareText(r.value)
  {
    if text == "Contains" then Some(Contains) else if text == "Any_of" then Some(AnyOf)
    else if text == "Not_Contains" then Some(NotContains) else if text == "Not_Any_of" then Some(NotAnyOf)
    else None
  }

  function MemberOfKeyword(text: string): (r: Option<MemberOp>)
    ensures forall m :: r == Some(m) <==> text == MemberText(m)
  {
    if text == "Member_of" then Some(MemberOf) else if text == "Device_Member_of" then Some(DeviceMemberOf)
    else if text == "Member_of_Any" then Some(MemberOfAny)
    else if text == "Device_Member_of_Any" then Some(DeviceMemberOfAny)
    else if text == "Not_Member_of" then Some(NotMemberOf)
    else if text == "Not_Device_Member_of" then Some(NotDeviceMemberOf)
    else if text == "Not_Member_of_Any" then Some(NotMemberOfAny)
    else if text == "Not_Device_Member_of_Any" then Some(NotDeviceMemberOfAny)
    else None
  }

  /** The words that open a prefix form, and so never start an infix relation. */
  predicate PrefixKeyword(text: string) {
    text == "Exists" || text == "Not_Exists" || MemberOfKeyword(text).Some?
  }

  function RelOp(t: ConditionLexer.Token): Option<CompareOp> {
    match t.kind
    case Rel => CompareOfSymbol(t.text)
    case Ident => CompareOfKeyword(t.text)
    case _ => None
  }

  predicate NotDot(c: char) { c != '.' }

  /** An @Class.name reference. */
  function AttrOperand(text: string): Option<Operand>
    requires text != ""
  {
    var dot := Span(text, NotDot);
    if dot == 0 || dot >= |text| then None
    else
      var scope, name := text[1..dot], text[dot + 1..];
      if name == "" then None
      else if scope == "User" then Some(Attr(User, name))
      else if scope == "Device" then Some(Attr(Device, name))
      else if scope == "Resource" then Some(Attr(Resource, name))
      else None
  }

  /** The operand a literal or attribute token denotes by itself. */
  function Atom(t: ConditionLexer.Token, o: Options): Option<Operand> {
    match t.kind
    case Integer => var n :- ParseInt0(t.text); Some(IntLit(n))
    case Str => Some(StringLit(t.text))
    case Octet => var data :- HexDecode(t.text); Some(OctetLit(data))
    case SidRef => var sid :- ParseSidText(o, t.text); Some(SidLit(sid))
    case AttrRef => if t.text == "" then None else AttrOperand(t.text)
    case Ident => Some(Attr(Local, t.text))
    case _ => None
  }

  // --- grammar --------------------------------------------------------

  function ParseOperand(ts: Tokens, o: Options): (r: Parsed<Operand>)
    requires Closed(ts)
    ensures r.Some? ==> Closed(r.value.1) && |r.value.1| < |ts|
    decreases |ts|, 0
  {
    if ts[0].kind == LBrace then
      var (items, rest) :- ParseItems(ts[1..], o);
      Some((Composite(items), rest))
    else
      var x :- Atom(ts[0], o);
      Some((x, ts[1..]))
  }

  /** The items of a composite, up to and past its closing brace; a comma may trail the last one. */
  function ParseItems(ts: Tokens, o: Options): (r: Parsed<seq<Operand>>)
    requires Closed(ts)
    ensures r.Some? ==> Closed(r.value.1) && |r.value.1| < |ts|
    decreases |ts|, 1
  {
    if ts[0].kind == RBrace then Some(([], ts[1..]))
    else if ts[0].kind == Eof then None
    else
      var (item, rest) :- ParseOperand(ts, o);
      if rest[0].kind == Comma then
        var (items, after) :- ParseItems(rest[1..], o);
        Some(([item] + items, after))
      else if rest[0].kind == RBrace then Some(([item], rest[1..]))
      else None
  }

  function ParseTerm(ts: Tokens, o: Options): (r: Parsed<Condition>)
    requires Closed(ts)
    ensures r.Some? ==> Closed(r.value.1) && |r.value.1| < |ts|
    decreases |ts|, 2
  {
    if ts[0].kind == LParen then
      var (c, rest) :- ParseOr(ts[1..], o);
      if rest[0].kind == RParen then Some((c, rest[1..])) else None
    else if ts[0].kind == Ident && PrefixKeyword(ts[0].text) then
      var (x, rest) :- ParseOperand(ts[1..], o);
      var member := MemberOfKeyword(ts[0].text);
      Some((if ts[0].text == "Exists" then Exists(x)
            else if member.Some? then Member(member.value, x)
            else NotExists(x), rest))
    else
      var (lhs, rest) :- ParseOperand(ts, o);
      var op :- RelOp(rest[0]);
      var (rhs, after) :- ParseOperand(rest[1..], o);
      Some((Compare(op, lhs, rhs), after))
  }

  function ParseUnary(ts: Tokens, o: Options): (r: Parsed<Condition>)
    requires Closed(ts)
    ensures r.Some? ==> Closed(r.value.1) && |r.value.1| < |ts|
    decreases |ts|, 3
  {
    if ts[0].kind == Bang then
      var (sub, rest) :- ParseUnary(ts[1..], o);
      Some((Not(sub), rest))
    else ParseTerm(ts, o)
  }

  /** The conjuncts still to fold onto `lhs`, which associates to the left. */
  function AndRest(lhs: Condition, ts: Tokens, o: Options): (r: Parsed<Condition>)
    requires Closed(ts)
    ensures r.Some? ==> Closed(r.value.1) && |r.value.1| <= |ts|
    decreases |ts|, 4
  {
    if ts[0].kind == AndAnd then
      var (rhs, rest) :- ParseUnary(ts[1..], o);
      AndRest(And(lhs, rhs), rest, o)
    else Some((lhs, ts))
  }

  function ParseAnd(ts: Tokens, o: Options): (r: Parsed<Condition>)
    requires Closed(ts)
    ensures r.Some? ==> Closed(r.value.1) && |r.value.1| < |ts|
    decreases |ts|, 5
  {
    var (lhs, rest) :- ParseUnary(ts, o);
    AndRest(lhs, rest, o)
  }

  function OrRest(lhs: Condition, ts: Tokens, o: Options): (r: Parsed<Condition>)
    requires Closed(ts)
    ensures r.Some? ==> Closed(r.value.1) && |r.value.1| <= |ts|
    decreases |ts|, 6
  {
    if ts[0].kind == OrOr then
      var (rhs, rest) :- ParseAnd(ts[1..], o);
      OrRest(Or(lhs, rhs), rest, o)
    else Some((lhs, ts))
  }

  function ParseOr(ts: Tokens, o: Options): (r: Parsed<Condition>)
    requires Closed(ts)
    ensures r.Some? ==> Closed(r.value.1) && |r.value.1| < |ts|
    decreases |ts|, 7
  {
    var (lhs, rest) :- ParseAnd(ts, o);
    OrRest(lhs, rest, o)
  }

  /** The tree a whole text denotes: one expression, then nothing. */
  function ParseConditionText(s: string, o: Options): Option<Condition> {
    var ts :- Lex(s);
    var (c, rest) :- ParseOr(ts, o);
    if rest[0].kind == Eof then Some(c) else None
  }

  // --- the cursor -----------------------------------------------------

  /** A parse that agrees with its specification: the same verdict, the tree's code, the same tokens left. */
  ghost predicate Agrees(spec: Parsed<Condition>, r: Option<seq<byte>>, rest: Tokens) {
    match spec
    case None => r == None
    case Some((c, left)) => r == Some(Code(c)) && rest == left
  }

  ghost predicate OperandAgrees(spec: Parsed<Operand>, r: Option<seq<byte>>, rest: Tokens) {
    match spec
    case None => r == None
    case Some((x, left)) => r == Some(OperandCode(x)) && rest == left
  }

  /** condParser: it holds encoded fragments only, never a tree. */
  class CondParser {
    const toks: Tokens
    const opt: Options
    var pos: nat

    constructor (toks: Tokens, opt: Options)
      requires Closed(toks)
      ensures this.toks == toks && this.opt == opt && pos == 0 && Valid()
    {
      this.toks, this.opt, pos := toks, opt, 0;
    }

    ghost predicate Valid()
      reads this
    {
      Closed(toks) && pos < |toks|
    }

    method Next() returns (t: ConditionLexer.Token)
      requires Valid()
      modifies this`pos
      ensures Valid() && t == toks[old(pos)..][0]
      ensures t.kind != Eof ==> pos == old(pos) + 1 && toks[pos..] == toks[old(pos)..][1..]
      ensures t.kind == Eof ==> pos >= old(pos)
    {
      t := toks[pos];
      if pos < |toks| - 1 {
        pos := pos + 1;
      }
    }

    method Or() returns (r: Option<seq<byte>>)
      requires Valid()
      modifies this`pos
      ensures Valid() && Agrees(ParseOr(toks[old(pos)..], opt), r, toks[pos..])
      ensures r.Some? ==> pos > old(pos)
      decreases |toks| - pos, 8
    {
      hide ParseAnd, ParseUnary, ParseTerm, ParseOperand, ParseItems, AndRest;
      ghost var whole := ParseOr(toks[pos..], opt);
      r := And();
      if r.None? {
        return;
      }
      ghost var (c, _) := ParseAnd(toks[old(pos)..], opt).value;
      while toks[pos].kind == OrOr
        invariant Valid() && pos > old(pos)
        invariant r == Some(Code(c))
        invariant whole == OrRest(c, toks[pos..], opt)
        decreases |toks| - pos
      {
        var rhs;
        ghost var d;
        rhs, d := Disjunct(c);
        if rhs.None? {
          return None;
        }
        r := Some(r.value + rhs.value + [TOK_OR]);
        c := Condition.Or(c, d);
      }
    }

    method Disjunct(ghost c: Condition) returns (r: Option<seq<byte>>, ghost d: Condition)
      requires Valid() && toks[pos].kind == OrOr
      modifies this`pos
      ensures Valid()
      ensures r.None? ==> OrRest(c, toks[old(pos)..], opt) == None
      ensures r.Some? ==> pos > old(pos) && r.value == Code(d)
      ensures r.Some? ==> OrRest(c, toks[old(pos)..], opt) == OrRest(Condition.Or(c, d), toks[pos..], opt)
      decreases |toks| - pos, 7
    {
      hide ParseAnd, ParseOr, ParseUnary;
      var bar := Next();
      ghost var spec := ParseAnd(toks[pos..], opt);
      r := And();
      d := if spec.Some? then spec.value.0 else c;
    }

    method And() returns (r: Option<seq<byte>>)
      requires Valid()
      modifies this`pos
      ensures Valid() && Agrees(ParseAnd(toks[old(pos)..], opt), r, toks[pos..])
      ensures r.Some? ==> pos > old(pos)
      decreases |toks| - pos, 6
    {
      hide ParseOr, ParseUnary, ParseTerm, ParseOperand, ParseItems, OrRest;
      ghost var whole := ParseAnd(toks[pos..], opt);
      r := Unary();
      if r.None? {
        return;
      }
      ghost var (c, _) := ParseUnary(toks[old(pos)..], opt).value;
      while toks[pos].kind == AndAnd
        invariant Valid() && pos > old(pos)
        invariant r == Some(Code(c))
        invariant whole == AndRest(c, toks[pos..], opt)
        decreases |toks| - pos
      {
        var rhs;
        ghost var d;
        rhs, d := Conjunct(c);
        if rhs.None? {
          return None;
        }
        r := Some(r.value + rhs.value + [TOK_AND]);
        c := Condition.And(c, d);
      }
    }

    method Conjunct(ghost c: Condition) returns (r: Option<seq<byte>>, ghost d: Condition)
      requires Valid() && toks[pos].kind == AndAnd
      modifies this`pos
      ensures Valid()
      ensures r.None? ==> AndRest(c, toks[old(pos)..], opt) == None
      ensures r.Some? ==> pos > old(pos) && r.value == Code(d)
      ensures r.Some? ==> AndRest(c, toks[old(pos)..], opt) == AndRest(Condition.And(c, d), toks[pos..], opt)
      decreases |toks| - pos, 5
    {
      hide ParseUnary, ParseAnd;
      var ampersands := Next();
      ghost var spec := ParseUnary(toks[pos..], opt);
      r := Unary();
      d := if spec.Some? then spec.value.0 else c;
    }

    method Unary() returns (r: Option<seq<byte>>)
      requires Valid()
      modifies this`pos
      ensures Valid() && Agrees(ParseUnary(toks[old(pos)..], opt), r, toks[pos..])
      ensures r.Some? ==> pos > old(pos)
      decreases |toks| - pos, 5
    {
      hide ParseTerm, ParseOr, ParseAnd, ParseOperand;
      if toks[pos].kind == Bang {
        var bang := Next();
        r := Unary();
        if r.Some? {
          r := Some(r.value + [TOK_NOT]);
        }
      } else {
        r := Term();
      }
    }

    method Term() returns (r: Option<seq<byte>>)
      requires Valid()
      modifies this`pos
      ensures Valid() && Agrees(ParseTerm(toks[old(pos)..], opt), r, toks[pos..])
      ensures r.Some? ==> pos > old(pos)
      decreases |toks| - pos, 4
    {
      if toks[pos].kind == LParen {
        r := Group();
      } else if toks[pos].kind == Ident && PrefixKeyword(toks[pos].text) {
        r := Prefix();
      } else {
        r := Infix();
      }
    }

    /** A parenthesised expression. */
    method Group() returns (r: Option<seq<byte>>)
      requires Valid() && toks[pos].kind == LParen
      modifies this`pos
      ensures Valid() && Agrees(ParseTerm(toks[old(pos)..], opt), r, toks[pos..])
      ensures r.Some? ==> pos > old(pos)
      decreases |toks| - pos, 2
    {
      hide ParseOr, ParseOperand;
      var open := Next();
      r := Or();
      if r.None? || toks[pos].kind != RParen {
        return None;
      }
      var close := Next();
    }

    /** Exists, Not_Exists or a membership test. */
    method Prefix() returns (r: Option<seq<byte>>)
      requires Valid() && toks[pos].kind == Ident && PrefixKeyword(toks[pos].text)
      modifies this`pos
      ensures Valid() && Agrees(ParseTerm(toks[old(pos)..], opt), r, toks[pos..])
      ensures r.Some? ==> pos > old(pos)
      decreases |toks| - pos, 2
    {
      hide ParseOperand, ParseOr;
      var t := Next();
      var code := Operand();
      if code.None? {
        return None;
      }
      var member := MemberOfKeyword(t.text);
      if t.text == "Exists" {
        r := Some(code.value + [TOK_EXISTS]);
      } else if member.Some? {
        r := Some(code.value + [MemberToken(member.value)]);
      } else {
        r := Some(code.value + [TOK_NOT_EXISTS]);
      }
    }

    /** operand op operand. */
    method Infix() returns (r: Option<seq<byte>>)
      requires Valid()
      requires toks[pos].kind != LParen && !(toks[pos].kind == Ident && PrefixKeyword(toks[pos].text))
      modifies this`pos
      ensures Valid() && Agrees(ParseTerm(toks[old(pos)..], opt), r, toks[pos..])
      ensures r.Some? ==> pos > old(pos)
      decreases |toks| - pos, 2
    {
      hide ParseOperand, ParseOr;
      var lhs := Operand();
      if lhs.None? {
        return None;
      }
      var t := Next();
      var op := RelOp(t);
      if op.None? {
        return None;
      }
      var rhs := Operand();
      if rhs.None? {
        return None;
      }
      r := Some(lhs.value + rhs.value + [CompareToken(op.value)]);
    }

    method Operand() returns (r: Option<seq<byte>>)
      requires Valid()
      modifies this`pos
      ensures Valid() && OperandAgrees(ParseOperand(toks[old(pos)..], opt), r, toks[pos..])
      ensures r.Some? ==> pos > old(pos)
      decreases |toks| - pos, 1
    {
      var t := toks[pos];
      if t.kind == LBrace {
        r := Composite();
        return;
      }
      var x := Atom(t, opt);
      if x.None? {
        return None;
      }
      var token := Next();
      r := Some(OperandCode(x.value));
    }

    method Composite() returns (r: Option<seq<byte>>)
      requires Valid() && toks[pos].kind == LBrace
      modifies this`pos
      ensures Valid() && OperandAgrees(ParseOperand(toks[old(pos)..], opt), r, toks[pos..])
      ensures r.Some? ==> pos > old(pos)
      decreases |toks| - pos, 0
    {
      hide ParseItems, ParseOperand, ItemsCode;
      var open := Next();
      ghost var inner := ParseItems(toks[pos..], opt);
      ghost var items: seq<Conditions.Operand> := [];
      var code: seq<byte> := [];
      ItemsStart(toks[old(pos)..], opt);
      while toks[pos].kind != RBrace
        invariant Valid() && pos > old(pos)
        invariant code == ItemsCode(items)
        invariant MoreItems(inner, items, ParseItems(toks[pos..], opt))
        decreases |toks| - pos
      {
        if toks[pos].kind == Eof {
          ItemsEnd(toks[pos..], opt);
          return None;
        }
        var item;
        ghost var x;
        item, x := Item(inner, items);
        if item.None? {
          return None;
        }
        ItemsCodeAppend(items, x);
        code := code + item.value;
        items := items + [x];
      }
      ItemsEnd(toks[pos..], opt);
      var close := Next();
      assert items + [] == items;
      r := Some(TokenWith(TOK_COMPOSITE, code));
    }

    /** One item of a composite and the comma after it. */
    method Item(ghost whole: Parsed<seq<Conditions.Operand>>, ghost done: seq<Conditions.Operand>)
      returns (r: Option<seq<byte>>, ghost x: Conditions.Operand)
      requires Valid() && toks[pos].kind != RBrace && toks[pos].kind != Eof
      requires MoreItems(whole, done, ParseItems(toks[pos..], opt))
      modifies this`pos
      ensures Valid()
      ensures r.None? ==> whole == None
      ensures r.Some? ==> pos > old(pos) && r.value == OperandCode(x)
      ensures r.Some? ==> MoreItems(whole, done + [x], ParseItems(toks[pos..], opt))
      decreases |toks| - pos, 2
    {
      ghost var spec := ParseOperand(toks[pos..], opt);
      ItemsStep(whole, done, toks[pos..], opt);
      r := Operand();
      x := if spec.Some? then spec.value.0 else IntLit(0);
      if r.Some? {
        if toks[pos].kind == Comma {
          var comma := Next();
        } else if toks[pos].kind != RBrace {
          r := None;
        }
      }
    }
  }

  /** What parsing the whole list gives, once `done` of it has been read and `rest` is what remains. */
  ghost predicate MoreItems(whole: Parsed<seq<Operand>>, done: seq<Operand>, rest: Parsed<seq<Operand>>) {
    match rest
    case None => whole == None
    case Some((items, left)) => whole == Some((done + items, left))
  }

  lemma ItemsStart(ts: Tokens, o: Options)
    requires Closed(ts) && ts[0].kind == LBrace
    ensures MoreItems(ParseItems(ts[1..], o), [], ParseItems(ts[1..], o)) && ItemsCode([]) == []
    ensures ParseOperand(ts, o) == match ParseItems(ts[1..], o) case None => None
                                                                case Some((items, rest)) => Some((Composite(items), rest))
  {
    var whole := ParseItems(ts[1..], o);
    if whole.Some? {
      assert [] + whole.value.0 == whole.value.0;
    }
  }

  lemma ItemsEnd(ts: Tokens, o: Options)
    requires Closed(ts)
    ensures ts[0].kind == RBrace ==> ParseItems(ts, o) == Some(([], ts[1..]))
    ensures ts[0].kind == Eof ==> ParseItems(ts, o) == None
  {
  }

  /** One more item read moves the frontier past it and its comma. */
  lemma ItemsStep(whole: Parsed<seq<Operand>>, done: seq<Operand>, ts: Tokens, o: Options)
    requires Closed(ts) && ts[0].kind != RBrace && ts[0].kind != Eof
    requires MoreItems(whole, done, ParseItems(ts, o))
    ensures var operand := ParseOperand(ts, o);
            if operand.None? then whole == None
            else
              var item, rest := operand.value.0, operand.value.1;
              if rest[0].kind == Comma then MoreItems(whole, done + [item], ParseItems(rest[1..], o))
              else if rest[0].kind == RBrace then MoreItems(whole, done + [item], ParseItems(rest, o))
              else whole == None
  {
    hide ParseOperand;
    var operand := ParseOperand(ts, o);
    if operand.Some? {
      var (item, rest) := operand.value;
      if rest[0].kind == Comma {
        var more := ParseItems(rest[1..], o);
        if more.Some? {
          assert done + ([item] + more.value.0) == done + [item] + more.value.0;
        }
      } else if rest[0].kind == RBrace {
        assert done + [item] + [] == done + [item];
      }
    }
  }

  lemma {:induction false} ItemsCodeAppend(items: seq<Operand>, x: Operand)
    ensures ItemsCode(items + [x]) == ItemsCode(items) + OperandCode(x)
    decreases items
  {
    hide OperandCode;
    if items == [] {
      assert ItemsCode([x]) == OperandCode(x) + ItemsCode([x][1..]);
    } else {
      ItemsCodeAppend(items[1..], x);
      assert (items + [x])[1..] == items[1..] + [x];
    }
  }

  /** parseConditionText: the code of the tree the text denotes, or an error exactly when it denotes none. */
  method CompileConditionText(s: string, o: Options) returns (r: Option<seq<byte>>)
    ensures r == match ParseConditionText(s, o) case None => None case Some(c) => Some(Code(c))
  {
    var toks := LexCondition(s);
    if toks.None? {
      return None;
    }
    var cp := new CondParser(toks.value, o);
    assert cp.toks[cp.pos..] == toks.value;
    r := cp.Or();
    if r.Some? && cp.toks[cp.pos].kind != Eof {
      r := None;
    }
  }
}
