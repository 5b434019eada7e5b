/**
 The grammar of conditional expressions, apart from any parser (sddl/condition.go:205-218): a phrase keeps every token of
 its spelling, and its rank says where it may stand without parentheses. The parser accepts exactly the spellings
 of ranked phrases, and gives what they mean.
 */
module ConditionGrammar {
  import opened Wrappers
  import opened Numerals
  import opened Aliases
  import opened Conditions
  import opened ConditionLexer
  import opened ConditionParser

  type Tok = ConditionLexer.Token

  // --- operands --------------------------------------------------------

  /** One token, or items in braces; a comma may stand behind the last. */
  datatype Item = Single(t: Tok) | Braced(open: Tok, items: Items, close: Tok)

  datatype Items = NoItems | Last(x: Item) | More(x: Item, comma: Tok, others: Items)

  function ItemSpelling(x: Item): (ts: Tokens)
    ensures ts != []
  {
    match x
    case Single(t) => [t]
    case Braced(open, items, close) => [open] + ItemsSpelling(items) + [close]
  }

  function ItemsSpelling(xs: Items): Tokens {
    match xs
    case NoItems => []
    case Last(x) => ItemSpelling(x)
    case More(x, comma, others) => ItemSpelling(x) + [comma] + ItemsSpelling(others)
  }

  predicate GoodItem(x: Item, o: Options) {
    match x
    case Single(t) => Atom(t, o).Some?
    case Braced(open, items, close) => open.kind == LBrace && close.kind == RBrace && GoodItems(items, o)
  }

  predicate GoodItems(xs: Items, o: Options) {
    match xs
    case NoItems => true
    case Last(x) => GoodItem(x, o)
    case More(x, comma, others) => GoodItem(x, o) && comma.kind == Comma && GoodItems(others, o)
  }

  function ItemMeaning(x: Item, o: Options): Operand
    requires GoodItem(x, o)
  {
    match x
    case Single(t) => Atom(t, o).value
    case Braced(_, items, _) => Composite(ItemsMeaning(items, o))
  }

  function ItemsMeaning(xs: Items, o: Options): seq<Operand>
    requires GoodItems(xs, o)
  {
    match xs
    case NoItems => []
    case Last(x) => [ItemMeaning(x, o)]
    case More(x, _, others) => [ItemMeaning(x, o)] + ItemsMeaning(others, o)
  }

  // --- conditions ------------------------------------------------------

  datatype Phrase =
    | Relation(lhs: Item, op: Tok, rhs: Item)
    | Prefixed(word: Tok, arg: Item)
    | Negated(bang: Tok, sub: Phrase)
    | Grouped(open: Tok, inner: Phrase, close: Tok)
    | Conjoined(l: Phrase, sign: Tok, r: Phrase)
    | Disjoined(l: Phrase, sign: Tok, r: Phrase)

  /** How tightly a phrase holds together: a disjunction least, then a conjunction, then the rest. */
  function Rank(p: Phrase): nat {
    if p.Disjoined? then 0 else if p.Conjoined? then 1 else 2
  }

  /** Each part binds at least as tightly as its place demands; both operators associate to the left. */
  predicate Ranked(p: Phrase) {
    match p
    case Relation(_, _, _) => true
    case Prefixed(_, _) => true
    case Negated(_, sub) => Rank(sub) == 2 && Ranked(sub)
    case Grouped(_, inner, _) => Ranked(inner)
    case Conjoined(l, _, r) => Rank(l) >= 1 && Rank(r) == 2 && Ranked(l) && Ranked(r)
    case Disjoined(l, _, r) => Rank(r) >= 1 && Ranked(l) && Ranked(r)
  }

  function Spelling(p: Phrase): (ts: Tokens)
    ensures ts != []
  {
    match p
    case Relation(lhs, op, rhs) => ItemSpelling(lhs) + [op] + ItemSpelling(rhs)
    case Prefixed(word, arg) => [word] + ItemSpelling(arg)
    case Negated(bang, sub) => [bang] + Spelling(sub)
    case Grouped(open, inner, close) => [open] + Spelling(inner) + [close]
    case Conjoined(l, sign, r) => Spelling(l) + [sign] + Spelling(r)
    case Disjoined(l, sign, r) => Spelling(l) + [sign] + Spelling(r)
  }

  predicate OpensPrefix(t: Tok) { t.kind == Ident && PrefixKeyword(t.text) }

  /** The tokens are of the right kinds, and a relation does not open with the word of a prefix form. */
  predicate Good(p: Phrase, o: Options) {
    match p
    case Relation(lhs, op, rhs) => GoodItem(lhs, o) && RelOp(op).Some? && GoodItem(rhs, o) && !OpensPrefix(ItemSpelling(lhs)[0])
    case Prefixed(word, arg) => OpensPrefix(word) && GoodItem(arg, o)
    case Negated(bang, sub) => bang.kind == Bang && Good(sub, o)
    case Grouped(open, inner, close) => open.kind == LParen && close.kind == RParen && Good(inner, o)
    case Conjoined(l, sign, r) => sign.kind == AndAnd && Good(l, o) && Good(r, o)
    case Disjoined(l, sign, r) => sign.kind == OrOr && Good(l, o) && Good(r, o)
  }

  function Meaning(p: Phrase, o: Options): Condition
    requires Good(p, o)
  {
    match p
    case Relation(lhs, op, rhs) => Compare(RelOp(op).value, ItemMeaning(lhs, o), ItemMeaning(rhs, o))
    case Prefixed(word, arg) => PrefixMeaning(word.text, ItemMeaning(arg, o))
    case Negated(_, sub) => Not(Meaning(sub, o))
    case Grouped(_, inner, _) => Meaning(inner, o)
    case Conjoined(l, _, r) => And(Meaning(l, o), Meaning(r, o))
    case Disjoined(l, _, r) => Or(Meaning(l, o), Meaning(r, o))
  }

  function PrefixMeaning(word: string, x: Operand): Condition
    requires PrefixKeyword(word)
  {
    if word == "Exists" then Exists(x) else if word == "Not_Exists" then NotExists(x)
    else Member(MemberOfKeyword(word).value, x)
  }

  // --- atoms -----------------------------------------------------------

  /** What a token says by itself: a literal of its kind, an attribute of a class, or a local attribute. */
  predicate AtomSays(t: Tok, x: Operand, o: Options) {
    match x
    case IntLit(n) => t.kind == Integer && ParseInt0(t.text) == Some(n)
    case StringLit(s) => t.kind == Str && s == t.text
    case OctetLit(data) => t.kind == Octet && HexDecode(t.text) == Some(data)
    case SidLit(sid) => t.kind == SidRef && ParseSidText(o, t.text) == Some(sid)
    case Attr(scope, name) =>
      (match scope
       case Local => t.kind == Ident && t.text == name
       case User => t.kind == AttrRef && name != "" && t.text == "@User." + name
       case Resource => t.kind == AttrRef && name != "" && t.text == "@Resource." + name
       case Device => t.kind == AttrRef && name != "" && t.text == "@Device." + name)
    case Composite(_) => false
  }

  lemma ClassIsRead(scope: string, name: string)
    requires ConditionLexer.All(scope, NotDot)
    ensures Span("@" + scope + "." + name, NotDot) == 1 + |scope|
  {
    var run := "@" + scope;
    assert run + "." + name == run + ("." + name);
    SpanOfRun(run, "." + name, NotDot);
  }

  lemma AttributeIsRead(scope: string, name: string)
    requires scope in ["User", "Resource", "Device"] && name != ""
    ensures AttrOperand("@" + scope + "." + name)
         == Some(Attr(if scope == "User" then User else if scope == "Resource" then Resource else Device, name))
  {
    var text := "@" + scope + "." + name;
    ClassIsRead(scope, name);
    assert text[1..1 + |scope|] == scope && text[1 + |scope| + 1..] == name;
    hide Span;
  }

  lemma ClassedText(name: string)
    ensures "@" + "User" + "." + name == "@User." + name
    ensures "@" + "Resource" + "." + name == "@Resource." + name
    ensures "@" + "Device" + "." + name == "@Device." + name
  {
  }

  lemma ReadIsClassed(text: string)
    requires text != "" && text[0] == '@' && AttrOperand(text).Some?
    ensures var x := AttrOperand(text).value;
            x.Attr? && x.name != "" && match x.scope
                                       case User => text == "@User." + x.name
                                       case Resource => text == "@Resource." + x.name
                                       case Device => text == "@Device." + x.name
                                       case Local => false
  {
    var dot := Span(text, NotDot);
    assert text == "@" + text[1..dot] + "." + text[dot + 1..];
  }

  /** A token by itself is exactly the operand it says. */
  lemma AtomIsSaid(t: Tok, x: Operand, o: Options)
    requires t.kind == AttrRef ==> t.text != "" && t.text[0] == '@'
    ensures Atom(t, o) == Some(x) <==> AtomSays(t, x, o)
  {
    hide ParseInt0, HexDecode, ParseSidText, AttrOperand;
    if t.kind == AttrRef {
      if AttrOperand(t.text).Some? {
        ReadIsClassed(t.text);
      }
      if x.Attr? && x.name != "" {
        ClassedText(x.name);
        AttributeIsRead("User", x.name);
        AttributeIsRead("Resource", x.name);
        AttributeIsRead("Device", x.name);
      }
    }
  }

  // --- every phrase is parsed ------------------------------------------

  lemma AtomKind(t: Tok, o: Options)
    requires Atom(t, o).Some?
    ensures t.kind != LBrace && t.kind != RBrace && t.kind != Eof && t.kind != LParen && t.kind != Bang && t.kind != Comma
  {
  }

  lemma ItemKind(x: Item, o: Options)
    requires GoodItem(x, o)
    ensures var k := ItemSpelling(x)[0].kind; k != RBrace && k != Eof && k != LParen && k != Bang
  {
    if x.Single? {
      AtomKind(x.t, o);
    }
  }

  lemma Joined(a: Tokens, b: Tokens, c: Tokens)
    ensures a + b + c == a + (b + c)
  {
  }

  lemma {:induction false} ItemParses(x: Item, rest: Tokens, o: Options)
    requires GoodItem(x, o) && Closed(rest)
    ensures ParseOperand(ItemSpelling(x) + rest, o) == Some((ItemMeaning(x, o), rest))
    decreases x, 1
  {
    hide Atom;
    match x {
      case Single(t) =>
        AtomKind(t, o);
        assert ([t] + rest)[1..] == rest;
      case Braced(open, items, close) =>
        var ts := ItemSpelling(x) + rest;
        assert ts[1..] == ItemsSpelling(items) + ([close] + rest);
        ItemsParse(items, close, rest, o);
    }
  }

  lemma {:induction false} ItemsParse(xs: Items, close: Tok, rest: Tokens, o: Options)
    requires GoodItems(xs, o) && close.kind == RBrace && Closed(rest)
    ensures ParseItems(ItemsSpelling(xs) + ([close] + rest), o) == Some((ItemsMeaning(xs, o), rest))
    decreases xs, 0
  {
    hide Atom, ParseOperand, ParseItems, ItemSpelling, ItemMeaning;
    match xs {
      case NoItems =>
        NothingParses(close, rest, o);
      case Last(x) =>
        ItemKind(x, o);
        ItemParses(x, [close] + rest, o);
        LastParses(ItemSpelling(x), ItemMeaning(x, o), close, rest, o);
      case More(x, comma, others) =>
        ItemKind(x, o);
        ItemParses(x, [comma] + (ItemsSpelling(others) + ([close] + rest)), o);
        ItemsParse(others, close, rest, o);
        MoreParse(ItemSpelling(x), ItemMeaning(x, o), comma, ItemsSpelling(others), ItemsMeaning(others, o), [close] + rest, rest, o);
    }
  }

  lemma NothingParses(close: Tok, rest: Tokens, o: Options)
    requires close.kind == RBrace && Closed(rest)
    ensures ParseItems([] + ([close] + rest), o) == Some(([], rest))
  {
    var tail := [close] + rest;
    assert [] + tail == tail && tail[1..] == rest;
  }

  lemma LastParses(a: Tokens, x: Operand, close: Tok, rest: Tokens, o: Options)
    requires close.kind == RBrace && Closed(rest) && a != [] && a[0].kind != RBrace && a[0].kind != Eof
    requires ParseOperand(a + ([close] + rest), o) == Some((x, [close] + rest))
    ensures ParseItems(a + ([close] + rest), o) == Some(([x], rest))
  {
    hide ParseOperand;
    var tail := [close] + rest;
    assert (a + tail)[0] == a[0] && tail[1..] == rest;
  }

  lemma MoreParse(a: Tokens, x: Operand, comma: Tok, b: Tokens, xs: seq<Operand>, tail: Tokens, rest: Tokens, o: Options)
    requires comma.kind == Comma && Closed(tail) && a != [] && a[0].kind != RBrace && a[0].kind != Eof
    requires ParseOperand(a + ([comma] + (b + tail)), o) == Some((x, [comma] + (b + tail)))
    requires ParseItems(b + tail, o) == Some((xs, rest))
    ensures ParseItems(a + [comma] + b + tail, o) == Some(([x] + xs, rest))
  {
    hide ParseOperand;
    Regrouped(a, comma, b, tail);
    var after := b + tail;
    assert ([comma] + after)[1..] == after && (a + ([comma] + after))[0] == a[0];
  }

  lemma RelationParses(p: Phrase, rest: Tokens, o: Options)
    requires p.Relation? && Good(p, o) && Closed(rest)
    ensures ParseUnary(Spelling(p) + rest, o) == Some((Meaning(p, o), rest))
  {
    hide ParseOperand, ParseOr, ItemSpelling, ItemMeaning, PrefixKeyword;
    var mid := ItemSpelling(p.rhs) + rest;
    var ts := ItemSpelling(p.lhs) + ([p.op] + mid);
    ItemKind(p.lhs, o);
    ItemParses(p.rhs, rest, o);
    ItemParses(p.lhs, [p.op] + mid, o);
    assert ([p.op] + mid)[1..] == mid;
    assert Spelling(p) + rest == ts && ts[0] == ItemSpelling(p.lhs)[0];
  }

  lemma PrefixedParses(p: Phrase, rest: Tokens, o: Options)
    requires p.Prefixed? && Good(p, o) && Closed(rest)
    ensures ParseUnary(Spelling(p) + rest, o) == Some((Meaning(p, o), rest))
  {
    hide ParseOperand, ParseOr, ItemSpelling, ItemMeaning, MemberOfKeyword;
    var ts := [p.word] + (ItemSpelling(p.arg) + rest);
    ItemParses(p.arg, rest, o);
    assert ts[1..] == ItemSpelling(p.arg) + rest;
    assert Spelling(p) + rest == ts;
    NotExistsIsNoMember();
  }

  lemma NotExistsIsNoMember()
    ensures MemberOfKeyword("Exists") == None && MemberOfKeyword("Not_Exists") == None
  {
  }

  /** A phrase that holds together is taken off the front whole. */
  lemma {:induction false} UnaryParses(p: Phrase, rest: Tokens, o: Options)
    requires Rank(p) == 2 && Ranked(p) && Good(p, o) && Closed(rest)
    ensures ParseUnary(Spelling(p) + rest, o) == Some((Meaning(p, o), rest))
    decreases p, 0
  {
    hide ParseOr, ParseOperand;
    match p {
      case Relation(_, _, _) => RelationParses(p, rest, o);
      case Prefixed(_, _) => PrefixedParses(p, rest, o);
      case Negated(bang, sub) =>
        UnaryParses(sub, rest, o);
        Joined([bang], Spelling(sub), rest);
        assert ([bang] + (Spelling(sub) + rest))[1..] == Spelling(sub) + rest;
      case Grouped(open, inner, close) =>
        var after := [close] + rest;
        OrParses(inner, after, o);
        NoMoreOr(Meaning(inner, o), after, o);
        assert after[1..] == rest;
        assert Spelling(p) + rest == [open] + (Spelling(inner) + after);
        assert ([open] + (Spelling(inner) + after))[1..] == Spelling(inner) + after;
    }
  }

  /** A conjunction is folded as far as it goes, and then whatever follows is. */
  lemma {:induction false} AndParses(p: Phrase, rest: Tokens, o: Options)
    requires Rank(p) >= 1 && Ranked(p) && Good(p, o) && Closed(rest)
    ensures ParseAnd(Spelling(p) + rest, o) == AndRest(Meaning(p, o), rest, o)
    decreases p, 1
  {
    hide ParseUnary, ParseOr, OrRest, AndRest;
    if p.Conjoined? {
      AndParses(p.l, [p.sign] + (Spelling(p.r) + rest), o);
      UnaryParses(p.r, rest, o);
      AndStep(Spelling(p.l), Meaning(p.l, o), p.sign, Spelling(p.r), Meaning(p.r, o), rest, o);
    } else {
      UnaryParses(p, rest, o);
    }
  }

  lemma AndStep(a: Tokens, l: Condition, sign: Tok, b: Tokens, r: Condition, rest: Tokens, o: Options)
    requires Closed(rest) && sign.kind == AndAnd && ParseUnary(b + rest, o) == Some((r, rest))
    requires ParseAnd(a + ([sign] + (b + rest)), o) == AndRest(l, [sign] + (b + rest), o)
    ensures ParseAnd(a + [sign] + b + rest, o) == AndRest(And(l, r), rest, o)
  {
    hide ParseUnary, ParseAnd;
    Regrouped(a, sign, b, rest);
    assert ([sign] + (b + rest))[1..] == b + rest;
  }

  lemma OrStep(a: Tokens, l: Condition, sign: Tok, b: Tokens, r: Condition, rest: Tokens, o: Options)
    requires Closed(rest) && sign.kind == OrOr && ParseAnd(b + rest, o) == Some((r, rest))
    requires ParseOr(a + ([sign] + (b + rest)), o) == OrRest(l, [sign] + (b + rest), o)
    ensures ParseOr(a + [sign] + b + rest, o) == OrRest(Or(l, r), rest, o)
  {
    hide ParseAnd, ParseOr;
    Regrouped(a, sign, b, rest);
    assert ([sign] + (b + rest))[1..] == b + rest;
  }

  lemma Regrouped(a: Tokens, sign: Tok, b: Tokens, rest: Tokens)
    ensures a + [sign] + b + rest == a + ([sign] + (b + rest))
  {
  }

  lemma NoMoreAnd(c: Condition, rest: Tokens, o: Options)
    requires Closed(rest) && rest[0].kind != AndAnd
    ensures AndRest(c, rest, o) == Some((c, rest))
  {
  }

  lemma NoMoreOr(c: Condition, rest: Tokens, o: Options)
    requires Closed(rest) && rest[0].kind != OrOr
    ensures OrRest(c, rest, o) == Some((c, rest))
  {
  }

  /** So is a disjunction, whose parts are conjunctions: no && is left over. */
  lemma {:induction false} OrParses(p: Phrase, rest: Tokens, o: Options)
    requires Ranked(p) && Good(p, o) && Closed(rest) && rest[0].kind != AndAnd
    ensures ParseOr(Spelling(p) + rest, o) == OrRest(Meaning(p, o), rest, o)
    decreases p, 2
  {
    hide ParseAnd, AndRest, OrRest;
    if p.Disjoined? {
      OrParses(p.l, [p.sign] + (Spelling(p.r) + rest), o);
      AndParses(p.r, rest, o);
      NoMoreAnd(Meaning(p.r, o), rest, o);
      OrStep(Spelling(p.l), Meaning(p.l, o), p.sign, Spelling(p.r), Meaning(p.r, o), rest, o);
    } else {
      AndParses(p, rest, o);
      NoMoreAnd(Meaning(p, o), rest, o);
    }
  }

  // --- nothing else is -------------------------------------------------

  lemma {:induction false} OperandIsItem(ts: Tokens, o: Options) returns (x: Item)
    requires Closed(ts) && ParseOperand(ts, o).Some?
    ensures var (v, rest) := ParseOperand(ts, o).value;
            GoodItem(x, o) && ts == ItemSpelling(x) + rest && ItemMeaning(x, o) == v
    decreases |ts|, 0
  {
    hide Atom;
    if ts[0].kind == LBrace {
      var items, close := ItemsAreItems(ts[1..], o);
      x := Braced(ts[0], items, close);
      var rest := ParseItems(ts[1..], o).value.1;
      assert ts == [ts[0]] + (ItemsSpelling(items) + ([close] + rest));
    } else {
      x := Single(ts[0]);
    }
  }

  lemma {:induction false} ItemsAreItems(ts: Tokens, o: Options) returns (xs: Items, close: Tok)
    requires Closed(ts) && ParseItems(ts, o).Some?
    ensures var (vs, rest) := ParseItems(ts, o).value;
            && GoodItems(xs, o) && close.kind == RBrace
            && ts == ItemsSpelling(xs) + ([close] + rest) && ItemsMeaning(xs, o) == vs
    decreases |ts|, 1
  {
    hide Atom, ParseOperand;
    if ts[0].kind == RBrace {
      xs, close := NoItems, ts[0];
      assert ts == [] + ([ts[0]] + ts[1..]);
    } else {
      var x := OperandIsItem(ts, o);
      var mid := ParseOperand(ts, o).value.1;
      if mid[0].kind == Comma {
        var others;
        others, close := ItemsAreItems(mid[1..], o);
        xs := More(x, mid[0], others);
        var rest := ParseItems(mid[1..], o).value.1;
        assert mid == [mid[0]] + (ItemsSpelling(others) + ([close] + rest));
        assert ts == ItemSpelling(x) + [mid[0]] + ItemsSpelling(others) + ([close] + rest);
      } else {
        xs, close := Last(x), mid[0];
        assert mid == [mid[0]] + mid[1..];
      }
    }
  }

  /** What a parse of some rank took off the front, as a phrase. */
  ghost predicate Took(ts: Tokens, p: Phrase, rank: nat, c: Condition, rest: Tokens, o: Options) {
    Ranked(p) && Rank(p) >= rank && Good(p, o) && Meaning(p, o) == c && ts == Spelling(p) + rest
  }

  lemma {:induction false} TermIsPhrase(ts: Tokens, o: Options) returns (p: Phrase)
    requires Closed(ts) && ParseTerm(ts, o).Some?
    ensures Took(ts, p, 2, ParseTerm(ts, o).value.0, ParseTerm(ts, o).value.1, o)
    decreases |ts|, 2
  {
    hide ParseOr, ParseOperand, PrefixKeyword, ItemSpelling, ItemMeaning, RelOp;
    if ts[0].kind == LParen {
      var inner := OrIsPhrase(ts[1..], o);
      var after := ParseOr(ts[1..], o).value.1;
      p := Grouped(ts[0], inner, after[0]);
      Enclosed(ts, Spelling(inner), after);
    } else if OpensPrefix(ts[0]) {
      p := PrefixIsPhrase(ts, o);
    } else {
      p := RelationIsPhrase(ts, o);
    }
  }

  lemma Enclosed(ts: Tokens, inner: Tokens, after: Tokens)
    requires ts != [] && after != [] && ts[1..] == inner + after
    ensures ts == [ts[0]] + inner + [after[0]] + after[1..]
  {
  }

  lemma PrefixIsPhrase(ts: Tokens, o: Options) returns (p: Phrase)
    requires Closed(ts) && OpensPrefix(ts[0]) && ParseTerm(ts, o).Some?
    ensures Took(ts, p, 2, ParseTerm(ts, o).value.0, ParseTerm(ts, o).value.1, o)
  {
    hide ParseOr, ParseOperand, MemberOfKeyword, ItemSpelling, ItemMeaning;
    var arg := OperandIsItem(ts[1..], o);
    p := Prefixed(ts[0], arg);
    var rest := ParseOperand(ts[1..], o).value.1;
    assert ts == [ts[0]] + (ItemSpelling(arg) + rest);
    Joined([ts[0]], ItemSpelling(arg), rest);
    NotExistsIsNoMember();
  }

  lemma RelationIsPhrase(ts: Tokens, o: Options) returns (p: Phrase)
    requires Closed(ts) && !OpensPrefix(ts[0]) && ts[0].kind != LParen && ParseTerm(ts, o).Some?
    ensures Took(ts, p, 2, ParseTerm(ts, o).value.0, ParseTerm(ts, o).value.1, o)
  {
    hide ParseOr, ParseOperand, PrefixKeyword, ItemSpelling, ItemMeaning;
    var lhs := OperandIsItem(ts, o);
    var mid := ParseOperand(ts, o).value.1;
    var rhs := OperandIsItem(mid[1..], o);
    var rest := ParseOperand(mid[1..], o).value.1;
    p := Relation(lhs, mid[0], rhs);
    assert mid == [mid[0]] + (ItemSpelling(rhs) + rest);
    assert ts == ItemSpelling(lhs) + [mid[0]] + ItemSpelling(rhs) + rest;
    assert ts[0] == ItemSpelling(lhs)[0];
  }

  lemma {:induction false} UnaryIsPhrase(ts: Tokens, o: Options) returns (p: Phrase)
    requires Closed(ts) && ParseUnary(ts, o).Some?
    ensures Took(ts, p, 2, ParseUnary(ts, o).value.0, ParseUnary(ts, o).value.1, o)
    decreases |ts|, 3
  {
    hide ParseTerm;
    if ts[0].kind == Bang {
      var sub := UnaryIsPhrase(ts[1..], o);
      p := Negated(ts[0], sub);
      var rest := ParseUnary(ts[1..], o).value.1;
      assert ts == [ts[0]] + (Spelling(sub) + rest);
      Joined([ts[0]], Spelling(sub), rest);
    } else {
      p := TermIsPhrase(ts, o);
    }
  }

  lemma FirstAndRest(ts: Tokens, tail: Tokens)
    requires ts != [] && ts[1..] == tail
    ensures ts == [ts[0]] + tail
  {
  }

  /** Conjuncts folded onto a phrase make a phrase, and no && is left. */
  lemma {:induction false} AndRestIsPhrase(l: Phrase, ts: Tokens, o: Options) returns (p: Phrase)
    requires Ranked(l) && Rank(l) >= 1 && Good(l, o) && Closed(ts) && AndRest(Meaning(l, o), ts, o).Some?
    ensures var (c, rest) := AndRest(Meaning(l, o), ts, o).value;
            Took(Spelling(l) + ts, p, 1, c, rest, o) && rest[0].kind != AndAnd
    decreases |ts|
  {
    hide ParseUnary, ParseAnd, ParseOr, OrRest;
    p := l;
    if ts[0].kind == AndAnd {
      var r := UnaryIsPhrase(ts[1..], o);
      var after := ParseUnary(ts[1..], o).value.1;
      var next := Conjoined(l, ts[0], r);
      FirstAndRest(ts, Spelling(r) + after);
      Regrouped(Spelling(l), ts[0], Spelling(r), after);
      p := AndRestIsPhrase(next, after, o);
    }
  }

  lemma {:induction false} AndIsPhrase(ts: Tokens, o: Options) returns (p: Phrase)
    requires Closed(ts) && ParseAnd(ts, o).Some?
    ensures var (c, rest) := ParseAnd(ts, o).value; Took(ts, p, 1, c, rest, o) && rest[0].kind != AndAnd
    decreases |ts|, 5
  {
    hide ParseUnary, AndRest;
    var l := UnaryIsPhrase(ts, o);
    p := AndRestIsPhrase(l, ParseUnary(ts, o).value.1, o);
  }

  lemma {:induction false} OrRestIsPhrase(l: Phrase, ts: Tokens, o: Options) returns (p: Phrase)
    requires Ranked(l) && Good(l, o) && Closed(ts) && ts[0].kind != AndAnd && OrRest(Meaning(l, o), ts, o).Some?
    ensures var (c, rest) := OrRest(Meaning(l, o), ts, o).value;
            Took(Spelling(l) + ts, p, 0, c, rest, o) && rest[0].kind != AndAnd && rest[0].kind != OrOr
    decreases |ts|
  {
    hide ParseUnary, ParseAnd, AndRest, ParseOr;
    p := l;
    if ts[0].kind == OrOr {
      var r := AndIsPhrase(ts[1..], o);
      var after := ParseAnd(ts[1..], o).value.1;
      var next := Disjoined(l, ts[0], r);
      FirstAndRest(ts, Spelling(r) + after);
      Regrouped(Spelling(l), ts[0], Spelling(r), after);
      p := OrRestIsPhrase(next, after, o);
    }
  }

  lemma {:induction false} OrIsPhrase(ts: Tokens, o: Options) returns (p: Phrase)
    requires Closed(ts) && ParseOr(ts, o).Some?
    ensures var (c, rest) := ParseOr(ts, o).value;
            Took(ts, p, 0, c, rest, o) && rest[0].kind != AndAnd && rest[0].kind != OrOr
    decreases |ts|, 7
  {
    hide ParseAnd, OrRest;
    var l := AndIsPhrase(ts, o);
    p := OrRestIsPhrase(l, ParseAnd(ts, o).value.1, o);
  }

  // --- whole texts -----------------------------------------------------

  /** A text that spells a ranked phrase and nothing else denotes what the phrase means. */
  lemma PhraseIsParsed(s: string, p: Phrase, o: Options)
    requires Ranked(p) && Good(p, o) && Lex(s) == Some(Spelling(p) + [EOF])
    ensures ParseConditionText(s, o) == Some(Meaning(p, o))
  {
    hide ParseOr, OrRest, Lex;
    OrParses(p, [EOF], o);
    NoMoreOr(Meaning(p, o), [EOF], o);
  }

  /** And a text that denotes anything spells a ranked phrase that means it. */
  lemma ParsedIsPhrase(s: string, o: Options) returns (p: Phrase)
    requires ParseConditionText(s, o).Some?
    ensures Ranked(p) && Good(p, o) && Lex(s) == Some(Spelling(p) + [EOF])
    ensures ParseConditionText(s, o) == Some(Meaning(p, o))
  {
    hide ParseOr, Lex;
    var ts := Lex(s).value;
    p := OrIsPhrase(ts, o);
    EndsOnce(s);
    EndIsLast(ts, Spelling(p), ParseOr(ts, o).value.1);
  }

  lemma EndIsLast(ts: Tokens, a: Tokens, rest: Tokens)
    requires ts == a + rest && rest != [] && rest[0].kind == Eof
    requires ts[|ts| - 1] == EOF && forall i :: 0 <= i < |ts| - 1 ==> ts[i].kind != Eof
    ensures rest == [EOF]
  {
    assert rest[0] == ts[|a|];
    assert |rest| == 1;
  }

  /** A list of tokens has its end marker at the end alone. */
  lemma {:induction false} EndsOnce(s: string)
    requires Lex(s).Some?
    ensures var ts := Lex(s).value;
            ts[|ts| - 1] == EOF && forall i :: 0 <= i < |ts| - 1 ==> ts[i].kind != Eof
    decreases |s|
  {
    if s != "" {
      NoEndInside(s);
      EndsOnce(s[Scan(s).value.size..]);
    }
  }

  lemma NoEndInside(s: string)
    requires s != ""
    ensures Scan(s).Some? && Scan(s).value.Lexeme? ==> Scan(s).value.token.kind != Eof
  {
  }

  /** That a text spells a phrase of a meaning, and nothing else. */
  ghost predicate Says(s: string, p: Phrase, c: Condition, o: Options) {
    Ranked(p) && Good(p, o) && Meaning(p, o) == c && Lex(s) == Some(Spelling(p) + [EOF])
  }

  /** The parser is the grammar: a text denotes a tree if and only if it spells a ranked phrase that means it. */
  lemma ParserIsGrammar(s: string, c: Condition, o: Options)
    ensures ParseConditionText(s, o) == Some(c) <==> exists p: Phrase :: Says(s, p, c, o)
  {
    hide ParseConditionText, Lex, Spelling;
    if ParseConditionText(s, o) == Some(c) {
      var p := ParsedIsPhrase(s, o);
      assert Says(s, p, c, o);
    }
    forall p: Phrase | Says(s, p, c, o)
      ensures ParseConditionText(s, o) == Some(c)
    {
      PhraseIsParsed(s, p, o);
    }
  }
}
