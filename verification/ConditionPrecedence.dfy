/**
 Conditional expressions without superfluous parentheses: for every tree the parser can produce, the text with
 parentheses only where precedence demands them parses to that tree (sddl/condition.go:205-268).
 */
module ConditionPrecedence {
  import opened Wrappers
  import opened Aliases
  import opened Conditions
  import opened Decompiler
  import opened ConditionLexer
  import opened ConditionParser
  import opened ConditionGrammar
  import Numerals
  import RT = ConditionRoundTrip

  // --- a sparing printer -----------------------------------------------

  /** How tightly a tree holds together. */
  function Hold(c: Condition): nat {
    if c.Or? then 0 else if c.And? then 1 else 2
  }

  /**
   The text of a tree where something must hold together at least as tightly as `level`: || stands under && in
   parentheses, && and || under !, and a right operand of the same operator.
   */
  function Bare(c: Condition, level: nat, o: Options): string {
    var body :=
      match c
      case Or(l, r) => Bare(l, 0, o) + " || " + Bare(r, 1, o)
      case And(l, r) => Bare(l, 1, o) + " && " + Bare(r, 2, o)
      case Not(sub) => "!" + Bare(sub, 2, o)
      case _ => ConditionText(c, o);
    if Hold(c) < level then "(" + body + ")" else body
  }

  // --- its phrase ------------------------------------------------------

  function ItemOf(x: Operand, o: Options): Item
    decreases x, 1
  {
    if x.Composite? then Braced(RT.LB, ItemsOf(x.items, o), RT.RB) else Single(RT.AtomToken(x, o))
  }

  function ItemsOf(xs: seq<Operand>, o: Options): Items
    decreases xs, 0
  {
    if xs == [] then NoItems
    else if |xs| == 1 then Last(ItemOf(xs[0], o))
    else More(ItemOf(xs[0], o), RT.COMMA, ItemsOf(xs[1..], o))
  }

  lemma {:induction false} ItemOfMeans(x: Operand, o: Options)
    requires WellFormed(o.aliases) && RT.Printable(x)
    ensures GoodItem(ItemOf(x, o), o) && ItemMeaning(ItemOf(x, o), o) == x
    ensures ItemSpelling(ItemOf(x, o)) == RT.OperandTokens(x, o)
    decreases x, 1
  {
    hide Atom, RT.AtomToken;
    if x.Composite? {
      ItemsOfMean(x.items, o);
    } else {
      RT.AtomParses(x, o);
    }
  }

  lemma {:induction false} ItemsOfMean(xs: seq<Operand>, o: Options)
    requires WellFormed(o.aliases) && RT.AllPrintable(xs)
    ensures GoodItems(ItemsOf(xs, o), o) && ItemsMeaning(ItemsOf(xs, o), o) == xs
    ensures ItemsSpelling(ItemsOf(xs, o)) == RT.ItemTokens(xs, o)
    decreases xs, 0
  {
    hide RT.OperandTokens, ItemOf, GoodItem, ItemMeaning, ItemSpelling, RT.Printable;
    if xs != [] {
      ItemOfMeans(xs[0], o);
      ItemsOfMean(xs[1..], o);
      assert xs == [xs[0]] + xs[1..];
    }
  }

  function BasicPhrase(c: Condition, o: Options): Phrase
    requires !c.Or? && !c.And? && !c.Not?
  {
    if c.Compare? then Relation(ItemOf(c.lhs, o), RT.CompareTok(c.cop), ItemOf(c.rhs, o))
    else Prefixed(ConditionLexer.Token(Ident, RT.PrefixWord(c)), ItemOf(c.operand, o))
  }

  function BarePhrase(c: Condition, level: nat, o: Options): (p: Phrase)
    ensures Rank(p) >= level || level > 2
  {
    var body :=
      match c
      case Or(l, r) => Disjoined(BarePhrase(l, 0, o), RT.OR_OR, BarePhrase(r, 1, o))
      case And(l, r) => Conjoined(BarePhrase(l, 1, o), RT.AND_AND, BarePhrase(r, 2, o))
      case Not(sub) => Negated(RT.BANG, BarePhrase(sub, 2, o))
      case _ => BasicPhrase(c, o);
    if Hold(c) < level then Grouped(RT.LP, body, RT.RP) else body
  }

  lemma BasicMeans(c: Condition, o: Options)
    requires WellFormed(o.aliases) && RT.PrintableCondition(c) && !c.Or? && !c.And? && !c.Not?
    ensures var p := BasicPhrase(c, o);
            Ranked(p) && Good(p, o) && Meaning(p, o) == c && Spelling(p) == RT.ConditionTokens(c, o)
  {
    hide RT.OperandTokens, ItemOf, GoodItem, ItemMeaning, ItemSpelling, RT.Printable, PrefixKeyword, MemberOfKeyword;
    if c.Compare? {
      ItemOfMeans(c.lhs, o);
      ItemOfMeans(c.rhs, o);
      RT.CompareOpParses(c.cop);
      RT.FirstToken(c.lhs, o);
    } else {
      ItemOfMeans(c.operand, o);
      RT.PrefixWordIsKeyword(c);
      RT.PrefixShape(c, o);
      PrefixWordMeans(c);
    }
  }

  lemma PrefixWordMeans(c: Condition)
    requires c.Member? || c.Exists? || c.NotExists?
    ensures PrefixKeyword(RT.PrefixWord(c)) && PrefixMeaning(RT.PrefixWord(c), c.operand) == c
  {
    RT.PrefixWordIsKeyword(c);
    NotExistsIsNoMember();
    if c.Member? {
      assert MemberOfKeyword(MemberText(c.mop)) == Some(c.mop);
    }
    hide MemberOfKeyword;
  }

  /** The sparing text's phrase may stand where it does, and means the tree. */
  lemma {:induction false} BareMeans(c: Condition, level: nat, o: Options)
    requires WellFormed(o.aliases) && RT.PrintableCondition(c) && level <= 2
    ensures var p := BarePhrase(c, level, o); Ranked(p) && Good(p, o) && Meaning(p, o) == c
    decreases c, 1
  {
    hide BasicPhrase, RT.PrintableCondition, Rank;
    BodyMeans(c, o);
    BareBody(c, level, o);
  }

  lemma BareBody(c: Condition, level: nat, o: Options)
    ensures var body := BarePhrase(c, 0, o);
            BarePhrase(c, level, o) == if Hold(c) < level then Grouped(RT.LP, body, RT.RP) else body
  {
    hide BasicPhrase;
  }

  lemma {:induction false} BodyMeans(c: Condition, o: Options)
    requires WellFormed(o.aliases) && RT.PrintableCondition(c)
    ensures var p := BarePhrase(c, 0, o); Ranked(p) && Good(p, o) && Meaning(p, o) == c
    decreases c, 0
  {
    hide BasicPhrase, GoodItem, OpensPrefix, PrefixMeaning, ItemMeaning;
    match c {
      case Or(l, r) =>
        BareMeans(l, 0, o);
        BareMeans(r, 1, o);
      case And(l, r) =>
        BareMeans(l, 1, o);
        BareMeans(r, 2, o);
      case Not(sub) => BareMeans(sub, 2, o);
      case _ => BasicMeans(c, o);
    }
  }

  // --- its text --------------------------------------------------------

  lemma ReadsGroup(text: string, ts: Tokens)
    requires RT.Reads(text, ts, false)
    ensures RT.Reads("(" + text + ")", [RT.LP] + ts + [RT.RP], false)
  {
    hide RT.Reads;
    RT.ReadsPunctuation(RT.LP);
    RT.ReadsEnclosed("(", [RT.LP], text, ts, RT.RP);
    RT.ReadsMore("(" + text + ")", [RT.LP] + ts + [RT.RP]);
  }

  lemma ReadsBetween(a: string, sa: Tokens, t: Tok, b: string, sb: Tokens)
    requires RT.Reads(a, sa, false) && RT.Reads(b, sb, false) && (t == RT.AND_AND || t == RT.OR_OR)
    ensures RT.Reads(a + (if t == RT.AND_AND then " && " else " || ") + b, sa + [t] + sb, false)
  {
    hide RT.Reads;
    RT.ReadsPair(t);
    RT.ReadsMore(t.text, [t]);
    RT.ReadsInfix(a, sa, t, b, sb, false);
    SpacedSign(a, b);
  }

  lemma SpacedSign(a: string, b: string)
    ensures a + " " + "&&" + " " + b == a + " && " + b && a + " " + "||" + " " + b == a + " || " + b
  {
  }

  lemma ReadsBang(text: string, ts: Tokens)
    requires RT.Reads(text, ts, false) && text[0] != '='
    ensures RT.Reads("!" + text, [RT.BANG] + ts, false)
  {
    forall rest: string | RT.Delimited(rest)
      ensures Lex("!" + text + rest) == Then([RT.BANG] + ts, rest)
    {
      assert "!" + text + rest == "!" + (text + rest);
      assert ("!" + (text + rest))[..1] == "!";
      LexHead("!", text + rest, RT.BANG);
      assert Lex(text + rest) == Then(ts, rest);
      ThenThen([RT.BANG], ts, rest);
    }
  }

  /** No text of an operand or a condition opens with '='. */
  lemma OperandOpens(x: Operand, o: Options)
    requires RT.Printable(x)
    ensures OperandText(x, o) != "" && OperandText(x, o)[0] != '='
  {
    hide Numerals.FormatInt, FormatSid;
    match x {
      case Attr(scope, name) =>
        if scope.Local? {
          assert "" + name == name && IdentStart(name[0]);
        }
      case IntLit(n) => DigitOrSign(n);
      case _ =>
    }
  }

  lemma DigitOrSign(n: int)
    ensures Numerals.FormatInt(n) != "" && Numerals.FormatInt(n)[0] != '='
  {
  }

  lemma BasicOpens(c: Condition, o: Options)
    requires RT.PrintableCondition(c) && !c.Or? && !c.And? && !c.Not?
    ensures ConditionText(c, o) != "" && ConditionText(c, o)[0] != '='
  {
    if c.Compare? {
      OperandOpens(c.lhs, o);
    } else {
      RT.PrefixShape(c, o);
      WordOpens(c);
    }
  }

  lemma WordOpens(c: Condition)
    requires c.Member? || c.Exists? || c.NotExists?
    ensures RT.PrefixWord(c) != "" && RT.PrefixWord(c)[0] != '='
  {
    RT.PrefixWordIsKeyword(c);
  }

  lemma {:induction false} BareOpens(c: Condition, level: nat, o: Options)
    requires RT.PrintableCondition(c)
    ensures Bare(c, level, o) != "" && Bare(c, level, o)[0] != '='
    decreases c
  {
    hide ConditionText;
    match c {
      case Or(l, _) => BareOpens(l, 0, o);
      case And(l, _) => BareOpens(l, 1, o);
      case Not(_) =>
      case _ => BasicOpens(c, o);
    }
  }

  /** The text lexes to the phrase's tokens. */
  lemma {:induction false} BareReads(c: Condition, level: nat, o: Options)
    requires WellFormed(o.aliases) && RT.PrintableCondition(c)
    ensures RT.Reads(Bare(c, level, o), Spelling(BarePhrase(c, level, o)), false)
    decreases c, 1
  {
    hide RT.Reads, ConditionText, BasicPhrase;
    BodyReads(c, o);
    if Hold(c) < level {
      ReadsGroup(Bare(c, 0, o), Spelling(BarePhrase(c, 0, o)));
    }
  }

  lemma {:induction false} BodyReads(c: Condition, o: Options)
    requires WellFormed(o.aliases) && RT.PrintableCondition(c)
    ensures RT.Reads(Bare(c, 0, o), Spelling(BarePhrase(c, 0, o)), false)
    decreases c, 0
  {
    hide RT.Reads, ConditionText, BasicPhrase, RT.ConditionTokens;
    match c {
      case Or(l, r) =>
        BareReads(l, 0, o);
        BareReads(r, 1, o);
        ReadsBetween(Bare(l, 0, o), Spelling(BarePhrase(l, 0, o)), RT.OR_OR, Bare(r, 1, o), Spelling(BarePhrase(r, 1, o)));
      case And(l, r) =>
        BareReads(l, 1, o);
        BareReads(r, 2, o);
        ReadsBetween(Bare(l, 1, o), Spelling(BarePhrase(l, 1, o)), RT.AND_AND, Bare(r, 2, o), Spelling(BarePhrase(r, 2, o)));
      case Not(sub) =>
        BareReads(sub, 2, o);
        BareOpens(sub, 2, o);
        ReadsBang(Bare(sub, 2, o), Spelling(BarePhrase(sub, 2, o)));
      case _ =>
        RT.ConditionReads(c, o);
        BasicMeans(c, o);
    }
  }

  /** The theorem: without any parenthesis that precedence does not demand, the text still has the one reading. */
  lemma ParseOfBareText(c: Condition, o: Options)
    requires WellFormed(o.aliases) && RT.PrintableCondition(c)
    ensures ParseConditionText(Bare(c, 0, o), o) == Some(c)
  {
    assert Lex("") == Some([EOF]);
    hide ParseConditionText, Lex, Bare, BarePhrase, RT.PrintableCondition;
    BareReads(c, 0, o);
    BareMeans(c, 0, o);
    assert Bare(c, 0, o) + "" == Bare(c, 0, o);
    PhraseIsParsed(Bare(c, 0, o), BarePhrase(c, 0, o), o);
  }

  /** Mixed chains, in either order: && first. */
  lemma ChainsAreAnds(a: Condition, b: Condition, c: Condition, o: Options)
    requires WellFormed(o.aliases) && RT.PrintableCondition(a) && RT.PrintableCondition(b) && RT.PrintableCondition(c)
    requires Hold(a) == Hold(b) == Hold(c) == 2
    ensures ParseConditionText(Bare(a, 2, o) + " || " + (Bare(b, 2, o) + " && " + Bare(c, 2, o)), o) == Some(Or(a, And(b, c)))
    ensures ParseConditionText(Bare(a, 2, o) + " && " + Bare(b, 2, o) + " || " + Bare(c, 2, o), o) == Some(Or(And(a, b), c))
  {
    hide ParseConditionText;
    ParseOfBareText(Or(a, And(b, c)), o);
    ParseOfBareText(Or(And(a, b), c), o);
    SameBare(a, o);
    SameBare(b, o);
    SameBare(c, o);
  }

  lemma SameBare(c: Condition, o: Options)
    requires Hold(c) == 2
    ensures Bare(c, 0, o) == Bare(c, 1, o) == Bare(c, 2, o)
  {
    hide ConditionText;
  }
}
