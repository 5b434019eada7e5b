/**
 The postfix code of conditional expressions, apart from any machine (section 2.4.4.17 of MS-DTYP): terms, their
 bytes and their text, with every token spelled as a number. The decompiler accepts exactly the code of one term,
 whoever wrote it, and the compiler writes such code.
 */
module Postfix {
  import opened Wrappers
  import opened Bytes
  import opened Endian
  import opened Numerals
  import opened Text
  import opened Sid
  import opened Utf16
  import opened Aliases
  import opened Conditions
  import opened Decompiler

  /**
   A term: a 64-bit integer with its sign and base; data behind a tag and a length; the terms of a composite and what
   follows them; and operators after what they apply to. Terms are untyped, as the stack of the machine is.
   */
  datatype Term =
    | Number(value: seq<byte>, sign: byte, base: byte)
    | Data(tag: byte, data: seq<byte>)
    | List(items: seq<Term>, pad: seq<byte>)
    | Unary(op: byte, operand: Term)
    | Binary(op: byte, left: Term, right: Term)

  function TermBytes(t: Term): seq<byte>
    decreases t, 1
  {
    match t
    case Number(value, sign, base) => [0x04] + value + [sign, base]
    case Data(tag, data) => [tag] + Le32(|data|) + data
    case List(items, pad) => var inner := TermsBytes(items) + pad; [0x50] + Le32(|inner|) + inner
    case Unary(op, operand) => TermBytes(operand) + [op]
    case Binary(op, left, right) => TermBytes(left) + TermBytes(right) + [op]
  }

  function TermsBytes(ts: seq<Term>): seq<byte>
    decreases ts, 0
  {
    if ts == [] then [] else TermBytes(ts[0]) + TermsBytes(ts[1..])
  }

  // --- words -----------------------------------------------------------

  /** The operators of one operand, and how each is written before it. */
  function UnaryWord(op: byte): Option<string> {
    match op
    case 0x87 => Some("Exists ") case 0x8d => Some("Not_Exists ")
    case 0x89 => Some("Member_of ") case 0x8a => Some("Device_Member_of ")
    case 0x8b => Some("Member_of_Any ") case 0x8c => Some("Device_Member_of_Any ")
    case 0x90 => Some("Not_Member_of ") case 0x91 => Some("Not_Device_Member_of ")
    case 0x92 => Some("Not_Member_of_Any ") case 0x93 => Some("Not_Device_Member_of_Any ")
    case _ => None
  }

  /** The relations, as they are written between their operands. */
  function RelationWord(op: byte): Option<string> {
    match op
    case 0x80 => Some("==") case 0x81 => Some("!=") case 0x82 => Some("<") case 0x83 => Some("<=")
    case 0x84 => Some(">") case 0x85 => Some(">=") case 0x86 => Some("Contains") case 0x88 => Some("Any_of")
    case 0x8e => Some("Not_Contains") case 0x8f => Some("Not_Any_of")
    case _ => None
  }

  predicate IsUnary(op: byte) { op == 0xa2 || UnaryWord(op).Some? }

  predicate IsBinary(op: byte) { op == 0xa0 || op == 0xa1 || RelationWord(op).Some? }

  function UnaryText(op: byte, x: string): string
    requires IsUnary(op)
  {
    if op == 0xa2 then "!(" + x + ")" else UnaryWord(op).value + x
  }

  function BinaryText(op: byte, x: string, y: string): string
    requires IsBinary(op)
  {
    if op == 0xa0 then "(" + x + ") && (" + y + ")"
    else if op == 0xa1 then "(" + x + ") || (" + y + ")"
    else x + " " + RelationWord(op).value + " " + y
  }

  /** The text of data by its tag: a string, octets, a SID, or an attribute of one of the four classes. */
  function DataWord(tag: byte, data: seq<byte>, o: Options): Option<string> {
    match tag
    case 0x10 => Some("\"" + Utf16Text(data) + "\"")
    case 0x18 => Some("#" + HexEncode(data))
    case 0x51 => (match ParseSID(data) case None => None case Some(sid) => Some("SID(" + FormatSid(o, sid) + ")"))
    case 0xf8 => Some(Utf16Text(data))
    case 0xf9 => Some("@User." + Utf16Text(data))
    case 0xfa => Some("@Resource." + Utf16Text(data))
    case 0xfb => Some("@Device." + Utf16Text(data))
    case _ => None
  }

  // --- well-formed terms and their text --------------------------------

  /** Nothing, or a zero and whatever comes after it. */
  predicate IsPad(pad: seq<byte>) { pad == [] || pad[0] == 0 }

  ghost predicate Good(t: Term, o: Options)
    decreases t, 1
  {
    match t
    case Number(value, _, _) => |value| == 8
    case Data(tag, data) => |data| < TWO_32 && DataWord(tag, data, o).Some?
    case List(items, pad) => AllGood(items, o) && IsPad(pad) && |TermsBytes(items) + pad| < TWO_32
    case Unary(op, operand) => IsUnary(op) && Good(operand, o)
    case Binary(op, left, right) => IsBinary(op) && Good(left, o) && Good(right, o)
  }

  ghost predicate AllGood(ts: seq<Term>, o: Options)
    decreases ts, 0
  {
    ts == [] || (Good(ts[0], o) && AllGood(ts[1..], o))
  }

  /** An integer of eight bytes, low byte first, in two's complement. */
  function Signed(b: seq<byte>): int {
    var n := Little(b);
    if n < TWO_63 then n else n - TWO_64
  }

  ghost function TermText(t: Term, o: Options): string
    requires Good(t, o)
    decreases t, 1
  {
    match t
    case Number(value, _, _) => FormatInt(Signed(value))
    case Data(tag, data) => DataWord(tag, data, o).value
    case List(items, _) => "{" + Join(AllTexts(items, o), ", ") + "}"
    case Unary(op, operand) => UnaryText(op, TermText(operand, o))
    case Binary(op, left, right) => BinaryText(op, TermText(left, o), TermText(right, o))
  }

  ghost function AllTexts(ts: seq<Term>, o: Options): (texts: seq<string>)
    requires AllGood(ts, o)
    ensures |texts| == |ts|
    decreases ts, 0
  {
    if ts == [] then [] else [TermText(ts[0], o)] + AllTexts(ts[1..], o)
  }

  // --- the machine knows the same words --------------------------------

  lemma MemberWords(op: byte)
    ensures match MemberOfToken(op)
            case None => op != 0x87 && op != 0x8d ==> UnaryWord(op) == None
            case Some(m) => UnaryWord(op) == Some(MemberText(m) + " ")
    ensures op == 0x87 ==> UnaryWord(op) == Some("Exists" + " ")
    ensures op == 0x8d ==> UnaryWord(op) == Some("Not_Exists" + " ")
    ensures UnaryWord(op).Some? ==> 0x80 <= op < 0xa0
  {
    assert "Exists" + " " == "Exists " && "Not_Exists" + " " == "Not_Exists ";
    assert "Member_of" + " " == "Member_of " && "Device_Member_of" + " " == "Device_Member_of ";
    assert "Member_of_Any" + " " == "Member_of_Any " && "Device_Member_of_Any" + " " == "Device_Member_of_Any ";
    assert "Not_Member_of" + " " == "Not_Member_of " && "Not_Device_Member_of" + " " == "Not_Device_Member_of ";
    assert "Not_Member_of_Any" + " " == "Not_Member_of_Any ";
    assert "Not_Device_Member_of_Any" + " " == "Not_Device_Member_of_Any ";
  }

  lemma RelationWords(op: byte)
    ensures RelationWord(op) == match CompareOfToken(op) case None => None case Some(c) => Some(CompareText(c))
    ensures RelationWord(op).Some? ==> UnaryWord(op).None? && 0x80 <= op < 0xa0
  {
  }

  lemma JoinedBy(x: string, y: string)
    ensures "(" + x + ") " + "&&" + " (" + y + ")" == "(" + x + ") && (" + y + ")"
    ensures "(" + x + ") " + "||" + " (" + y + ")" == "(" + x + ") || (" + y + ")"
  {
  }

  /** What an operator does to the terms on top of the stack. */
  function Operated(op: byte, stack: seq<string>): Option<seq<string>> {
    var n := |stack|;
    if IsUnary(op) then
      if n >= 1 then Some(stack[..n - 1] + [UnaryText(op, stack[n - 1])]) else None
    else if IsBinary(op) then
      if n >= 2 then Some(stack[..n - 2] + [BinaryText(op, stack[n - 2], stack[n - 1])]) else None
    else None
  }

  lemma OperatorsAgree(op: byte, stack: seq<string>)
    requires IsOperator(op)
    ensures Operate(op, stack) == Operated(op, stack)
  {
    MemberWords(op);
    RelationWords(op);
    hide UnaryWord, RelationWord, MemberText, CompareText, MemberOfToken, CompareOfToken;
    if |stack| >= 2 {
      JoinedBy(stack[|stack| - 2], stack[|stack| - 1]);
    }
  }

  lemma DataAgrees(tag: byte, data: seq<byte>, o: Options)
    requires IsDataTag(tag) && tag != 0x50
    ensures DataText(tag, data, o) == DataWord(tag, data, o)
  {
    hide Utf16Text, HexEncode, ParseSID, FormatSid;
  }

  // --- lists of terms --------------------------------------------------

  lemma {:induction false} GoodJoin(a: seq<Term>, b: seq<Term>, o: Options)
    ensures AllGood(a + b, o) <==> AllGood(a, o) && AllGood(b, o)
  {
    if a == [] {
      assert a + b == b;
    } else {
      hide Good;
      assert (a + b)[1..] == a[1..] + b;
      GoodJoin(a[1..], b, o);
    }
  }

  lemma {:induction false} BytesJoin(a: seq<Term>, b: seq<Term>)
    ensures TermsBytes(a + b) == TermsBytes(a) + TermsBytes(b)
  {
    if a == [] {
      assert a + b == b;
    } else {
      hide TermBytes;
      assert (a + b)[1..] == a[1..] + b;
      BytesJoin(a[1..], b);
    }
  }

  lemma {:induction false} TextsJoin(a: seq<Term>, b: seq<Term>, o: Options)
    requires AllGood(a, o) && AllGood(b, o) && AllGood(a + b, o)
    ensures AllTexts(a + b, o) == AllTexts(a, o) + AllTexts(b, o)
  {
    if a == [] {
      assert a + b == b;
    } else {
      hide TermText, Good;
      assert (a + b)[1..] == a[1..] + b;
      GoodJoin(a[1..], b, o);
      TextsJoin(a[1..], b, o);
    }
  }

  lemma One(t: Term, o: Options)
    ensures AllGood([t], o) <==> Good(t, o)
    ensures TermsBytes([t]) == TermBytes(t)
    ensures Good(t, o) ==> AllTexts([t], o) == [TermText(t, o)]
  {
    hide Good, TermBytes, TermText;
    assert [t][1..] == [] && TermsBytes([]) == [];
  }

  /** A term more, at the end. */
  lemma Pushed(ts: seq<Term>, t: Term, o: Options)
    requires AllGood(ts, o) && Good(t, o)
    ensures AllGood(ts + [t], o) && TermsBytes(ts + [t]) == TermsBytes(ts) + TermBytes(t)
    ensures AllTexts(ts + [t], o) == AllTexts(ts, o) + [TermText(t, o)]
  {
    One(t, o);
    hide Good, AllGood, TermBytes, TermText, AllTexts, TermsBytes;
    GoodJoin(ts, [t], o);
    BytesJoin(ts, [t]);
    TextsJoin(ts, [t], o);
  }

  // --- terms run to their texts ----------------------------------------

  lemma RunNumber(value: seq<byte>, sign: byte, base: byte, rest: seq<byte>, stack: seq<string>, o: Options)
    requires |value| == 8
    ensures Run([0x04] + value + [sign, base] + rest, stack, o) == Run(rest, stack + [FormatInt(Signed(value))], o)
  {
    var b := [0x04] + value + [sign, base] + rest;
    assert b[1..9] == value && b[11..] == rest;
    EightAreLittle(value);
    hide Run, Word64, Little;
    RunPastInt(b, Signed(value), rest, stack, o);
  }

  /** Over any stack and before any bytes, the machine turns a term into its text. */
  lemma {:induction false} RunTerm(t: Term, rest: seq<byte>, stack: seq<string>, o: Options)
    requires Good(t, o)
    ensures Run(TermBytes(t) + rest, stack, o) == Run(rest, stack + [TermText(t, o)], o)
    decreases t, 1
  {
    hide Run, DataText, DataWord, Operate, FormatInt, UnaryText, BinaryText, Signed, Join, UnaryWord, RelationWord;
    match t
    case Number(value, sign, base) => RunNumber(value, sign, base, rest, stack, o);
    case Data(tag, data) =>
      DataTags(tag, data, o);
      DataAgrees(tag, data, o);
      RunData(tag, data, TermText(t, o), rest, stack, o);
    case List(items, pad) =>
      RunTerms(items, pad, [], o);
      RunComposite(TermsBytes(items) + pad, pad, AllTexts(items, o), rest, stack, o);
    case Unary(op, operand) =>
      RunTerm(operand, [op] + rest, stack, o);
      RunOneOperator(TermBytes(operand), TermText(operand, o), op, rest, stack, o);
    case Binary(op, left, right) =>
      RunTerm(left, TermBytes(right) + ([op] + rest), stack, o);
      RunTerm(right, [op] + rest, stack + [TermText(left, o)], o);
      RunTwoOperator(TermBytes(left), TermBytes(right), TermText(left, o), TermText(right, o), op, rest, stack, o);
  }

  lemma {:induction false} RunTerms(ts: seq<Term>, rest: seq<byte>, stack: seq<string>, o: Options)
    requires AllGood(ts, o)
    ensures Run(TermsBytes(ts) + rest, stack, o) == Run(rest, stack + AllTexts(ts, o), o)
    decreases ts, 0
  {
    hide Run, Good, TermText, TermBytes;
    if ts == [] {
      assert TermsBytes(ts) + rest == rest && stack + AllTexts(ts, o) == stack;
    } else {
      var t, more := ts[0], ts[1..];
      assert TermsBytes(ts) + rest == TermBytes(t) + (TermsBytes(more) + rest);
      RunTerm(t, TermsBytes(more) + rest, stack, o);
      RunTerms(more, rest, stack + [TermText(t, o)], o);
      assert stack + [TermText(t, o)] + AllTexts(more, o) == stack + AllTexts(ts, o);
    }
  }

  lemma DataTags(tag: byte, data: seq<byte>, o: Options)
    requires DataWord(tag, data, o).Some?
    ensures IsDataTag(tag) && tag != 0x50
  {
  }

  lemma RunComposite(inner: seq<byte>, pad: seq<byte>, texts: seq<string>, rest: seq<byte>, stack: seq<string>, o: Options)
    requires Run(inner, [], o) == Run(pad, [] + texts, o) && IsPad(pad) && |inner| < TWO_32
    ensures Run([0x50] + Le32(|inner|) + inner + rest, stack, o) == Run(rest, stack + ["{" + Join(texts, ", ") + "}"], o)
  {
    assert [] + texts == texts;
    RunPad(pad, texts, o);
    hide Run, Join;
    RunData(TOK_COMPOSITE, inner, "{" + Join(texts, ", ") + "}", rest, stack, o);
  }

  lemma RunPad(pad: seq<byte>, stack: seq<string>, o: Options)
    requires IsPad(pad)
    ensures Run(pad, stack, o) == Some(stack)
  {
  }

  lemma OperatorBytes(op: byte)
    requires IsUnary(op) || IsBinary(op)
    ensures IsOperator(op)
  {
    MemberWords(op);
    RelationWords(op);
    hide UnaryWord, RelationWord;
  }

  lemma RunOneOperator(code: seq<byte>, x: string, op: byte, rest: seq<byte>, stack: seq<string>, o: Options)
    requires IsUnary(op) && Run(code + ([op] + rest), stack, o) == Run([op] + rest, stack + [x], o)
    ensures Run(code + [op] + rest, stack, o) == Run(rest, stack + [UnaryText(op, x)], o)
  {
    hide Run, Operate, UnaryText, IsUnary;
    OperatorBytes(op);
    OperatorsAgree(op, stack + [x]);
    assert (stack + [x])[..|stack|] == stack;
    RunUnary(code, x, op, UnaryText(op, x), rest, stack, o);
  }

  lemma RunTwoOperator(a: seq<byte>, b: seq<byte>, x: string, y: string, op: byte, rest: seq<byte>, stack: seq<string>,
                       o: Options)
    requires IsBinary(op) && Run(a + (b + ([op] + rest)), stack, o) == Run(b + ([op] + rest), stack + [x], o)
    requires Run(b + ([op] + rest), stack + [x], o) == Run([op] + rest, stack + [x] + [y], o)
    ensures Run(a + b + [op] + rest, stack, o) == Run(rest, stack + [BinaryText(op, x, y)], o)
  {
    NotBoth(op);
    hide Run, Operate, BinaryText, IsBinary, IsUnary;
    OperatorBytes(op);
    OperatorsAgree(op, stack + [x] + [y]);
    assert (stack + [x] + [y])[..|stack|] == stack;
    RunBinary(a, b, x, y, op, BinaryText(op, x, y), rest, stack, o);
  }

  lemma NotBoth(op: byte)
    ensures !(IsUnary(op) && IsBinary(op))
  {
    MemberWords(op);
    RelationWords(op);
    hide UnaryWord, RelationWord;
  }

  // --- whatever the machine runs is terms ------------------------------

  lemma TopTerm(ts: seq<Term>, o: Options)
    requires AllGood(ts, o) && ts != []
    ensures var n := |ts| - 1;
            && AllGood(ts[..n], o) && Good(ts[n], o)
            && TermsBytes(ts) == TermsBytes(ts[..n]) + TermBytes(ts[n])
            && AllTexts(ts, o) == AllTexts(ts[..n], o) + [TermText(ts[n], o)]
  {
    var n := |ts| - 1;
    assert ts == ts[..n] + [ts[n]];
    hide Good, AllGood, TermBytes, TermText, AllTexts, TermsBytes;
    GoodJoin(ts[..n], [ts[n]], o);
    One(ts[n], o);
    Pushed(ts[..n], ts[n], o);
  }

  lemma UnaryTurn(op: byte, ts: seq<Term>, o: Options) returns (us: seq<Term>)
    requires AllGood(ts, o) && IsUnary(op) && Operated(op, AllTexts(ts, o)).Some?
    ensures AllGood(us, o) && TermsBytes(us) == TermsBytes(ts) + [op]
    ensures AllTexts(us, o) == Operated(op, AllTexts(ts, o)).value
  {
    hide IsUnary, UnaryText;
    var n := |ts| - 1;
    TopTerm(ts, o);
    var t := Unary(op, ts[n]);
    assert Good(t, o) && TermText(t, o) == UnaryText(op, TermText(ts[n], o)) && TermBytes(t) == TermBytes(ts[n]) + [op];
    hide Good, AllGood, TermBytes, TermText, AllTexts, TermsBytes;
    us := ts[..n] + [t];
    Pushed(ts[..n], t, o);
  }

  lemma BinaryTurn(op: byte, ts: seq<Term>, o: Options) returns (us: seq<Term>)
    requires AllGood(ts, o) && IsBinary(op) && Operated(op, AllTexts(ts, o)).Some?
    ensures AllGood(us, o) && TermsBytes(us) == TermsBytes(ts) + [op]
    ensures AllTexts(us, o) == Operated(op, AllTexts(ts, o)).value
  {
    NotBoth(op);
    hide IsBinary, IsUnary, BinaryText, Good, AllGood, TermBytes, TermText, AllTexts, TermsBytes;
    var n := |ts| - 2;
    TopTerm(ts, o);
    var below := ts[..n + 1];
    TopTerm(below, o);
    assert below[..n] == ts[..n] && below[n] == ts[n];
    var t := Binary(op, ts[n], ts[n + 1]);
    BinaryTerm(op, ts[n], ts[n + 1], o);
    us := ts[..n] + [t];
    Pushed(ts[..n], t, o);
    Regrouped(TermsBytes(ts[..n]), TermBytes(ts[n]), TermBytes(ts[n + 1]), [op]);
  }

  lemma BinaryTerm(op: byte, x: Term, y: Term, o: Options)
    requires IsBinary(op) && Good(x, o) && Good(y, o)
    ensures Good(Binary(op, x, y), o) && TermText(Binary(op, x, y), o) == BinaryText(op, TermText(x, o), TermText(y, o))
    ensures TermBytes(Binary(op, x, y)) == TermBytes(x) + TermBytes(y) + [op]
  {
    hide IsBinary, BinaryText;
  }

  lemma Regrouped(a: seq<byte>, b: seq<byte>, c: seq<byte>, d: seq<byte>)
    ensures a + (b + c + d) == a + b + c + d
  {
  }

  lemma KnownOperator(op: byte, stack: seq<string>)
    requires Operated(op, stack).Some?
    ensures IsUnary(op) || IsBinary(op)
  {
  }

  lemma NumberTurn(b: seq<byte>, o: Options) returns (t: Term)
    requires |b| >= 11 && b[0] == 0x04
    ensures Good(t, o) && TermBytes(t) == b[..11] && TermText(t, o) == FormatInt(Signed64(Word64(b[1..9])))
  {
    var value := b[1..9];
    t := Number(value, b[9], b[10]);
    EightAreLittle(value);
    assert b[..11] == [0x04] + value + [b[9], b[10]];
    hide Word64, Little, FormatInt;
  }

  lemma DataTurn(b: seq<byte>, o: Options) returns (t: Term)
    requires |b| >= 5 && IsDataTag(b[0]) && 5 + Word32(b[1..5]) <= |b|
    requires DataText(b[0], b[5..5 + Word32(b[1..5])], o).Some?
    ensures Good(t, o) && TermBytes(t) == b[..5 + Word32(b[1..5])]
    ensures TermText(t, o) == DataText(b[0], b[5..5 + Word32(b[1..5])], o).value
    decreases |b|, 0
  {
    var n := Word32(b[1..5]);
    var data := b[5..5 + n];
    Le32OfWord32(b[1..5]);
    assert b[1..5][..4] == b[1..5];
    assert b[..5 + n] == [b[0]] + Le32(n) + data;
    hide Word32, Le32, DataWord, Run, Join;
    if b[0] == TOK_COMPOSITE {
      var items, pad := RunIsTerms(data, [], o);
      assert TermsBytes([]) == [] && [] + data == data;
      t := List(items, pad);
    } else {
      DataAgrees(b[0], data, o);
      t := Data(b[0], data);
    }
  }

  /** One step of the machine is a term pushed, or terms replaced by a term. */
  lemma {:induction false} OneTurn(b: seq<byte>, ts: seq<Term>, o: Options) returns (us: seq<Term>)
    requires AllGood(ts, o) && b != [] && b[0] != 0 && Turn(b, AllTexts(ts, o), o).Some?
    ensures var turn := Turn(b, AllTexts(ts, o), o).value;
            AllGood(us, o) && TermsBytes(us) == TermsBytes(ts) + b[..turn.0] && AllTexts(us, o) == turn.1
    decreases |b|, 1
  {
    hide Run, DataText, DataWord, Operate, Operated, FormatInt, Signed, Join, IsUnary, IsBinary, UnaryText, BinaryText;
    if b[0] == 0x04 {
      var t := NumberTurn(b, o);
      us := ts + [t];
      hide Good, AllGood, TermBytes, TermText, AllTexts, TermsBytes;
      Pushed(ts, t, o);
    } else if IsDataTag(b[0]) {
      var t := DataTurn(b, o);
      us := ts + [t];
      hide Good, AllGood, TermBytes, TermText, AllTexts, TermsBytes;
      Pushed(ts, t, o);
    } else {
      OperatorsAgree(b[0], AllTexts(ts, o));
      KnownOperator(b[0], AllTexts(ts, o));
      if IsUnary(b[0]) {
        us := UnaryTurn(b[0], ts, o);
      } else {
        us := BinaryTurn(b[0], ts, o);
      }
      assert b[..1] == [b[0]];
    }
  }

  /** However far it has come, what the machine runs is the code of terms, and its stack is their texts. */
  lemma {:induction false} RunIsTerms(b: seq<byte>, ts: seq<Term>, o: Options) returns (us: seq<Term>, pad: seq<byte>)
    requires AllGood(ts, o) && Run(b, AllTexts(ts, o), o).Some?
    ensures AllGood(us, o) && IsPad(pad) && TermsBytes(ts) + b == TermsBytes(us) + pad
    ensures Run(b, AllTexts(ts, o), o) == Some(AllTexts(us, o))
    decreases |b|, 2
  {
    hide Turn, AllGood, AllTexts, TermsBytes;
    us, pad := ts, b;
    if b != [] && b[0] != 0 {
      var n := Turn(b, AllTexts(ts, o), o).value.0;
      var vs := OneTurn(b, ts, o);
      us, pad := RunIsTerms(b[n..], vs, o);
      assert TermsBytes(ts) + b == TermsBytes(ts) + b[..n] + b[n..] by { assert b == b[..n] + b[n..]; }
    }
  }

  // --- the theorems ----------------------------------------------------

  /** `code` is the prefix, one term, and padding; and `text` is that term's. */
  ghost predicate Encodes(code: seq<byte>, text: string, o: Options) {
    exists t, pad :: Good(t, o) && IsPad(pad) && code == [0x61, 0x72, 0x74, 0x78] + TermBytes(t) + pad && text == TermText(t, o)
  }

  /** The decompiler accepts exactly the code of one term, and gives its text. */
  lemma DecompilerIsGrammar(code: seq<byte>, text: string, o: Options)
    ensures DecodeCondition(code, o) == Some(text) <==> Encodes(code, text, o)
  {
    hide Run, Good, TermBytes, TermText;
    if DecodeCondition(code, o) == Some(text) {
      assert AllTexts([], o) == [] && TermsBytes([]) == [];
      var ts, pad := RunIsTerms(code[4..], [], o);
      assert |ts| == 1 && ts == [ts[0]];
      One(ts[0], o);
      assert code == code[..4] + code[4..] && [] + code[4..] == code[4..];
      assert ARTX + TermBytes(ts[0]) + pad == ARTX + (TermBytes(ts[0]) + pad);
    }
    if Encodes(code, text, o) {
      var t, pad :| Good(t, o) && IsPad(pad) && code == [0x61, 0x72, 0x74, 0x78] + TermBytes(t) + pad && text == TermText(t, o);
      RunTerm(t, pad, [], o);
      RunPad(pad, [text], o);
      assert [] + [text] == [text];
      assert code[..4] == ARTX && code[4..] == TermBytes(t) + pad;
    }
  }

  // --- what the compiler writes ----------------------------------------

  /** Integers in decimal with their sign, and nothing after the terms of a composite. */
  ghost predicate Canonical(t: Term)
    decreases t, 1
  {
    match t
    case Number(value, sign, base) => base == 0x02 && sign == (if Signed(value) < 0 then 0x02 else 0x03)
    case Data(_, _) => true
    case List(items, pad) => pad == [] && AllCanonical(items)
    case Unary(_, operand) => Canonical(operand)
    case Binary(_, left, right) => Canonical(left) && Canonical(right)
  }

  ghost predicate AllCanonical(ts: seq<Term>)
    decreases ts, 0
  {
    ts == [] || (Canonical(ts[0]) && AllCanonical(ts[1..]))
  }

  /** `code` is canonical, and `text` is the text of its term. */
  ghost predicate Writes(t: Term, code: seq<byte>, text: string, o: Options) {
    Good(t, o) && Canonical(t) && TermBytes(t) == code && TermText(t, o) == text
  }

  lemma IntWritten(n: int, o: Options) returns (t: Term)
    requires -TWO_63 <= n < TWO_63
    ensures Writes(t, IntCode(n), FormatInt(n), o)
  {
    t := Number(Le64(n), if n < 0 then 0x02 else 0x03, 0x02);
    SignedOfInt(n);
    hide Le64, Signed, FormatInt;
  }

  lemma SignedOfInt(n: int)
    requires -TWO_63 <= n < TWO_63
    ensures Signed(Le64(n)) == n
  {
    hide Le64, Word64, Little;
    Signed64OfLe64(n, []);
    assert Le64(n) + [] == Le64(n);
    EightAreLittle(Le64(n));
  }

  lemma DataWritten(tag: byte, data: seq<byte>, o: Options) returns (t: Term)
    requires |data| < TWO_32 && DataWord(tag, data, o).Some?
    ensures Writes(t, TokenWith(tag, data), DataWord(tag, data, o).value, o)
  {
    t := Data(tag, data);
    hide DataWord;
  }

  lemma {:induction false} OperandWritten(x: Operand, o: Options) returns (t: Term)
    requires Fits(x)
    ensures Writes(t, OperandCode(x), OperandText(x, o), o)
    decreases x, 1
  {
    hide Writes, Utf16le, Utf16Text, Encoded, ParseSID, FormatSid, FormatInt, HexEncode, Join, TokenWith, IntCode;
    match x
    case IntLit(n) => t := IntWritten(n, o);
    case StringLit(s) =>
      TextOfUtf16le(s);
      t := DataWritten(0x10, Utf16le(s), o);
    case OctetLit(data) => t := DataWritten(0x18, data, o);
    case SidLit(sid) =>
      ParseOfEncoded(sid, []);
      assert Encoded(sid) + [] == Encoded(sid);
      t := DataWritten(0x51, Encoded(sid), o);
    case Attr(scope, name) =>
      TextOfUtf16le(name);
      assert "" + name == name;
      t := DataWritten(AttrToken(scope), Utf16le(name), o);
    case Composite(items) =>
      var ts := ItemsWritten(items, o);
      t := ListWritten(ts, items, o);
  }

  lemma ListWritten(ts: seq<Term>, items: seq<Operand>, o: Options) returns (t: Term)
    requires AllGood(ts, o) && AllCanonical(ts) && TermsBytes(ts) == ItemsCode(items) && AllTexts(ts, o) == Texts(items, o)
    requires |ItemsCode(items)| < TWO_32
    ensures Writes(t, TokenWith(TOK_COMPOSITE, ItemsCode(items)), "{" + Join(Texts(items, o), ", ") + "}", o)
  {
    t := List(ts, []);
    hide AllGood, AllCanonical, TermsBytes, AllTexts, ItemsCode, Texts, Join;
    assert TermsBytes(ts) + [] == TermsBytes(ts);
  }

  lemma {:induction false} ItemsWritten(items: seq<Operand>, o: Options) returns (ts: seq<Term>)
    requires AllFit(items)
    ensures AllGood(ts, o) && AllCanonical(ts) && TermsBytes(ts) == ItemsCode(items) && AllTexts(ts, o) == Texts(items, o)
    decreases items, 0
  {
    hide Good, Canonical, TermBytes, TermText, OperandCode, OperandText, Fits;
    ts := [];
    if items != [] {
      var t := OperandWritten(items[0], o);
      var more := ItemsWritten(items[1..], o);
      ts := [t] + more;
      assert ts[1..] == more;
    }
  }

  lemma UnaryWritten(op: byte, x: Term, code: seq<byte>, text: string, o: Options) returns (t: Term)
    requires IsUnary(op) && Writes(x, code, text, o)
    ensures Writes(t, code + [op], UnaryText(op, text), o)
  {
    hide IsUnary, UnaryText;
    t := Unary(op, x);
  }

  lemma BinaryWritten(op: byte, x: Term, y: Term, code: seq<byte>, more: seq<byte>, text: string, rest: string, o: Options)
    returns (t: Term)
    requires IsBinary(op) && Writes(x, code, text, o) && Writes(y, more, rest, o)
    ensures Writes(t, code + more + [op], BinaryText(op, text, rest), o)
  {
    hide IsBinary, BinaryText;
    t := Binary(op, x, y);
  }

  lemma RelationSpelled(op: CompareOp, x: string, y: string)
    ensures IsBinary(CompareToken(op)) && BinaryText(CompareToken(op), x, y) == x + " " + CompareText(op) + " " + y
  {
  }

  lemma MemberSpelled(op: MemberOp, x: string)
    ensures IsUnary(MemberToken(op)) && UnaryText(MemberToken(op), x) == MemberText(op) + " " + x
  {
    MemberWords(MemberToken(op));
    hide UnaryWord, MemberText;
  }

  /** Compiling a tree writes the canonical code of a term that has the tree's text. */
  lemma {:induction false} CodeIsCanonical(c: Condition, o: Options) returns (t: Term)
    requires ConditionFits(c)
    ensures Writes(t, Code(c), ConditionText(c, o), o)
    decreases c
  {
    hide Writes, OperandCode, OperandText, Fits;
    match c
    case Compare(op, lhs, rhs) =>
      var x := OperandWritten(lhs, o);
      var y := OperandWritten(rhs, o);
      RelationSpelled(op, OperandText(lhs, o), OperandText(rhs, o));
      t := BinaryWritten(CompareToken(op), x, y, OperandCode(lhs), OperandCode(rhs), OperandText(lhs, o), OperandText(rhs, o), o);
    case Member(op, operand) =>
      var x := OperandWritten(operand, o);
      MemberSpelled(op, OperandText(operand, o));
      t := UnaryWritten(MemberToken(op), x, OperandCode(operand), OperandText(operand, o), o);
    case Exists(operand) =>
      var x := OperandWritten(operand, o);
      t := UnaryWritten(0x87, x, OperandCode(operand), OperandText(operand, o), o);
    case NotExists(operand) =>
      var x := OperandWritten(operand, o);
      t := UnaryWritten(0x8d, x, OperandCode(operand), OperandText(operand, o), o);
    case And(l, r) =>
      var x := CodeIsCanonical(l, o);
      var y := CodeIsCanonical(r, o);
      t := BinaryWritten(0xa0, x, y, Code(l), Code(r), ConditionText(l, o), ConditionText(r, o), o);
    case Or(l, r) =>
      var x := CodeIsCanonical(l, o);
      var y := CodeIsCanonical(r, o);
      t := BinaryWritten(0xa1, x, y, Code(l), Code(r), ConditionText(l, o), ConditionText(r, o), o);
    case Not(sub) =>
      var x := CodeIsCanonical(sub, o);
      t := UnaryWritten(0xa2, x, Code(sub), ConditionText(sub, o), o);
  }
}
