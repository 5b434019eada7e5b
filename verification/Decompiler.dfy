/**
 The bytecode decompiler: a stack machine over the postfix tokens whose values are pieces of text
 (sddl/decompile.go).
 */
module Decompiler {
  import opened Wrappers
  import opened Bytes
  import opened Numerals
  import opened Text
  import opened Sid
  import opened Utf16
  import opened Aliases
  import opened Conditions

  function CompareText(op: CompareOp): string {
    match op
    case Equal => "==" case NotEqual => "!=" case Less => "<" case LessEqual => "<="
    case Greater => ">" case GreaterEqual => ">=" case Contains => "Contains" case AnyOf => "Any_of"
    case NotContains => "Not_Contains" case NotAnyOf => "Not_Any_of"
  }

  function MemberText(op: MemberOp): string {
    match op
    case MemberOf => "Member_of" case DeviceMemberOf => "Device_Member_of"
    case MemberOfAny => "Member_of_Any" case DeviceMemberOfAny => "Device_Member_of_Any"
    case NotMemberOf => "Not_Member_of" case NotDeviceMemberOf => "Not_Device_Member_of"
    case NotMemberOfAny => "Not_Member_of_Any" case NotDeviceMemberOfAny => "Not_Device_Member_of_Any"
  }

  function CompareOfToken(tag: byte): (op: Option<CompareOp>)
    ensures forall c :: op == Some(c) <==> tag == CompareToken(c)
  {
    match tag
    case 0x80 => Some(Equal) case 0x81 => Some(NotEqual) case 0x82 => Some(Less) case 0x83 => Some(LessEqual)
    case 0x84 => Some(Greater) case 0x85 => Some(GreaterEqual) case 0x86 => Some(Contains) case 0x88 => Some(AnyOf)
    case 0x8e => Some(NotContains) case 0x8f => Some(NotAnyOf)
    case _ => None
  }

  function MemberOfToken(tag: byte): (op: Option<MemberOp>)
    ensures forall m :: op == Some(m) <==> tag == MemberToken(m)
  {
    match tag
    case 0x89 => Some(MemberOf) case 0x8a => Some(DeviceMemberOf) case 0x8b => Some(MemberOfAny)
    case 0x8c => Some(DeviceMemberOfAny) case 0x90 => Some(NotMemberOf) case 0x91 => Some(NotDeviceMemberOf)
    case 0x92 => Some(NotMemberOfAny) case 0x93 => Some(NotDeviceMemberOfAny)
    case _ => None
  }

  predicate IsDataTag(tag: byte) {
    || tag == TOK_STRING || tag == TOK_OCTET || tag == TOK_SID || tag == TOK_COMPOSITE
    || tag == TOK_ATTR_LOCAL || tag == TOK_ATTR_USER || tag == TOK_ATTR_RESOURCE || tag == TOK_ATTR_DEVICE
  }

  predicate IsOperator(tag: byte) {
    tag != 0 && tag != TOK_INT64 && !IsDataTag(tag)
  }

  /** What an operator token does to the stack; None is an underflow or an unknown token. */
  function Operate(tag: byte, stack: seq<string>): Option<seq<string>> {
    var n := |stack|;
    if tag == TOK_EXISTS || tag == TOK_NOT_EXISTS then
      if n == 0 then None
      else Some(stack[..n - 1] + [(if tag == TOK_EXISTS then "Exists" else "Not_Exists") + " " + stack[n - 1]])
    else if tag == TOK_NOT then
      if n == 0 then None else Some(stack[..n - 1] + ["!(" + stack[n - 1] + ")"])
    else if tag == TOK_AND || tag == TOK_OR then
      if n < 2 then None
      else Some(stack[..n - 2]
                + ["(" + stack[n - 2] + ") " + (if tag == TOK_AND then "&&" else "||") + " (" + stack[n - 1] + ")"])
    else
      match CompareOfToken(tag)
      case Some(op) =>
        if n < 2 then None
        else Some(stack[..n - 2] + [stack[n - 2] + " " + CompareText(op) + " " + stack[n - 1]])
      case None =>
        var op :- MemberOfToken(tag);
        if n == 0 then None else Some(stack[..n - 1] + [MemberText(op) + " " + stack[n - 1]])
  }

  /** The token at the head of `b`: its size and the stack it leaves; None when it is an error. */
  function Turn(b: seq<byte>, stack: seq<string>, o: Options): (r: Option<(nat, seq<string>)>)
    requires b != [] && b[0] != 0
    ensures r.Some? ==> 0 < r.value.0 <= |b|
    decreases |b|, 0
  {
    if b[0] == TOK_INT64 then
      if |b| < 11 then None
      else Some((11, stack + [FormatInt(Signed64(Word64(b[1..9])))]))
    else if IsDataTag(b[0]) then
      if |b| < 5 then None
      else
        var n := Word32(b[1..5]);
        if 5 + n > |b| then None
        else
          var text :- DataText(b[0], b[5..5 + n], o);
          Some((5 + n, stack + [text]))
    else
      var next :- Operate(b[0], stack);
      Some((1, next))
  }

  /** The stack left when the machine consumes `b` starting from `stack`; None when it stops with an error. */
  function Run(b: seq<byte>, stack: seq<string>, o: Options): Option<seq<string>>
    decreases |b|, 1
  {
    if b == [] || b[0] == 0 then Some(stack)
    else
      var turn :- Turn(b, stack, o);
      Run(b[turn.0..], turn.1, o)
  }

  /** The text of one length-prefixed operand. */
  function DataText(tag: byte, data: seq<byte>, o: Options): Option<string>
    requires IsDataTag(tag)
    decreases |data|, 2
  {
    if tag == TOK_STRING then Some("\"" + Utf16Text(data) + "\"")
    else if tag == TOK_OCTET then Some("#" + HexEncode(data))
    else if tag == TOK_SID then
      var sid :- ParseSID(data);
      Some("SID(" + FormatSid(o, sid) + ")")
    else if tag == TOK_COMPOSITE then
      var items :- Run(data, [], o);
      Some("{" + Join(items, ", ") + "}")
    else if tag == TOK_ATTR_LOCAL then Some(Utf16Text(data))
    else if tag == TOK_ATTR_USER then Some("@User." + Utf16Text(data))
    else if tag == TOK_ATTR_RESOURCE then Some("@Resource." + Utf16Text(data))
    else Some("@Device." + Utf16Text(data))
  }

  /** decodeCondition: the text of a whole encoded condition. */
  function DecodeCondition(code: seq<byte>, o: Options): Option<string> {
    if |code| < 4 || code[..4] != ARTX then None
    else
      var stack :- Run(code[4..], [], o);
      if |stack| == 1 then Some(stack[0]) else None
  }

  // --- the machine, step by step --------------------------------------

  /** decodeTokens: a loop that advances through the bytes, pushing and popping a stack. */
  method DecodeTokens(b: seq<byte>, o: Options) returns (r: Option<seq<string>>)
    ensures r == Run(b, [], o)
    decreases |b|, 0, 1
  {
    var stack: seq<string> := [];
    var i := 0;
    assert b[0..] == b;
    while i < |b|
      invariant i <= |b|
      invariant Run(b, [], o) == Run(b[i..], stack, o)
      decreases |b| - i
    {
      if b[i] == 0 {
        return Some(stack);
      }
      var turn := Advance(b, i, stack, o);
      if turn.None? {
        return None;
      }
      assert b[i..][turn.value.0..] == b[i + turn.value.0..];
      i, stack := i + turn.value.0, turn.value.1;
    }
    r := Some(stack);
  }

  /** The switch of decodeTokens. */
  method Advance(b: seq<byte>, i: nat, stack: seq<string>, o: Options) returns (r: Option<(nat, seq<string>)>)
    requires i < |b| && b[i] != 0
    ensures r == Turn(b[i..], stack, o)
    decreases |b|, 0, 0
  {
    var tag := b[i];
    if tag == TOK_INT64 {
      if i + 11 > |b| {
        return None;
      }
      assert b[i..][1..9] == b[i + 1..i + 9];
      r := Some((11, stack + [FormatInt(Signed64(Word64(b[i + 1..i + 9])))]));
    } else if IsDataTag(tag) {
      if i + 5 > |b| {
        return None;
      }
      assert b[i..][1..5] == b[i + 1..i + 5];
      var n := Word32(b[i + 1..i + 5]);
      if i + 5 + n > |b| {
        return None;
      }
      assert b[i..][5..5 + n] == b[i + 5..i + 5 + n];
      var text := DecodeDataToken(tag, b[i + 5..i + 5 + n], o);
      if text.None? {
        return None;
      }
      r := Some((5 + n, stack + [text.value]));
    } else {
      var top := Apply(tag, stack);
      if top.None? {
        return None;
      }
      r := Some((1, top.value));
    }
  }

  /** decodeCondition over the machine. */
  method Decompile(code: seq<byte>, o: Options) returns (r: Option<string>)
    ensures r == DecodeCondition(code, o)
  {
    if |code| < 4 || code[..4] != ARTX {
      return None;
    }
    var stack := DecodeTokens(code[4..], o);
    if stack.None? || |stack.value| != 1 {
      return None;
    }
    r := Some(stack.value[0]);
  }

  /** The operator cases of decodeTokens, popping before they push. */
  method Apply(tag: byte, before: seq<string>) returns (r: Option<seq<string>>)
    ensures r == Operate(tag, before)
  {
    var stack := before;
    if tag == TOK_EXISTS || tag == TOK_NOT_EXISTS {
      if |stack| == 0 {
        return None;
      }
      var operand := stack[|stack| - 1];
      stack := stack[..|stack| - 1];
      var kw := "Exists";
      if tag == TOK_NOT_EXISTS {
        kw := "Not_Exists";
      }
      return Some(stack + [kw + " " + operand]);
    }
    if tag == TOK_NOT {
      if |stack| == 0 {
        return None;
      }
      var sub := stack[|stack| - 1];
      stack := stack[..|stack| - 1];
      return Some(stack + ["!(" + sub + ")"]);
    }
    var compare, member := CompareOfToken(tag), MemberOfToken(tag);
    if tag == TOK_AND || tag == TOK_OR || compare.Some? {
      if |stack| < 2 {
        return None;
      }
      var rhs := stack[|stack| - 1];
      stack := stack[..|stack| - 1];
      var lhs := stack[|stack| - 1];
      stack := stack[..|stack| - 1];
      assert stack == before[..|before| - 2];
      if compare.Some? {
        return Some(stack + [lhs + " " + CompareText(compare.value) + " " + rhs]);
      }
      var sym := "&&";
      if tag == TOK_OR {
        sym := "||";
      }
      return Some(stack + ["(" + lhs + ") " + sym + " (" + rhs + ")"]);
    }
    if member.None? || |stack| == 0 {
      return None;
    }
    var operand := stack[|stack| - 1];
    stack := stack[..|stack| - 1];
    return Some(stack + [MemberText(member.value) + " " + operand]);
  }

  method DecodeDataToken(tag: byte, data: seq<byte>, o: Options) returns (r: Option<string>)
    requires IsDataTag(tag)
    ensures r == DataText(tag, data, o)
    decreases |data|, 1, 0
  {
    if tag == TOK_OCTET {
      return Some("#" + HexEncode(data));
    }
    if tag == TOK_SID {
      var sid := ParseSID(data);
      if sid.None? {
        return None;
      }
      return Some("SID(" + FormatSid(o, sid.value) + ")");
    }
    if tag == TOK_COMPOSITE {
      var items := DecodeTokens(data, o);
      if items.None? {
        return None;
      }
      return Some("{" + Join(items.value, ", ") + "}");
    }
    var text := DecodeUtf16le(data);
    if tag == TOK_STRING {
      r := Some("\"" + text + "\"");
    } else if tag == TOK_ATTR_LOCAL {
      r := Some(text);
    } else if tag == TOK_ATTR_USER {
      r := Some("@User." + text);
    } else if tag == TOK_ATTR_RESOURCE {
      r := Some("@Resource." + text);
    } else {
      r := Some("@Device." + text);
    }
  }

  // --- what each tree renders to --------------------------------------

  function ClassPrefix(scope: AttrClass): string {
    match scope
    case Local => "" case User => "@User." case Resource => "@Resource." case Device => "@Device."
  }

  function OperandText(x: Operand, o: Options): string
    decreases x, 1
  {
    match x
    case IntLit(n) => FormatInt(n)
    case StringLit(s) => "\"" + s + "\""
    case OctetLit(data) => "#" + HexEncode(data)
    case SidLit(sid) => "SID(" + FormatSid(o, sid) + ")"
    case Attr(scope, name) => ClassPrefix(scope) + name
    case Composite(items) => "{" + Join(Texts(items, o), ", ") + "}"
  }

  function Texts(items: seq<Operand>, o: Options): (ts: seq<string>)
    ensures |ts| == |items|
    decreases items, 0
  {
    if items == [] then [] else [OperandText(items[0], o)] + Texts(items[1..], o)
  }

  function ConditionText(c: Condition, o: Options): string {
    match c
    case Compare(op, lhs, rhs) => OperandText(lhs, o) + " " + CompareText(op) + " " + OperandText(rhs, o)
    case Member(op, operand) => MemberText(op) + " " + OperandText(operand, o)
    case Exists(operand) => "Exists " + OperandText(operand, o)
    case NotExists(operand) => "Not_Exists " + OperandText(operand, o)
    case And(l, r) => "(" + ConditionText(l, o) + ") && (" + ConditionText(r, o) + ")"
    case Or(l, r) => "(" + ConditionText(l, o) + ") || (" + ConditionText(r, o) + ")"
    case Not(sub) => "!(" + ConditionText(sub, o) + ")"
  }

  // --- simulation -----------------------------------------------------

  lemma DataHeader(tag: byte, data: seq<byte>, rest: seq<byte>)
    requires |data| < TWO_32
    ensures var b := TokenWith(tag, data) + rest;
            && b[0] == tag && |b| >= 5 + |data| && Word32(b[1..5]) == |data|
            && b[5..5 + |data|] == data && b[5 + |data|..] == rest
  {
    var b := TokenWith(tag, data) + rest;
    Word32OfLe32(|data|, []);
    assert Le32(|data|) + [] == Le32(|data|);
    assert b[1..5] == Le32(|data|);
  }

  lemma RunPastData(b: seq<byte>, tag: byte, data: seq<byte>, text: string, rest: seq<byte>, stack: seq<string>, o: Options)
    requires |b| >= 5 + |data| && b[0] == tag && IsDataTag(tag) && Word32(b[1..5]) == |data|
    requires b[5..5 + |data|] == data && b[5 + |data|..] == rest
    requires DataText(tag, data, o) == Some(text)
    ensures Run(b, stack, o) == Run(rest, stack + [text], o)
  {
  }

  lemma RunData(tag: byte, data: seq<byte>, text: string, rest: seq<byte>, stack: seq<string>, o: Options)
    requires IsDataTag(tag) && |data| < TWO_32
    requires DataText(tag, data, o) == Some(text)
    ensures Run(TokenWith(tag, data) + rest, stack, o) == Run(rest, stack + [text], o)
  {
    DataHeader(tag, data, rest);
    RunPastData(TokenWith(tag, data) + rest, tag, data, text, rest, stack, o);
  }

  lemma RunPastInt(b: seq<byte>, n: int, rest: seq<byte>, stack: seq<string>, o: Options)
    requires |b| >= 11 && b[0] == TOK_INT64 && Signed64(Word64(b[1..9])) == n && b[11..] == rest
    ensures Run(b, stack, o) == Run(rest, stack + [FormatInt(n)], o)
  {
  }

  lemma RunInt(n: int, rest: seq<byte>, stack: seq<string>, o: Options)
    requires -TWO_63 <= n < TWO_63
    ensures Run(IntCode(n) + rest, stack, o) == Run(rest, stack + [FormatInt(n)], o)
  {
    var b := IntCode(n) + rest;
    assert b[1..9] == Le64(n) && b[11..] == rest;
    assert Le64(n) + [] == Le64(n);
    Signed64OfLe64(n, []);
    RunPastInt(b, n, rest, stack, o);
  }

  /** Whatever follows it, the code of an operand pushes exactly that operand's text. */
  lemma {:induction false} RunOperand(x: Operand, rest: seq<byte>, stack: seq<string>, o: Options)
    requires Fits(x)
    ensures Run(OperandCode(x) + rest, stack, o) == Run(rest, stack + [OperandText(x, o)], o)
    decreases x, 1
  {
    hide Run, Utf16le, Utf16Text, Encoded, ParseSID, FormatSid, FormatInt, HexEncode, Join, TokenWith, IntCode;
    var text := OperandText(x, o);
    match x
    case IntLit(n) => RunInt(n, rest, stack, o);
    case StringLit(s) =>
      TextOfUtf16le(s);
      RunData(TOK_STRING, Utf16le(s), text, rest, stack, o);
    case OctetLit(data) => RunData(TOK_OCTET, data, text, rest, stack, o);
    case SidLit(sid) =>
      ParseOfEncoded(sid, []);
      assert Encoded(sid) + [] == Encoded(sid);
      RunData(TOK_SID, Encoded(sid), text, rest, stack, o);
    case Attr(scope, name) =>
      TextOfUtf16le(name);
      assert "" + name == name;
      RunData(AttrToken(scope), Utf16le(name), text, rest, stack, o);
    case Composite(items) =>
      var data := ItemsCode(items);
      RunItems(items, [], [], o);
      RunNothing(Texts(items, o), o);
      assert data + [] == data && [] + Texts(items, o) == Texts(items, o);
      RunData(TOK_COMPOSITE, data, text, rest, stack, o);
  }

  lemma RunNothing(stack: seq<string>, o: Options)
    ensures Run([], stack, o) == Some(stack)
  {
  }

  lemma {:induction false} RunItems(items: seq<Operand>, rest: seq<byte>, stack: seq<string>, o: Options)
    requires AllFit(items)
    ensures Run(ItemsCode(items) + rest, stack, o) == Run(rest, stack + Texts(items, o), o)
    decreases items, 0
  {
    if items == [] {
      assert ItemsCode(items) + rest == rest && stack + Texts(items, o) == stack;
    } else {
      var first, others := items[0], items[1..];
      assert ItemsCode(items) + rest == OperandCode(first) + (ItemsCode(others) + rest);
      RunOperand(first, ItemsCode(others) + rest, stack, o);
      RunItems(others, rest, stack + [OperandText(first, o)], o);
      assert stack + [OperandText(first, o)] + Texts(others, o) == stack + Texts(items, o);
    }
  }

  lemma RunUnary(code: seq<byte>, x: string, tag: byte, text: string, rest: seq<byte>, stack: seq<string>, o: Options)
    requires IsOperator(tag)
    requires Run(code + ([tag] + rest), stack, o) == Run([tag] + rest, stack + [x], o)
    requires Operate(tag, stack + [x]) == Some(stack + [text])
    ensures Run(code + [tag] + rest, stack, o) == Run(rest, stack + [text], o)
  {
    assert code + [tag] + rest == code + ([tag] + rest);
    assert ([tag] + rest)[1..] == rest;
  }

  lemma RunBinary(a: seq<byte>, b: seq<byte>, x: string, y: string, tag: byte, text: string,
                  rest: seq<byte>, stack: seq<string>, o: Options)
    requires IsOperator(tag)
    requires Run(a + (b + ([tag] + rest)), stack, o) == Run(b + ([tag] + rest), stack + [x], o)
    requires Run(b + ([tag] + rest), stack + [x], o) == Run([tag] + rest, stack + [x] + [y], o)
    requires Operate(tag, stack + [x] + [y]) == Some(stack + [text])
    ensures Run(a + b + [tag] + rest, stack, o) == Run(rest, stack + [text], o)
  {
    assert a + b + [tag] + rest == a + (b + ([tag] + rest));
    assert ([tag] + rest)[1..] == rest;
  }

  lemma OperateOnOne(tag: byte, stack: seq<string>, x: string)
    ensures Operate(TOK_EXISTS, stack + [x]) == Some(stack + ["Exists " + x])
    ensures Operate(TOK_NOT_EXISTS, stack + [x]) == Some(stack + ["Not_Exists " + x])
    ensures Operate(TOK_NOT, stack + [x]) == Some(stack + ["!(" + x + ")"])
    ensures forall m :: tag == MemberToken(m) ==> Operate(tag, stack + [x]) == Some(stack + [MemberText(m) + " " + x])
  {
    assert (stack + [x])[..|stack|] == stack;
    assert "Exists" + " " == "Exists ";
    assert "Not_Exists" + " " == "Not_Exists ";
  }

  lemma OperateOnTwo(tag: byte, stack: seq<string>, x: string, y: string)
    ensures Operate(TOK_AND, stack + [x] + [y]) == Some(stack + ["(" + x + ") && (" + y + ")"])
    ensures Operate(TOK_OR, stack + [x] + [y]) == Some(stack + ["(" + x + ") || (" + y + ")"])
    ensures forall c :: tag == CompareToken(c) ==>
              Operate(tag, stack + [x] + [y]) == Some(stack + [x + " " + CompareText(c) + " " + y])
  {
    assert (stack + [x] + [y])[..|stack|] == stack;
    assert "(" + x + ") " + "&&" + " (" + y + ")" == "(" + x + ") && (" + y + ")";
    assert "(" + x + ") " + "||" + " (" + y + ")" == "(" + x + ") || (" + y + ")";
  }

  /**
   The simulation theorem: for any tree, over any stack and before any further bytes, running its code
   is pushing its text. The machine never underflows or truncates on code a tree was compiled to.
   */
  lemma {:induction false} RunCondition(c: Condition, rest: seq<byte>, stack: seq<string>, o: Options)
    requires ConditionFits(c)
    ensures Run(Code(c) + rest, stack, o) == Run(rest, stack + [ConditionText(c, o)], o)
    decreases c
  {
    var text := ConditionText(c, o);
    match c
    case Compare(op, lhs, rhs) =>
      RunCompare(op, lhs, rhs, rest, stack, o);
    case Member(op, x) => RunOnOperand(x, MemberToken(op), text, rest, stack, o);
    case Exists(x) => RunOnOperand(x, TOK_EXISTS, text, rest, stack, o);
    case NotExists(x) => RunOnOperand(x, TOK_NOT_EXISTS, text, rest, stack, o);
    case And(l, r) =>
      RunCondition(l, Code(r) + ([TOK_AND] + rest), stack, o);
      RunCondition(r, [TOK_AND] + rest, stack + [ConditionText(l, o)], o);
      RunLogical(l, r, TOK_AND, text, rest, stack, o);
    case Or(l, r) =>
      RunCondition(l, Code(r) + ([TOK_OR] + rest), stack, o);
      RunCondition(r, [TOK_OR] + rest, stack + [ConditionText(l, o)], o);
      RunLogical(l, r, TOK_OR, text, rest, stack, o);
    case Not(sub) =>
      RunCondition(sub, [TOK_NOT] + rest, stack, o);
      RunNegation(sub, text, rest, stack, o);
  }

  lemma RunCompare(op: CompareOp, lhs: Operand, rhs: Operand, rest: seq<byte>, stack: seq<string>, o: Options)
    requires Fits(lhs) && Fits(rhs)
    ensures Run(OperandCode(lhs) + OperandCode(rhs) + [CompareToken(op)] + rest, stack, o)
         == Run(rest, stack + [OperandText(lhs, o) + " " + CompareText(op) + " " + OperandText(rhs, o)], o)
  {
    var tag := CompareToken(op);
    RunOperand(lhs, OperandCode(rhs) + ([tag] + rest), stack, o);
    RunOperand(rhs, [tag] + rest, stack + [OperandText(lhs, o)], o);
    CompareTop(OperandCode(lhs), OperandCode(rhs), OperandText(lhs, o), OperandText(rhs, o), op, rest, stack, o);
  }

  lemma CompareTop(a: seq<byte>, b: seq<byte>, x: string, y: string, op: CompareOp,
                   rest: seq<byte>, stack: seq<string>, o: Options)
    requires Run(a + (b + ([CompareToken(op)] + rest)), stack, o) == Run(b + ([CompareToken(op)] + rest), stack + [x], o)
    requires Run(b + ([CompareToken(op)] + rest), stack + [x], o) == Run([CompareToken(op)] + rest, stack + [x] + [y], o)
    ensures Run(a + b + [CompareToken(op)] + rest, stack, o) == Run(rest, stack + [x + " " + CompareText(op) + " " + y], o)
  {
    OperateOnTwo(CompareToken(op), stack, x, y);
    RunBinary(a, b, x, y, CompareToken(op), x + " " + CompareText(op) + " " + y, rest, stack, o);
  }

  lemma RunNegation(sub: Condition, text: string, rest: seq<byte>, stack: seq<string>, o: Options)
    requires text == "!(" + ConditionText(sub, o) + ")"
    requires Run(Code(sub) + ([TOK_NOT] + rest), stack, o) == Run([TOK_NOT] + rest, stack + [ConditionText(sub, o)], o)
    ensures Run(Code(sub) + [TOK_NOT] + rest, stack, o) == Run(rest, stack + [text], o)
  {
    OperateOnOne(TOK_NOT, stack, ConditionText(sub, o));
    RunUnary(Code(sub), ConditionText(sub, o), TOK_NOT, text, rest, stack, o);
  }

  lemma RunOnOperand(x: Operand, tag: byte, text: string, rest: seq<byte>, stack: seq<string>, o: Options)
    requires Fits(x) && IsOperator(tag)
    requires (tag == TOK_EXISTS && text == "Exists " + OperandText(x, o))
          || (tag == TOK_NOT_EXISTS && text == "Not_Exists " + OperandText(x, o))
          || exists m :: tag == MemberToken(m) && text == MemberText(m) + " " + OperandText(x, o)
    ensures Run(OperandCode(x) + [tag] + rest, stack, o) == Run(rest, stack + [text], o)
  {
    RunOperand(x, [tag] + rest, stack, o);
    OperateOnOne(tag, stack, OperandText(x, o));
    RunUnary(OperandCode(x), OperandText(x, o), tag, text, rest, stack, o);
  }

  lemma RunLogical(l: Condition, r: Condition, tag: byte, text: string, rest: seq<byte>, stack: seq<string>, o: Options)
    requires (tag == TOK_AND && text == "(" + ConditionText(l, o) + ") && (" + ConditionText(r, o) + ")")
          || (tag == TOK_OR && text == "(" + ConditionText(l, o) + ") || (" + ConditionText(r, o) + ")")
    requires Run(Code(l) + (Code(r) + ([tag] + rest)), stack, o) == Run(Code(r) + ([tag] + rest), stack + [ConditionText(l, o)], o)
    requires Run(Code(r) + ([tag] + rest), stack + [ConditionText(l, o)], o)
          == Run([tag] + rest, stack + [ConditionText(l, o)] + [ConditionText(r, o)], o)
    ensures Run(Code(l) + Code(r) + [tag] + rest, stack, o) == Run(rest, stack + [text], o)
  {
    OperateOnTwo(tag, stack, ConditionText(l, o), ConditionText(r, o));
    RunBinary(Code(l), Code(r), ConditionText(l, o), ConditionText(r, o), tag, text, rest, stack, o);
  }

  /** Zero padding ends the stream. */
  lemma RunPadding(n: nat, stack: seq<string>, o: Options)
    ensures Run(Zeros(n), stack, o) == Some(stack)
  {
  }

  /** An encoded condition decodes to its tree's text: one value on the stack, whatever the padding. */
  lemma DecodeOfEncoded(c: Condition, o: Options)
    requires ConditionFits(c)
    ensures DecodeCondition(EncodedBody(Code(c)), o) == Some(ConditionText(c, o))
  {
    var pad := Zeros(Padding(|Code(c)|));
    RunCondition(c, pad, [], o);
    RunPadding(|pad|, [ConditionText(c, o)], o);
    DecodeBody(Code(c), pad, ConditionText(c, o), o);
  }

  lemma DecodeBody(code: seq<byte>, pad: seq<byte>, text: string, o: Options)
    requires Run(code + pad, [], o) == Run(pad, [] + [text], o)
    requires Run(pad, [text], o) == Some([text])
    ensures DecodeCondition(ARTX + code + pad, o) == Some(text)
  {
    var body := ARTX + code + pad;
    assert body[..4] == ARTX && body[4..] == code + pad;
    assert [] + [text] == [text];
  }
}
