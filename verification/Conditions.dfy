/**
 Conditional expressions and their artx bytecode (sd/condition.go; section 2.4.4.17 of MS-DTYP).
 The builders of the source hold only encoded fragments; here each fragment is the code of an
 expression tree, so that what a fragment means can be stated.
 */
module Conditions {
  import opened Bytes
  import opened Sid
  import opened Utf16

  datatype AttrClass = Local | User | Resource | Device

  datatype Operand =
    | IntLit(n: int)
    | StringLit(s: string)
    | OctetLit(data: seq<byte>)
    | SidLit(sid: SID)
    | Attr(scope: AttrClass, name: string)
    | Composite(items: seq<Operand>)

  datatype CompareOp =
    | Equal | NotEqual | Less | LessEqual | Greater | GreaterEqual
    | Contains | AnyOf | NotContains | NotAnyOf

  datatype MemberOp =
    | MemberOf | DeviceMemberOf | MemberOfAny | DeviceMemberOfAny
    | NotMemberOf | NotDeviceMemberOf | NotMemberOfAny | NotDeviceMemberOfAny

  datatype Condition =
    | Compare(cop: CompareOp, lhs: Operand, rhs: Operand)
    | Member(mop: MemberOp, operand: Operand)
    | Exists(operand: Operand)
    | NotExists(operand: Operand)
    | And(left: Condition, right: Condition)
    | Or(left: Condition, right: Condition)
    | Not(sub: Condition)

  // --- tokens ---------------------------------------------------------

  const TOK_INT64: byte := 0x04
  const TOK_STRING: byte := 0x10
  const TOK_OCTET: byte := 0x18
  const TOK_COMPOSITE: byte := 0x50
  const TOK_SID: byte := 0x51
  const TOK_EXISTS: byte := 0x87
  const TOK_NOT_EXISTS: byte := 0x8d
  const TOK_AND: byte := 0xa0
  const TOK_OR: byte := 0xa1
  const TOK_NOT: byte := 0xa2
  const TOK_ATTR_LOCAL: byte := 0xf8
  const TOK_ATTR_USER: byte := 0xf9
  const TOK_ATTR_RESOURCE: byte := 0xfa
  const TOK_ATTR_DEVICE: byte := 0xfb
  const SIGN_NEGATIVE: byte := 0x02
  const SIGN_NONE: byte := 0x03
  const BASE_DECIMAL: byte := 0x02
  const ARTX: seq<byte> := [0x61, 0x72, 0x74, 0x78]

  function CompareToken(op: CompareOp): byte {
    match op
    case Equal => 0x80 case NotEqual => 0x81 case Less => 0x82 case LessEqual => 0x83
    case Greater => 0x84 case GreaterEqual => 0x85 case Contains => 0x86 case AnyOf => 0x88
    case NotContains => 0x8e case NotAnyOf => 0x8f
  }

  function MemberToken(op: MemberOp): byte {
    match op
    case MemberOf => 0x89 case DeviceMemberOf => 0x8a case MemberOfAny => 0x8b case DeviceMemberOfAny => 0x8c
    case NotMemberOf => 0x90 case NotDeviceMemberOf => 0x91 case NotMemberOfAny => 0x92
    case NotDeviceMemberOfAny => 0x93
  }

  function AttrToken(scope: AttrClass): byte {
    match scope
    case Local => TOK_ATTR_LOCAL case User => TOK_ATTR_USER
    case Resource => TOK_ATTR_RESOURCE case Device => TOK_ATTR_DEVICE
  }

  // --- bytecode -------------------------------------------------------

  /** A tag, a 32-bit length, the data; a length past 32 bits is truncated. */
  function TokenWith(tag: byte, data: seq<byte>): seq<byte> {
    [tag] + Le32(|data|) + data
  }

  function IntCode(n: int): seq<byte> {
    [TOK_INT64] + Le64(n) + [if n < 0 then SIGN_NEGATIVE else SIGN_NONE, BASE_DECIMAL]
  }

  function OperandCode(o: Operand): seq<byte>
    decreases o, 1
  {
    match o
    case IntLit(n) => IntCode(n)
    case StringLit(s) => TokenWith(TOK_STRING, Utf16le(s))
    case OctetLit(data) => TokenWith(TOK_OCTET, data)
    case SidLit(sid) => TokenWith(TOK_SID, Encoded(sid))
    case Attr(scope, name) => TokenWith(AttrToken(scope), Utf16le(name))
    case Composite(items) => TokenWith(TOK_COMPOSITE, ItemsCode(items))
  }

  function ItemsCode(items: seq<Operand>): seq<byte>
    decreases items, 0
  {
    if items == [] then [] else OperandCode(items[0]) + ItemsCode(items[1..])
  }

  /** The postfix token stream of a condition. */
  function Code(c: Condition): seq<byte> {
    match c
    case Compare(op, lhs, rhs) => OperandCode(lhs) + OperandCode(rhs) + [CompareToken(op)]
    case Member(op, operand) => OperandCode(operand) + [MemberToken(op)]
    case Exists(operand) => OperandCode(operand) + [TOK_EXISTS]
    case NotExists(operand) => OperandCode(operand) + [TOK_NOT_EXISTS]
    case And(l, r) => Code(l) + Code(r) + [TOK_AND]
    case Or(l, r) => Code(l) + Code(r) + [TOK_OR]
    case Not(sub) => Code(sub) + [TOK_NOT]
  }

  /** How many zero bytes bring `n` to a 4-byte boundary. */
  function Padding(n: nat): (p: nat)
    ensures p < 4 && (n + p) % 4 == 0
  {
    (4 - n % 4) % 4
  }

  /** The prefixed, padded body of a callback ACE. */
  function EncodedBody(code: seq<byte>): seq<byte> {
    ARTX + code + Zeros(Padding(|code|))
  }

  /** Encode, padding one byte at a time. */
  method Encode(code: seq<byte>) returns (out: seq<byte>)
    ensures out == EncodedBody(code)
    ensures |out| % 4 == 0
  {
    out := ARTX + code;
    var k := 0;
    while |out| % 4 != 0
      invariant k <= Padding(|code|) && out == ARTX + code + Zeros(k)
      decreases Padding(|code|) - k
    {
      out := out + [0];
      k := k + 1;
    }
  }

  /** What a token's 32-bit length can say of every operand, with integers in the 64-bit range and real SIDs. */
  ghost predicate Fits(o: Operand)
    decreases o, 1
  {
    match o
    case IntLit(n) => -TWO_63 <= n < TWO_63
    case StringLit(s) => |Utf16le(s)| < TWO_32
    case OctetLit(data) => |data| < TWO_32
    case SidLit(sid) => IsValid(sid)
    case Attr(_, name) => |Utf16le(name)| < TWO_32
    case Composite(items) => |ItemsCode(items)| < TWO_32 && AllFit(items)
  }

  ghost predicate AllFit(items: seq<Operand>)
    decreases items, 0
  {
    items == [] || (Fits(items[0]) && AllFit(items[1..]))
  }

  ghost predicate ConditionFits(c: Condition) {
    match c
    case Compare(_, lhs, rhs) => Fits(lhs) && Fits(rhs)
    case Member(_, operand) => Fits(operand)
    case Exists(operand) => Fits(operand)
    case NotExists(operand) => Fits(operand)
    case And(l, r) => ConditionFits(l) && ConditionFits(r)
    case Or(l, r) => ConditionFits(l) && ConditionFits(r)
    case Not(sub) => ConditionFits(sub)
  }
}
