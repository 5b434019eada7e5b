/**
 MessagePack values (the Formats section of the MessagePack specification) and the two iterative readers
 of sd/auditcontext.go, a pending counter and a stack of counters, proved against one recursive grammar.
 */
module MessagePack {
  import opened Wrappers
  import opened Bytes
  import Utf8

  /** Where a length is kept: in the tag, or in 1, 2 or 4 bytes after it. */
  datatype Width = InTag | W8 | W16 | W32

  /** Everything of a value but its children. */
  datatype Shell =
    | Fixed(tag: byte, data: seq<byte>)
    | Str(w: Width, s: seq<byte>)
    | Bin(w: Width, data: seq<byte>)
    | Ext(w: Width, kind: byte, data: seq<byte>)
    | Array(w: Width, n: nat)
    | Map(w: Width, n: nat)

  /** A value: its shell and as many children as the shell calls for; a map's are its keys and values in turn. */
  datatype Value = Value(shell: Shell, children: seq<Value>)

  // --- the grammar -----------------------------------------------------

  /** The payload length of a tag that fixes it: nil, booleans, numbers and fixext. */
  function FixedSize(tag: byte): Option<nat> {
    if tag <= 0x7F || tag >= 0xE0 || tag == 0xC0 || tag == 0xC2 || tag == 0xC3 then Some(0)
    else if tag == 0xCC || tag == 0xD0 then Some(1)
    else if tag == 0xCD || tag == 0xD1 || tag == 0xD4 then Some(2)
    else if tag == 0xD5 then Some(3)
    else if tag == 0xCA || tag == 0xCE || tag == 0xD2 then Some(4)
    else if tag == 0xD6 then Some(5)
    else if tag == 0xCB || tag == 0xCF || tag == 0xD3 then Some(8)
    else if tag == 0xD7 then Some(9)
    else if tag == 0xD8 then Some(17)
    else None
  }

  /** A number in 0, 1, 2 or 4 bytes, high byte first. */
  function Be(n: nat, w: Width): (b: seq<byte>)
    ensures |b| == Room(w)
  {
    match w
    case InTag => []
    case W8 => [Low(n)]
    case W16 => [Low(n / 0x100), Low(n)]
    case W32 => [Low(n / 0x100_0000), Low(n / 0x1_0000), Low(n / 0x100), Low(n)]
  }

  function Room(w: Width): nat {
    match w case InTag => 0 case W8 => 1 case W16 => 2 case W32 => 4
  }

  /** The bound on a length kept in `w`, given how many the tag has room for. */
  function Limit(w: Width, inTag: nat): nat {
    match w case InTag => inTag case W8 => 0x100 case W16 => TWO_16 case W32 => TWO_32
  }

  function TagOf(sh: Shell): byte
    requires ShellOk(sh)
  {
    match sh
    case Fixed(tag, _) => tag
    case Str(w, s) => (match w case InTag => (0xA0 + |s|) as byte case W8 => 0xD9 case W16 => 0xDA case W32 => 0xDB)
    case Bin(w, _) => (match w case InTag => 0xC1 case W8 => 0xC4 case W16 => 0xC5 case W32 => 0xC6)
    case Ext(w, _, _) => (match w case InTag => 0xC1 case W8 => 0xC7 case W16 => 0xC8 case W32 => 0xC9)
    case Array(w, n) => (match w case InTag => (0x90 + n) as byte case W16 => 0xDC case W32 => 0xDD case W8 => 0xC1)
    case Map(w, n) => (match w case InTag => (0x80 + n) as byte case W16 => 0xDE case W32 => 0xDF case W8 => 0xC1)
  }

  /** A shell in one of the formats: its length fits where it is kept, and a string is UTF-8. */
  predicate ShellOk(sh: Shell) {
    match sh
    case Fixed(tag, data) => FixedSize(tag) == Some(|data|)
    case Str(w, s) => |s| < Limit(w, 32) && Utf8.Valid(s)
    case Bin(w, data) => w != InTag && |data| < Limit(w, 0)
    case Ext(w, _, data) => w != InTag && |data| < Limit(w, 0)
    case Array(w, n) => w != W8 && n < Limit(w, 16)
    case Map(w, n) => w != W8 && n < Limit(w, 16)
  }

  function ShellBytes(sh: Shell): (b: seq<byte>)
    requires ShellOk(sh)
    ensures |b| >= 1
  {
    match sh
    case Fixed(tag, data) => [tag] + data
    case Str(w, s) => [TagOf(sh)] + Be(|s|, w) + s
    case Bin(w, data) => [TagOf(sh)] + Be(|data|, w) + data
    case Ext(w, kind, data) => [TagOf(sh)] + Be(|data|, w) + ([kind] + data)
    case Array(w, n) => [TagOf(sh)] + Be(n, w)
    case Map(w, n) => [TagOf(sh)] + Be(n, w)
  }

  /** How many children a shell calls for. */
  function Arity(sh: Shell): nat {
    match sh case Array(_, n) => n case Map(_, n) => 2 * n case _ => 0
  }

  ghost predicate WellFormed(v: Value)
    decreases v, 1
  {
    ShellOk(v.shell) && |v.children| == Arity(v.shell) && AllWellFormed(v.children)
  }

  ghost predicate AllWellFormed(vs: seq<Value>)
    decreases vs, 0
  {
    vs == [] || (WellFormed(vs[0]) && AllWellFormed(vs[1..]))
  }

  /** The bytes of a value. */
  ghost function Encode(v: Value): (b: seq<byte>)
    requires WellFormed(v)
    ensures |b| >= 1
    decreases v, 1
  {
    ShellBytes(v.shell) + EncodeAll(v.children)
  }

  ghost function EncodeAll(vs: seq<Value>): (b: seq<byte>)
    requires AllWellFormed(vs)
    ensures |b| >= |vs|
    decreases vs, 0
  {
    if vs == [] then [] else Encode(vs[0]) + EncodeAll(vs[1..])
  }

  /** Nesting: the top level is 1, and a non-empty container's children sit one level deeper. */
  function Depth(v: Value): nat
    decreases v, 1
  {
    1 + DepthOfAll(v.children)
  }

  function DepthOfAll(vs: seq<Value>): nat
    decreases vs, 0
  {
    if vs == [] then 0 else if Depth(vs[0]) > DepthOfAll(vs[1..]) then Depth(vs[0]) else DepthOfAll(vs[1..])
  }

  // --- one shell -------------------------------------------------------

  function ReadBe(b: seq<byte>, w: Width): (n: nat)
    requires |b| >= Room(w)
    ensures n < Limit(w, 1)
  {
    match w
    case InTag => 0
    case W8 => b[0] as int
    case W16 => 0x100 * b[0] as int + b[1] as int
    case W32 => 0x100_0000 * b[0] as int + 0x1_0000 * b[1] as int + 0x100 * b[2] as int + b[3] as int
  }

  datatype Class = Plain | Text | Blob | Extension | List | Dict

  /** What a tag opens and where its length is; 0xC1 opens nothing. */
  function Classify(tag: byte): Option<(Class, Width)> {
    if 0x80 <= tag <= 0x8F then Some((Dict, InTag))
    else if 0x90 <= tag <= 0x9F then Some((List, InTag))
    else if 0xA0 <= tag <= 0xBF then Some((Text, InTag))
    else if tag == 0xC4 then Some((Blob, W8)) else if tag == 0xC5 then Some((Blob, W16))
    else if tag == 0xC6 then Some((Blob, W32))
    else if tag == 0xC7 then Some((Extension, W8)) else if tag == 0xC8 then Some((Extension, W16))
    else if tag == 0xC9 then Some((Extension, W32))
    else if tag == 0xD9 then Some((Text, W8)) else if tag == 0xDA then Some((Text, W16))
    else if tag == 0xDB then Some((Text, W32))
    else if tag == 0xDC then Some((List, W16)) else if tag == 0xDD then Some((List, W32))
    else if tag == 0xDE then Some((Dict, W16)) else if tag == 0xDF then Some((Dict, W32))
    else if FixedSize(tag).Some? then Some((Plain, InTag))
    else None
  }

  /** The length a tag and the bytes after it give. */
  function LengthAt(b: seq<byte>, c: Class, w: Width): nat
    requires b != [] && Classify(b[0]) == Some((c, w)) && |b| >= 1 + Room(w)
  {
    if w != InTag then ReadBe(b[1..], w)
    else if c == Dict then b[0] as int - 0x80
    else if c == List then b[0] as int - 0x90
    else if c == Text then b[0] as int - 0xA0
    else if c == Plain then FixedSize(b[0]).value
    else 0
  }

  /** The shell at the start of `b`. */
  function ReadShell(b: seq<byte>): (r: Option<Shell>)
  {
    if b == [] || Classify(b[0]).None? then None
    else
      var (c, w) := Classify(b[0]).value;
      if |b| < 1 + Room(w) then None
      else
        var n := LengthAt(b, c, w);
        var at := 1 + Room(w);
        match c
        case List => Some(Array(w, n))
        case Dict => Some(Map(w, n))
        case Text => if at + n > |b| || !Utf8.Valid(b[at..at + n]) then None else Some(Str(w, b[at..at + n]))
        case Blob => if at + n > |b| then None else Some(Bin(w, b[at..at + n]))
        case Plain => if at + n > |b| then None else Some(Fixed(b[0], b[at..at + n]))
        case Extension => if at + 1 + n > |b| then None else Some(Ext(w, b[at], b[at + 1..at + 1 + n]))
  }

  lemma BeOfReadBe(b: seq<byte>, w: Width)
    requires |b| >= Room(w)
    ensures Be(ReadBe(b, w), w) == b[..Room(w)]
  {
    if w == W16 {
      Shift(ReadBe(b, w), b[0] as int, b[1]);
    } else if w == W32 {
      var h1 := b[0] as int;
      var h2 := h1 * 256 + b[1] as int;
      var h3 := h2 * 256 + b[2] as int;
      var n := ReadBe(b, w);
      Shift(n, h3, b[3]);
      Shift(h3, h2, b[2]);
      Shift(h2, h1, b[1]);
      assert n / 0x1_0000 == h3 / 256 && n / 0x100_0000 == h2 / 256;
    }
  }

  lemma ReadBeOfBe(n: nat, w: Width, rest: seq<byte>)
    requires n < Limit(w, 1)
    ensures ReadBe(Be(n, w) + rest, w) == n
  {
    if w == W32 {
      var n1, n2, n3 := n / 0x100, n / 0x1_0000, n / 0x100_0000;
      assert n2 == n1 / 0x100 && n3 == n2 / 0x100;
      assert n == 0x100 * n1 + n % 0x100 && n1 == 0x100 * n2 + n1 % 0x100 && n2 == 0x100 * n3 + n2 % 0x100;
    }
  }

  lemma TagIsRead(b: seq<byte>)
    requires ReadShell(b).Some?
    ensures var sh := ReadShell(b).value; ShellOk(sh) && TagOf(sh) == b[0]
  {
    hide Utf8.Valid;
  }

  /** The parts of a shell's bytes: tag, length, and what the length covers. */
  function Body(sh: Shell): seq<byte> {
    match sh
    case Fixed(_, data) => data
    case Str(_, s) => s
    case Bin(_, data) => data
    case Ext(_, kind, data) => [kind] + data
    case Array(_, _) => []
    case Map(_, _) => []
  }

  function LengthOf(sh: Shell): (nat, Width) {
    match sh
    case Fixed(_, _) => (0, InTag)
    case Str(w, s) => (|s|, w)
    case Bin(w, data) => (|data|, w)
    case Ext(w, _, data) => (|data|, w)
    case Array(w, n) => (n, w)
    case Map(w, n) => (n, w)
  }

  lemma ShellParts(sh: Shell)
    requires ShellOk(sh)
    ensures ShellBytes(sh) == [TagOf(sh)] + Be(LengthOf(sh).0, LengthOf(sh).1) + Body(sh)
  {
    hide Utf8.Valid, Be;
  }

  /** What follows the tag of a shell just read. */
  lemma PartsAreRead(b: seq<byte>)
    requires ReadShell(b).Some?
    ensures var sh := ReadShell(b).value;
            var (n, w) := LengthOf(sh);
            var at := 1 + Room(w);
            && at + |Body(sh)| <= |b| && b[at..at + |Body(sh)|] == Body(sh) && Be(n, w) == b[1..at]
  {
    var (c, w) := Classify(b[0]).value;
    BeOfReadBe(b[1..], w);
    LengthIsRead(b);
    hide Utf8.Valid, ReadBe, Be, Classify;
    var at := 1 + Room(w);
    assert b[1..][..Room(w)] == b[1..at];
    if c == Extension {
      var n := LengthAt(b, c, w);
      assert b[at..at + 1 + n] == [b[at]] + b[at + 1..at + 1 + n];
    }
  }

  /** The length of a shell just read is kept where its tag says; a length kept in the tag takes no bytes. */
  lemma LengthIsRead(b: seq<byte>)
    requires ReadShell(b).Some?
    ensures var (c, w) := Classify(b[0]).value;
            var (n, v) := LengthOf(ReadShell(b).value);
            v == w && Be(n, w) == Be(ReadBe(b[1..], w), w)
  {
    hide Utf8.Valid, ReadBe, Low;
  }

  /** Reading a shell gives one in the grammar, spelled as it was read. */
  lemma ShellIsRead(b: seq<byte>)
    requires ReadShell(b).Some?
    ensures var sh := ReadShell(b).value; ShellOk(sh) && ShellBytes(sh) <= b
  {
    var sh := ReadShell(b).value;
    TagIsRead(b);
    PartsAreRead(b);
    ShellParts(sh);
    hide ReadShell, ShellOk, ShellBytes, TagOf, Be, Body, LengthOf;
    var at := 1 + Room(LengthOf(sh).1);
    assert b[..at + |Body(sh)|] == [b[0]] + b[1..at] + b[at..at + |Body(sh)|];
  }

  /** And every shell is read back, whatever follows it. */
  lemma ShellReadsBack(sh: Shell, rest: seq<byte>)
    requires ShellOk(sh)
    ensures ReadShell(ShellBytes(sh) + rest) == Some(sh)
  {
    ShellParts(sh);
    var (n, w) := LengthOf(sh);
    var b := ShellBytes(sh) + rest;
    ClassOfTag(sh);
    hide Utf8.Valid, ShellBytes, TagOf, ReadBe, Be, Classify, ShellOk, ReadShell;
    LengthFits(sh);
    ShellLayout(TagOf(sh), Be(n, w), Body(sh), rest);
    if w != InTag {
      ReadBeOfBe(n, w, Body(sh) + rest);
    }
    ReadsFromParts(b, sh, w, n);
  }

  lemma ShellLayout(t: byte, be: seq<byte>, body: seq<byte>, rest: seq<byte>)
    ensures var b := [t] + be + body + rest;
            b[0] == t && b[1..] == be + (body + rest) && b[1 + |be|..][..|body|] == body
  {
    var b := [t] + be + body + rest;
    assert b[1 + |be|..] == body + rest;
  }

  lemma LengthFits(sh: Shell)
    requires ShellOk(sh)
    ensures var (n, w) := LengthOf(sh); w != InTag ==> n < Limit(w, 1)
  {
    hide Utf8.Valid;
  }

  /** How a shell's tag is classified. */
  lemma ClassOfTag(sh: Shell)
    requires ShellOk(sh)
    ensures Classify(TagOf(sh)) == Some((match sh case Fixed(_, _) => Plain case Str(_, _) => Text case Bin(_, _) => Blob
                                         case Ext(_, _, _) => Extension case Array(_, _) => List case Map(_, _) => Dict,
                                         LengthOf(sh).1))
    ensures LengthOf(sh).1 == InTag && !sh.Fixed? ==>
              TagOf(sh) as int == LengthOf(sh).0 + (if sh.Str? then 0xA0 else if sh.Array? then 0x90 else 0x80)
  {
    hide Utf8.Valid;
  }

  lemma ReadsFromParts(b: seq<byte>, sh: Shell, w: Width, n: nat)
    requires ShellOk(sh) && LengthOf(sh) == (n, w) && |b| >= 1 + Room(w) + |Body(sh)|
    requires b[0] == TagOf(sh) && (w != InTag ==> ReadBe(b[1..], w) == n)
    requires b[1 + Room(w)..][..|Body(sh)|] == Body(sh)
    ensures ReadShell(b) == Some(sh)
  {
    ClassOfTag(sh);
    hide Utf8.Valid, TagOf, ReadBe, Classify;
    var at := 1 + Room(w);
    assert b[at..at + |Body(sh)|] == Body(sh);
    if sh.Ext? {
      assert b[at] == Body(sh)[0] && b[at + 1..at + |Body(sh)|] == Body(sh)[1..];
    }
  }

  // --- a reference reader ----------------------------------------------

  /** The value at the start of `b`, and what follows it. */
  ghost function Read(b: seq<byte>): (r: Option<(Value, seq<byte>)>)
    ensures r.Some? ==> |r.value.1| < |b|
    decreases |b|, 1, 0
  {
    var sh :- ReadShell(b);
    ShellIsRead(b);
    var (children, rest) :- ReadMany(b[|ShellBytes(sh)|..], Arity(sh));
    Some((Value(sh, children), rest))
  }

  ghost function ReadMany(b: seq<byte>, n: nat): (r: Option<(seq<Value>, seq<byte>)>)
    ensures r.Some? ==> |r.value.1| + n <= |b| && |r.value.0| == n
    decreases |b|, 2, n
  {
    if n == 0 then Some(([], b))
    else
      var (v, rest) :- Read(b);
      var (vs, after) :- ReadMany(rest, n - 1);
      Some(([v] + vs, after))
  }

  /** Whatever the reader accepts is a value of the grammar, spelled exactly so. */
  lemma {:induction false} ReadIsGrammar(b: seq<byte>)
    requires Read(b).Some?
    ensures var (v, rest) := Read(b).value; WellFormed(v) && b == Encode(v) + rest
    decreases |b|, 1, 0
  {
    var sh := ReadShell(b).value;
    ShellIsRead(b);
    var tail := b[|ShellBytes(sh)|..];
    ReadManyIsGrammar(tail, Arity(sh));
    hide ShellBytes, ReadShell, ReadMany, Arity, ShellOk, AllWellFormed;
    assert b == ShellBytes(sh) + tail;
    var (vs, rest) := ReadMany(tail, Arity(sh)).value;
    Regroup(ShellBytes(sh), EncodeAll(vs), rest);
  }

  lemma Regroup(a: seq<byte>, b: seq<byte>, c: seq<byte>)
    ensures a + (b + c) == a + b + c
  {
  }

  lemma {:induction false} ReadManyIsGrammar(b: seq<byte>, n: nat)
    requires ReadMany(b, n).Some?
    ensures var (vs, rest) := ReadMany(b, n).value; AllWellFormed(vs) && b == EncodeAll(vs) + rest
    decreases |b|, 2, n
  {
    hide Read, WellFormed, Encode;
    if n == 0 {
      assert EncodeAll([]) + b == b;
    } else {
      ReadIsGrammar(b);
      var (v, rest) := Read(b).value;
      ReadManyIsGrammar(rest, n - 1);
      var (vs, after) := ReadMany(rest, n - 1).value;
      assert ([v] + vs)[1..] == vs;
      assert Encode(v) + (EncodeAll(vs) + after) == Encode(v) + EncodeAll(vs) + after;
    }
  }

  /** And every value of the grammar is read back, whatever follows it. */
  lemma {:induction false} GrammarIsRead(v: Value, rest: seq<byte>)
    requires WellFormed(v)
    ensures Read(Encode(v) + rest) == Some((v, rest))
    decreases v, 1
  {
    var b, tail := Encode(v) + rest, EncodeAll(v.children) + rest;
    assert b == ShellBytes(v.shell) + tail;
    ShellReadsBack(v.shell, tail);
    ManyAreRead(v.children, rest);
    assert b[|ShellBytes(v.shell)|..] == tail;
  }

  lemma {:induction false} ManyAreRead(vs: seq<Value>, rest: seq<byte>)
    requires AllWellFormed(vs)
    ensures ReadMany(EncodeAll(vs) + rest, |vs|) == Some((vs, rest))
    decreases vs, 0
  {
    hide Read, WellFormed, Encode;
    if vs == [] {
      assert EncodeAll(vs) + rest == rest;
    } else {
      var tail := EncodeAll(vs[1..]) + rest;
      GrammarIsRead(vs[0], tail);
      ManyAreRead(vs[1..], rest);
      assert EncodeAll(vs) + rest == Encode(vs[0]) + tail;
      assert vs == [vs[0]] + vs[1..];
    }
  }

  /** No two values share a spelling, nor is one's spelling the beginning of another's. */
  lemma Unambiguous(v: Value, u: Value, r: seq<byte>, q: seq<byte>)
    requires WellFormed(v) && WellFormed(u) && Encode(v) + r == Encode(u) + q
    ensures v == u && r == q
  {
    hide Read, WellFormed, Encode;
    GrammarIsRead(v, r);
    GrammarIsRead(u, q);
  }

  // --- what the readers rely on ----------------------------------------

  const MAX_INT32 := 0x7FFF_FFFF

  /** One step of a reader: the size of the shell and how many values follow it; every one takes a byte at least. */
  function StepAt(b: seq<byte>): (r: Option<(nat, nat)>)
    ensures r.Some? ==> 1 <= r.value.0 <= |b| && r.value.1 <= |b| - r.value.0
  {
    var sh :- ReadShell(b);
    ShellIsRead(b);
    var n := |ShellBytes(sh)|;
    if Arity(sh) > |b| - n then None else Some((n, Arity(sh)))
  }

  /** What is left once `n` values have been passed over, shell by shell. */
  function Skip(b: seq<byte>, n: nat): (r: Option<seq<byte>>)
    ensures r.Some? ==> n <= |b| && |r.value| <= |b| - n
    decreases |b|, n
  {
    if n == 0 then Some(b)
    else
      var (size, children) :- StepAt(b);
      var rest :- Skip(b[size..], n - 1 + children);
      Some(rest)
  }

  lemma {:induction false} SkipAppend(b: seq<byte>, m: nat, n: nat)
    ensures Skip(b, m + n) == match Skip(b, m) case None => None case Some(rest) => Skip(rest, n)
    decreases |b|, m
  {
    hide StepAt;
    if m > 0 && StepAt(b).Some? {
      var (size, children) := StepAt(b).value;
      SkipAppend(b[size..], m - 1 + children, n);
      assert m - 1 + children + n == m + n - 1 + children;
    }
  }

  /** Passing over values flat, counting those still due, is reading them as trees. */
  lemma {:induction false} SkipIsRead(b: seq<byte>)
    ensures Skip(b, 1) == match Read(b) case None => None case Some((_, rest)) => Some(rest)
    decreases |b|, 1, 0
  {
    if ReadShell(b).Some? {
      ShellIsRead(b);
      var sh := ReadShell(b).value;
      var tail := b[|ShellBytes(sh)|..];
      SkipIsReadMany(tail, Arity(sh));
      hide ReadShell, ShellBytes, Arity, ReadMany;
    }
  }

  lemma SkipNothing(b: seq<byte>)
    ensures Skip(b, 0) == Some(b)
  {
  }

  lemma {:induction false} SkipIsReadMany(b: seq<byte>, n: nat)
    ensures Skip(b, n) == match ReadMany(b, n) case None => None case Some((_, rest)) => Some(rest)
    decreases |b|, 2, n
  {
    hide Skip, Read;
    SkipNothing(b);
    if n > 0 {
      SkipIsRead(b);
      SkipAppend(b, 1, n - 1);
      if Read(b).Some? {
        SkipIsReadMany(Read(b).value.1, n - 1);
      }
    }
  }

  /** A value passed over with at most `limit` levels of nesting. */
  function Nested(b: seq<byte>, limit: nat): (r: Option<seq<byte>>)
    requires limit >= 1
    ensures r.Some? ==> |r.value| < |b|
    decreases |b|, 1, 0
  {
    var (size, children) :- StepAt(b);
    if children == 0 then Some(b[size..])
    else if limit == 1 then None
    else NestedMany(b[size..], children, limit - 1)
  }

  function NestedMany(b: seq<byte>, n: nat, limit: nat): (r: Option<seq<byte>>)
    requires limit >= 1
    ensures r.Some? ==> |r.value| + n <= |b|
    decreases |b|, 2, n
  {
    if n == 0 then Some(b)
    else
      var rest :- Nested(b, limit);
      NestedMany(rest, n - 1, limit)
  }

  /** That is: the values of the grammar whose depth is within the limit. */
  lemma {:induction false} NestedIsRead(b: seq<byte>, limit: nat)
    requires limit >= 1
    ensures Nested(b, limit) == match Read(b) case None => None
                                              case Some((v, rest)) => if Depth(v) <= limit then Some(rest) else None
    decreases |b|, 1, 0
  {
    if ReadShell(b).Some? {
      ShellIsRead(b);
      var sh := ReadShell(b).value;
      var tail := b[|ShellBytes(sh)|..];
      if limit > 1 {
        NestedIsReadMany(tail, Arity(sh), limit - 1);
      }
      hide ReadShell, ShellBytes, Arity, ReadMany, Nested;
      NestedShell(b, limit, sh, tail);
    }
  }

  lemma NestedShell(b: seq<byte>, limit: nat, sh: Shell, tail: seq<byte>)
    requires limit >= 1 && ReadShell(b) == Some(sh) && ShellOk(sh) && |ShellBytes(sh)| <= |b| && tail == b[|ShellBytes(sh)|..]
    requires limit > 1 ==>
               NestedMany(tail, Arity(sh), limit - 1) ==
               match ReadMany(tail, Arity(sh)) case None => None
                                               case Some((vs, rest)) => if DepthOfAll(vs) <= limit - 1 then Some(rest) else None
    ensures Nested(b, limit) == match ReadMany(tail, Arity(sh)) case None => None
                                case Some((vs, rest)) => if 1 + DepthOfAll(vs) <= limit then Some(rest) else None
  {
    hide ReadShell, ShellBytes, Arity, Read, Depth;
    if Arity(sh) > 0 && ReadMany(tail, Arity(sh)).Some? {
      var vs := ReadMany(tail, Arity(sh)).value.0;
      DepthIsPositive(vs[0]);
    }
  }

  lemma DepthIsPositive(v: Value)
    ensures Depth(v) >= 1
  {
  }

  lemma {:induction false} NestedIsReadMany(b: seq<byte>, n: nat, limit: nat)
    requires limit >= 1
    ensures NestedMany(b, n, limit) == match ReadMany(b, n) case None => None
                                       case Some((vs, rest)) => if DepthOfAll(vs) <= limit then Some(rest) else None
    decreases |b|, 2, n
  {
    hide Nested, Read, Depth;
    if n > 0 {
      NestedIsRead(b, limit);
      if Read(b).Some? {
        var (v, rest) := Read(b).value;
        NestedIsReadMany(rest, n - 1, limit);
        if ReadMany(rest, n - 1).Some? {
          assert ([v] + ReadMany(rest, n - 1).value.0)[1..] == ReadMany(rest, n - 1).value.0;
        }
      }
    }
  }

  // --- the cursor ------------------------------------------------------

  /** Big-endian bytes, folded as they are read. */
  function Folded(b: seq<byte>): nat {
    if b == [] then 0 else 0x100 * Folded(b[..|b| - 1]) + b[|b| - 1] as int
  }

  lemma FoldedIsReadBe(b: seq<byte>, w: Width)
    requires |b| >= Room(w)
    ensures Folded(b[..Room(w)]) == ReadBe(b, w)
  {
    if w != InTag {
      FoldedStep(b, 0);
      if w != W8 {
        FoldedStep(b, 1);
        if w != W16 {
          FoldedStep(b, 2);
          FoldedStep(b, 3);
        }
      }
    }
  }

  lemma FoldedStep(b: seq<byte>, n: nat)
    requires n < |b|
    ensures Folded(b[..n + 1]) == 0x100 * Folded(b[..n]) + b[n] as int
  {
    assert b[..n + 1][..n] == b[..n];
  }

  /** What a tag asks for: how many children follow, and how many bytes to pass over before them. */
  function Asks(c: Class, n: nat): (nat, nat) {
    match c
    case List => (n, 0)
    case Dict => (2 * n, 0)
    case Extension => (0, n + 1)
    case _ => (0, n)
  }

  /** mpCursor. */
  class Cursor {
    const b: seq<byte>
    var pos: nat

    constructor (b: seq<byte>)
      ensures this.b == b && pos == 0
    {
      this.b, pos := b, 0;
    }

    ghost predicate Valid()
      reads this
    {
      pos <= |b| && |b| <= MAX_INT32
    }

    method Take(n: nat) returns (r: Option<seq<byte>>)
      requires Valid()
      modifies this`pos
      ensures Valid()
      ensures n <= |b| - old(pos) ==> r == Some(b[old(pos)..old(pos) + n]) && pos == old(pos) + n
      ensures n > |b| - old(pos) ==> r == None && pos == old(pos)
    {
      if n > |b| - pos {
        return None;
      }
      r := Some(b[pos..pos + n]);
      pos := pos + n;
    }

    /** A big-endian length; one beyond the range of int32 is refused. */
    method BeInt(w: Width) returns (r: Option<nat>)
      requires Valid()
      modifies this`pos
      ensures Valid() && pos >= old(pos)
      ensures r == if Room(w) > |b| - old(pos) || ReadBe(b[old(pos)..], w) > MAX_INT32 then None
                   else Some(ReadBe(b[old(pos)..], w))
      ensures r.Some? ==> pos == old(pos) + Room(w)
    {
      ghost var start := pos;
      var raw := Take(Room(w));
      if raw.None? {
        return None;
      }
      var v := 0;
      for i := 0 to |raw.value|
        invariant v == Folded(raw.value[..i])
      {
        assert raw.value[..i + 1][..i] == raw.value[..i];
        v := 0x100 * v + raw.value[i] as int;
      }
      assert raw.value[..|raw.value|] == raw.value;
      FoldedIsReadBe(b[start..], w);
      assert b[start..][..Room(w)] == b[start..start + Room(w)];
      r := if v > MAX_INT32 then None else Some(v);
    }

    /** The length that goes with a tag just taken: in the tag, or in the bytes after it. */
    method Length(t: byte, c: Class, w: Width) returns (r: Option<nat>)
      requires Valid() && pos >= 1 && t == b[pos - 1] && Classify(t) == Some((c, w))
      modifies this`pos
      ensures Valid() && pos >= old(pos)
      ensures var s := b[old(pos) - 1..];
              r == if |s| < 1 + Room(w) || (w != InTag && LengthAt(s, c, w) > MAX_INT32) then None else Some(LengthAt(s, c, w))
      ensures r.Some? ==> pos == old(pos) + Room(w)
    {
      hide ReadBe;
      ghost var s := b[pos - 1..];
      assert s[1..] == b[pos..];
      if w != InTag {
        r := BeInt(w);
      } else {
        match c {
          case Dict => r := Some(t as int - 0x80);
          case List => r := Some(t as int - 0x90);
          case Text => r := Some(t as int - 0xA0);
          case Plain => r := FixedSize(t);
          case _ => r := Some(0);
        }
      }
    }

    /** step: one shell passed over, and how many children follow it. */
    method Step() returns (r: Option<nat>)
      requires Valid()
      modifies this`pos
      ensures Valid() && pos >= old(pos)
      ensures match StepAt(b[old(pos)..]) case None => r == None
              case Some((size, children)) => r == Some(children) && pos == old(pos) + size
    {
      hide Classify, StepAt, Utf8.Valid;
      ghost var start := pos;
      ghost var s := b[start..];
      StepReads(s);
      var tag := Take(1);
      if tag.None? {
        return None;
      }
      var t := tag.value[0];
      assert t == s[0];
      var cw := Classify(t);
      if cw.None? {
        return None;
      }
      var (c, w) := cw.value;
      var n := Length(t, c, w);
      if n.None? {
        return None;
      }
      var (children, skip) := Asks(c, n.value);
      var at := pos;
      assert s[1 + Room(w)..][..] == b[at..];
      var payload := Take(skip);
      if payload.None? {
        return None;
      }
      assert payload.value == s[1 + Room(w)..1 + Room(w) + skip];
      if c == Text && !Utf8.Valid(payload.value) {
        return None;
      }
      if children > |b| - pos {
        return None;
      }
      r := Some(children);
    }

    /** skipValue: one complete value passed over, counting those still due. */
    method SkipValue() returns (ok: bool)
      requires Valid()
      modifies this`pos
      ensures Valid() && pos >= old(pos)
      ensures ok <==> Read(b[old(pos)..]).Some?
      ensures ok ==> b[pos..] == Read(b[old(pos)..]).value.1
    {
      hide StepAt, Read, Skip;
      ghost var start := pos;
      SkipIsRead(b[start..]);
      var pending: nat := 1;
      while pending > 0
        invariant Valid() && pos >= start
        invariant Skip(b[start..], 1) == Skip(b[pos..], pending)
        decreases |b| - pos, pending
      {
        ghost var at := pos;
        SkipStep(b[at..], pending);
        pending := pending - 1;
        var children := Step();
        if children.None? {
          return false;
        }
        assert b[at..][pos - at..] == b[pos..];
        pending := pending + children.value;
        if pending > |b| - pos {
          TooManyDue(b[pos..], pending);
          return false;
        }
      }
      SkipNothing(b[pos..]);
      ok := true;
    }
  }

  lemma SkipStep(b: seq<byte>, n: nat)
    requires n > 0
    ensures Skip(b, n) == match StepAt(b) case None => None
                                          case Some((size, children)) => Skip(b[size..], n - 1 + children)
  {
    hide StepAt;
  }

  /** The early exit loses nothing: more values due than bytes left cannot be met. */
  lemma TooManyDue(b: seq<byte>, n: nat)
    requires n > |b|
    ensures Skip(b, n) == None
  {
  }

  /** The frames of mpWellFormed: how many values each open container still lacks, outermost first. */
  function Stacked(b: seq<byte>, stack: seq<nat>, maxDepth: nat): Option<seq<byte>>
    requires |stack| <= maxDepth
    decreases |stack|
  {
    if stack == [] then Some(b)
    else
      var rest :- NestedMany(b, stack[|stack| - 1], maxDepth - |stack| + 1);
      Stacked(rest, stack[..|stack| - 1], maxDepth)
  }

  /** One more value read on top of the stack opens a frame for its children. */
  lemma StackStep(b: seq<byte>, below: seq<nat>, n: nat, maxDepth: nat)
    requires |below| < maxDepth && n > 0
    ensures Stacked(b, below + [n], maxDepth) ==
            match StepAt(b)
            case None => None
            case Some((size, children)) =>
              if children == 0 then Stacked(b[size..], below + [n - 1], maxDepth)
              else if |below| + 1 == maxDepth then None
              else Stacked(b[size..], below + [n - 1] + [children], maxDepth)
  {
    hide StepAt, Nested, NestedMany, Stacked;
    var limit := maxDepth - |below|;
    var stack := below + [n];
    assert stack[..|stack| - 1] == below;
    StackTop(b, stack, maxDepth);
    NestedManyStep(b, n, limit);
    NestedStep(b, limit);
    match StepAt(b) {
      case None =>
      case Some((size, children)) =>
        var rest, less := b[size..], below + [n - 1];
        assert less[..|less| - 1] == below;
        if children == 0 {
          StackTop(rest, less, maxDepth);
        } else if limit > 1 {
          var more := less + [children];
          assert more[..|more| - 1] == less;
          StackTop(rest, more, maxDepth);
          if NestedMany(rest, children, limit - 1).Some? {
            StackTop(NestedMany(rest, children, limit - 1).value, less, maxDepth);
          }
        }
    }
  }

  lemma NestedStep(b: seq<byte>, limit: nat)
    requires limit >= 1
    ensures Nested(b, limit) == match StepAt(b) case None => None
            case Some((size, children)) =>
              if children == 0 then Some(b[size..])
              else if limit == 1 then None
              else NestedMany(b[size..], children, limit - 1)
  {
    hide StepAt, NestedMany;
  }

  lemma NestedManyStep(b: seq<byte>, n: nat, limit: nat)
    requires limit >= 1 && n > 0
    ensures NestedMany(b, n, limit) == match Nested(b, limit) case None => None
                                                              case Some(rest) => NestedMany(rest, n - 1, limit)
  {
    hide Nested;
  }

  lemma StackTop(b: seq<byte>, stack: seq<nat>, maxDepth: nat)
    requires 0 < |stack| <= maxDepth
    ensures Stacked(b, stack, maxDepth) ==
            match NestedMany(b, stack[|stack| - 1], maxDepth - |stack| + 1)
            case None => None
            case Some(rest) => Stacked(rest, stack[..|stack| - 1], maxDepth)
  {
    hide NestedMany;
  }

  lemma StackPop(b: seq<byte>, below: seq<nat>, maxDepth: nat)
    requires |below| < maxDepth
    ensures Stacked(b, below + [0], maxDepth) == Stacked(b, below, maxDepth)
  {
    assert (below + [0])[..|below|] == below;
  }

  lemma StackOfOne(b: seq<byte>, maxDepth: nat)
    requires maxDepth >= 1
    ensures Stacked(b, [1], maxDepth) == Nested(b, maxDepth)
  {
    var stack: seq<nat> := [1];
    NestedOne(b, maxDepth);
    assert stack[..0] == [];
  }

  lemma NestedOne(b: seq<byte>, limit: nat)
    requires limit >= 1
    ensures NestedMany(b, 1, limit) == Nested(b, limit)
  {
    hide StepAt;
    if Nested(b, limit).Some? {
      assert NestedMany(Nested(b, limit).value, 0, limit) == Nested(b, limit);
    }
  }

  /**
   mpWellFormed: one value that takes every byte, nested within the limit. Its explicit stack, and its early
   exits, accept exactly the values of the grammar.
   */
  method MpWellFormed(b: seq<byte>, maxDepth: nat) returns (ok: bool)
    requires maxDepth >= 1 && |b| <= MAX_INT32
    ensures ok <==> exists v: Value :: WellFormed(v) && Encode(v) == b && Depth(v) <= maxDepth
  {
    hide StepAt, Read, Nested, NestedMany, Stacked, WellFormed, Encode, Depth;
    var c := new Cursor(b);
    var stack: seq<nat> := [1];
    assert b[0..] == b;
    StackOfOne(b, maxDepth);
    NestedMeansOne(b, maxDepth);
    while |stack| > 0
      invariant c.Valid() && c.b == b && |stack| <= maxDepth
      invariant Nested(b, maxDepth) == Stacked(b[c.pos..], stack, maxDepth)
      decreases |b| - c.pos, |stack|, if |stack| > 0 then stack[|stack| - 1] else 0
    {
      ghost var below, at := stack[..|stack| - 1], c.pos;
      var top := stack[|stack| - 1];
      assert stack == below + [top];
      if top == 0 {
        StackPop(b[at..], below, maxDepth);
        stack := stack[..|stack| - 1];
        continue;
      }
      StackStep(b[at..], below, top, maxDepth);
      stack := stack[|stack| - 1 := top - 1];
      assert stack == below + [top - 1];
      var children := c.Step();
      if children.None? {
        return false;
      }
      assert b[at..][c.pos - at..] == b[c.pos..];
      if children.value > 0 {
        if |stack| >= maxDepth {
          return false;
        }
        stack := stack + [children.value];
      }
    }
    StackEmpty(b[c.pos..], maxDepth);
    ok := c.pos == |b|;
    assert ok <==> b[c.pos..] == [];
  }

  lemma StackEmpty(b: seq<byte>, maxDepth: nat)
    ensures Stacked(b, [], maxDepth) == Some(b)
  {
  }

  /** A buffer holds one value within the limit and nothing else exactly when reading it leaves nothing. */
  lemma NestedMeansOne(b: seq<byte>, limit: nat)
    requires limit >= 1
    ensures Nested(b, limit) == Some([]) <==> exists v: Value :: WellFormed(v) && Encode(v) == b && Depth(v) <= limit
  {
    hide Read, WellFormed, Encode, Depth, Nested;
    NestedIsRead(b, limit);
    if Nested(b, limit) == Some([]) {
      ReadIsGrammar(b);
      var v := Read(b).value.0;
      assert Encode(v) + [] == Encode(v);
      assert WellFormed(v) && Encode(v) == b && Depth(v) <= limit;
    }
    if v: Value :| WellFormed(v) && Encode(v) == b && Depth(v) <= limit {
      GrammarIsRead(v, []);
      assert Encode(v) + [] == Encode(v);
    }
  }

  /** StepAt, in the order in which step does it. */
  lemma StepReads(s: seq<byte>)
    ensures s == [] || Classify(s[0]).None? ==> StepAt(s) == None
    ensures s != [] && Classify(s[0]).Some? ==>
              var (c, w) := Classify(s[0]).value;
              var at := 1 + Room(w);
              if |s| < at then StepAt(s) == None
              else
                var n := LengthAt(s, c, w);
                var (children, skip) := Asks(c, n);
                StepAt(s) == if at + skip > |s| || (c == Text && !Utf8.Valid(s[at..at + skip])) then None
                             else if children > |s| - at - skip then None
                             else Some((at + skip, children))
  {
    hide Utf8.Valid, ReadBe, Classify, FixedSize;
    if ReadShell(s).Some? {
      ShellIsRead(s);
      ShellParts(ReadShell(s).value);
      LengthIsRead(s);
      assert |ShellBytes(ReadShell(s).value)| == 1 + Room(Classify(s[0]).value.1) + |Body(ReadShell(s).value)|;
    }
  }
}
