/** Audit contexts: the one-map MessagePack value that names an audited object (sd/auditcontext.go). */
module AuditContext {
  import opened Wrappers
  import opened Bytes
  import opened Text
  import opened MessagePack
  import Utf8

  const MAX_LENGTH := 4096
  const MAX_DEPTH := 31
  const DASH: byte := 0x2D
  /** "kind". */
  const KIND: seq<byte> := [0x6B, 0x69, 0x6E, 0x64]

  // --- segments --------------------------------------------------------

  predicate Letter(c: byte) { 0x61 <= c <= 0x7A }

  predicate LetterOrDigit(c: byte) { Letter(c) || 0x30 <= c <= 0x39 }

  predicate Letters(s: seq<byte>) {
    forall i :: 0 <= i < |s| ==> LetterOrDigit(s[i])
  }

  predicate Word(s: seq<byte>) { s != [] && Letters(s) }

  predicate Words(parts: seq<seq<byte>>) {
    forall i :: 0 <= i < |parts| ==> Word(parts[i])
  }

  /** One kebab-case segment: words of letters and digits joined by single dashes, the first starting with a letter. */
  predicate Segment(s: seq<byte>) {
    s != [] && Letter(s[0]) && Words(Split(s, DASH))
  }

  /** Where a word must start, and where one has started. */
  predicate AtWord(s: seq<byte>)
    decreases |s|
  {
    s != [] && LetterOrDigit(s[0]) && InWord(s[1..])
  }

  predicate InWord(s: seq<byte>)
    decreases |s|
  {
    s == [] || (LetterOrDigit(s[0]) && InWord(s[1..])) || (s[0] == DASH && AtWord(s[1..]))
  }

  lemma {:induction false} AtWordIsWords(s: seq<byte>)
    ensures AtWord(s) <==> Words(Split(s, DASH))
    decreases |s|, 1
  {
    var parts := Split(s, DASH);
    if s == [] {
      assert parts[0] == [];
    } else if s[0] == DASH {
      assert parts[0] == [];
    } else {
      InWordIsWords(s[1..]);
      var rest := Split(s[1..], DASH);
      assert parts[0] == [s[0]] + rest[0] && parts[1..] == rest[1..];
      assert parts[0][0] == s[0];
      if Words(parts) {
        assert Word(parts[0]);
        forall i | 0 <= i < |rest[0]|
          ensures LetterOrDigit(rest[0][i])
        {
          assert parts[0][i + 1] == rest[0][i];
        }
        forall i | 0 <= i < |rest[1..]|
          ensures Word(rest[1..][i])
        {
          assert parts[i + 1] == rest[1..][i];
        }
      }
      if LetterOrDigit(s[0]) && Letters(rest[0]) && Words(rest[1..]) {
        forall i | 0 <= i < |parts|
          ensures Word(parts[i])
        {
          if i > 0 {
            assert parts[i] == rest[1..][i - 1];
          }
        }
      }
    }
  }

  lemma {:induction false} InWordIsWords(s: seq<byte>)
    ensures InWord(s) <==> Letters(Split(s, DASH)[0]) && Words(Split(s, DASH)[1..])
    decreases |s|, 0
  {
    if s != [] {
      var rest := Split(s[1..], DASH);
      if s[0] == DASH {
        AtWordIsWords(s[1..]);
        assert Split(s, DASH)[1..] == rest;
      } else {
        InWordIsWords(s[1..]);
        var first := [s[0]] + rest[0];
        assert Split(s, DASH)[0] == first && Split(s, DASH)[1..] == rest[1..];
        assert forall i :: 0 <= i < |rest[0]| ==> first[i + 1] == rest[0][i];
        assert first[0] == s[0];
      }
    }
  }

  /** isEventSegment. */
  method IsEventSegment(s: seq<byte>) returns (ok: bool)
    ensures ok <==> Segment(s)
  {
    AtWordIsWords(s);
    if |s| == 0 || s[0] < 0x61 || s[0] > 0x7A {
      return false;
    }
    var prev := s[0];
    for i := 1 to |s|
      invariant Letter(s[0]) && (prev == DASH || LetterOrDigit(prev))
      invariant Words(Split(s, DASH)) <==> if prev == DASH then AtWord(s[i..]) else InWord(s[i..])
    {
      var c := s[i];
      assert s[i..][1..] == s[i + 1..];
      if !(LetterOrDigit(c) || (c == DASH && prev != DASH)) {
        return false;
      }
      prev := c;
    }
    ok := prev != DASH;
  }

  lemma {:induction false} InWordIsAscii(s: seq<byte>)
    requires InWord(s) || AtWord(s)
    ensures forall i :: 0 <= i < |s| ==> s[i] < 0x80
    decreases |s|
  {
    if s != [] {
      InWordIsAscii(s[1..]);
      forall i | 0 <= i < |s|
        ensures s[i] < 0x80
      {
        if i > 0 {
          assert s[i] == s[1..][i - 1];
        }
      }
    }
  }

  lemma SegmentIsUtf8(s: seq<byte>)
    requires Segment(s)
    ensures Utf8.Valid(s)
  {
    AtWordIsWords(s);
    InWordIsAscii(s);
    Utf8.AsciiIsValid(s);
  }

  // --- the shape -------------------------------------------------------

  /** A segment string. */
  predicate Names(v: Value) {
    v.shell.Str? && Segment(v.shell.s)
  }

  /** The object's fields: a non-empty map with segment keys. */
  predicate BodyShape(v: Value) {
    && v.shell.Map? && v.shell.n > 0 && |v.children| == 2 * v.shell.n
    && forall j :: 0 <= j < v.shell.n ==> Names(v.children[2 * j])
  }

  /** A key and value of the outer map: the kind. */
  predicate IsKind(key: Value, value: Value) {
    key.shell.Str? && key.shell.s == KIND && Names(value)
  }

  /** A key and value of the outer map: the fields of that kind. */
  predicate IsBody(key: Value, value: Value, kind: seq<byte>) {
    key.shell.Str? && key.shell.s != KIND && key.shell.s == kind && BodyShape(value)
  }

  /** The kernel's shape: a kind, and perhaps the fields under the kind's own name, in either order. */
  predicate ContextShape(v: Value) {
    var c := v.children;
    && v.shell.Map? && |c| == 2 * v.shell.n
    && if |c| == 2 then IsKind(c[0], c[1])
       else
         && |c| == 4
         && ((IsKind(c[0], c[1]) && IsBody(c[2], c[3], c[1].shell.s))
             || (IsKind(c[2], c[3]) && IsBody(c[0], c[1], c[3].shell.s)))
  }

  /** Some value of the grammar fills `b` and has the shape. */
  ghost predicate HasShape(b: seq<byte>) {
    exists v: Value :: WellFormed(v) && Encode(v) == b && ContextShape(v)
  }

  lemma HasShapeIsRead(b: seq<byte>)
    ensures HasShape(b) <==> Read(b).Some? && Read(b).value.1 == [] && ContextShape(Read(b).value.0)
  {
    hide Read, WellFormed, Encode, ContextShape;
    if Read(b).Some? {
      ReadIsGrammar(b);
      assert Encode(Read(b).value.0) + [] == Encode(Read(b).value.0);
    }
    if HasShape(b) {
      var v: Value :| WellFormed(v) && Encode(v) == b && ContextShape(v);
      GrammarIsRead(v, []);
      assert Encode(v) + [] == Encode(v);
    }
  }

  // --- reading pieces --------------------------------------------------

  lemma StringStandsAlone(b: seq<byte>)
    requires ReadShell(b).Some? && ReadShell(b).value.Str?
    ensures Read(b) == Some((Value(ReadShell(b).value, []), b[|ShellBytes(ReadShell(b).value)|..]))
  {
    hide ReadShell, ShellBytes;
    ShellIsRead(b);
    assert ReadMany(b[|ShellBytes(ReadShell(b).value)|..], 0) == Some(([], b[|ShellBytes(ReadShell(b).value)|..]));
  }

  /** mapLen: a map's header. */
  method MapLen(c: Cursor) returns (r: Option<nat>)
    requires c.Valid()
    modifies c`pos
    ensures c.Valid() && c.pos >= old(c.pos)
    ensures var sh := ReadShell(c.b[old(c.pos)..]);
            && (r.Some? <==> sh.Some? && sh.value.Map? && sh.value.n <= MAX_INT32)
            && (r.Some? ==> r.value == sh.value.n && c.b[c.pos..] == c.b[old(c.pos)..][|ShellBytes(sh.value)|..])
  {
    hide Utf8.Valid, ReadBe, Classify;
    ghost var s := c.b[c.pos..];
    var tag := c.Take(1);
    if tag.None? {
      return None;
    }
    assert tag.value[0] == s[0];
    var cw := Classify(tag.value[0]);
    if cw.None? || cw.value.0 != Dict {
      return None;
    }
    r := c.Length(tag.value[0], Dict, cw.value.1);
    if r.Some? {
      ShellIsRead(s);
      ShellParts(ReadShell(s).value);
    }
  }

  /** str: a whole string. */
  method StrAt(c: Cursor) returns (r: Option<seq<byte>>)
    requires c.Valid()
    modifies c`pos
    ensures c.Valid() && c.pos >= old(c.pos)
    ensures var sh := ReadShell(c.b[old(c.pos)..]);
            && (r.Some? <==> sh.Some? && sh.value.Str?)
            && (r.Some? ==> r.value == sh.value.s && c.b[c.pos..] == c.b[old(c.pos)..][|ShellBytes(sh.value)|..])
  {
    hide Utf8.Valid, ReadBe, Classify, ReadShell, ShellBytes, LengthAt;
    ghost var s := c.b[c.pos..];
    StringAt(s);
    var tag := c.Take(1);
    if tag.None? {
      return None;
    }
    assert tag.value[0] == s[0];
    var cw := Classify(tag.value[0]);
    if cw.None? || cw.value.0 != Text {
      return None;
    }
    var n := c.Length(tag.value[0], Text, cw.value.1);
    if n.None? {
      return None;
    }
    ghost var at := c.pos;
    assert s[1 + Room(cw.value.1)..] == c.b[at..];
    r := c.Take(n.value);
    if r.Some? {
      assert c.b[at..][..n.value] == r.value;
      if !Utf8.Valid(r.value) {
        return None;
      }
    }
  }

  /** When a string starts here, and which. */
  lemma StringAt(s: seq<byte>)
    ensures s == [] || Classify(s[0]).None? || Classify(s[0]).value.0 != Text ==> ReadShell(s).None? || !ReadShell(s).value.Str?
    ensures s != [] && Classify(s[0]).Some? && Classify(s[0]).value.0 == Text ==>
              var w := Classify(s[0]).value.1;
              var at := 1 + Room(w);
              if |s| < at || LengthAt(s, Text, w) > |s| - at || !Utf8.Valid(s[at..][..LengthAt(s, Text, w)]) then
                ReadShell(s).None?
              else
                var text := s[at..][..LengthAt(s, Text, w)];
                ReadShell(s) == Some(Str(w, text)) && |ShellBytes(Str(w, text))| == at + |text|
  {
    hide Utf8.Valid, ReadBe, Classify;
    if s != [] && Classify(s[0]).Some? && Classify(s[0]).value.0 == Text {
      var w := Classify(s[0]).value.1;
      var at := 1 + Room(w);
      if |s| >= at && LengthAt(s, Text, w) <= |s| - at {
        assert s[at..at + LengthAt(s, Text, w)] == s[at..][..LengthAt(s, Text, w)];
      }
      if ReadShell(s).Some? {
        ShellIsRead(s);
      }
    }
  }

  // --- the shape checker -----------------------------------------------

  /** Reading `n` values from `b` gives `done` and then whatever reading `due` more from `rest` gives. */
  ghost predicate Progress(b: seq<byte>, n: nat, done: seq<Value>, rest: seq<byte>, due: nat) {
    ReadMany(b, n) == match ReadMany(rest, due) case None => None case Some((vs, after)) => Some((done + vs, after))
  }

  lemma ProgressStart(b: seq<byte>, n: nat)
    ensures Progress(b, n, [], b, n)
  {
    hide ReadMany;
    if ReadMany(b, n).Some? {
      assert [] + ReadMany(b, n).value.0 == ReadMany(b, n).value.0;
    }
  }

  lemma ProgressStep(b: seq<byte>, n: nat, done: seq<Value>, rest: seq<byte>, due: nat)
    requires Progress(b, n, done, rest, due) && due > 0
    ensures Read(rest).None? ==> ReadMany(b, n) == None
    ensures Read(rest).Some? ==> Progress(b, n, done + [Read(rest).value.0], Read(rest).value.1, due - 1)
    ensures ReadMany(b, n).Some? ==> Read(rest).Some? && |done| < |ReadMany(b, n).value.0|
    ensures ReadMany(b, n).Some? ==> ReadMany(b, n).value.0[|done|] == Read(rest).value.0
  {
    hide Read;
    if Read(rest).Some? {
      var (v, tail) := Read(rest).value;
      if ReadMany(tail, due - 1).Some? {
        var vs := ReadMany(tail, due - 1).value.0;
        assert done + ([v] + vs) == done + [v] + vs;
      }
    }
  }

  lemma ProgressEnd(b: seq<byte>, n: nat, done: seq<Value>, rest: seq<byte>)
    requires Progress(b, n, done, rest, 0)
    ensures ReadMany(b, n) == Some((done, rest))
  {
    assert done + [] == done;
  }

  lemma ReadOfMap(b: seq<byte>)
    requires ReadShell(b).Some?
    ensures var sh := ReadShell(b).value;
            var tail := b[|ShellBytes(sh)|..];
            Read(b) == match ReadMany(tail, Arity(sh)) case None => None
                       case Some((vs, rest)) => Some((Value(sh, vs), rest))
  {
    hide ReadShell, ShellBytes, ReadMany;
    ShellIsRead(b);
  }

  /** A value that is no string where one is expected. */
  lemma NotAString(b: seq<byte>)
    requires ReadShell(b).None? || !ReadShell(b).value.Str?
    ensures Read(b).Some? ==> !Read(b).value.0.shell.Str?
  {
    hide ReadShell, ShellBytes, ReadMany;
  }

  lemma TooManyEntries(b: seq<byte>)
    requires |b| <= MAX_INT32 && ReadShell(b).Some? && ReadShell(b).value.Map? && ReadShell(b).value.n > MAX_INT32
    ensures Read(b) == None
  {
    hide ReadShell, ShellBytes, ReadMany;
    ShellIsRead(b);
    ReadOfMap(b);
    var sh := ReadShell(b).value;
    var tail := b[|ShellBytes(sh)|..];
    NeedsBytes(tail, Arity(sh));
  }

  lemma NeedsBytes(b: seq<byte>, n: nat)
    ensures ReadMany(b, n).Some? ==> n <= |b|
  {
  }

  /** The second half of auditContextShape: the fields. */
  method CheckBody(value: seq<byte>) returns (ok: bool)
    requires |value| <= MAX_INT32 && Read(value).Some? && Read(value).value.1 == []
    ensures ok <==> BodyShape(Read(value).value.0)
  {
    hide Read, ReadShell, ReadMany, ShellBytes, Segment, Progress;
    var body := new Cursor(value);
    assert value[0..] == value;
    var n := MapLen(body);
    ReadIsWhole(value);
    if n.None? || n.value == 0 {
      if ReadShell(value).value.Map? && ReadShell(value).value.n > MAX_INT32 {
        TooManyEntries(value);
      }
      return false;
    }
    ReadOfMap(value);
    ghost var tail, v := value[body.pos..], Read(value).value.0;
    ghost var done: seq<Value> := [];
    ProgressStart(tail, 2 * n.value);
    for i := 0 to n.value
      invariant body.Valid() && body.b == value && |done| == 2 * i
      invariant Progress(tail, 2 * n.value, done, value[body.pos..], 2 * (n.value - i))
      invariant forall j :: 0 <= j < i ==> Names(v.children[2 * j])
    {
      ghost var at := value[body.pos..];
      ProgressStep(tail, 2 * n.value, done, at, 2 * (n.value - i));
      var k := StrAt(body);
      if k.None? {
        NotAString(at);
        return false;
      }
      var segment := IsEventSegment(k.value);
      StringStandsAlone(at);
      if !segment {
        return false;
      }
      done := done + [Read(at).value.0];
      ghost var next := value[body.pos..];
      ProgressStep(tail, 2 * n.value, done, next, 2 * (n.value - i) - 1);
      var skipped := body.SkipValue();
      assert skipped;
      done := done + [Read(next).value.0];
    }
    ProgressEnd(tail, 2 * n.value, done, value[body.pos..]);
    ok := body.pos == |value|;
  }

  lemma ReadIsWhole(b: seq<byte>)
    requires Read(b).Some?
    ensures ReadShell(b).Some? && Read(b).value.0.shell == ReadShell(b).value
    ensures |Read(b).value.0.children| == Arity(ReadShell(b).value)
  {
    hide ReadShell, ShellBytes, ReadMany;
  }

  /** What the outer loop has seen so far: the kind, and the other key with its value's bytes. */
  datatype Found = Found(kind: Option<seq<byte>>, otherKey: seq<byte>, otherValue: Option<seq<byte>>)

  /** One turn of the outer loop; None is a refusal. */
  function Note(f: Found, key: Value, value: Value, bytes: seq<byte>): Option<Found> {
    if !key.shell.Str? then None
    else if key.shell.s == KIND then
      if f.kind.Some? || !Names(value) then None else Some(f.(kind := Some(value.shell.s)))
    else Some(f.(otherKey := key.shell.s, otherValue := Some(bytes)))
  }

  /** One entry of the outer map: its key and value, and what is made of them. */
  method NoteEntry(c: Cursor, f: Found) returns (r: Option<Found>)
    requires c.Valid()
    modifies c`pos
    ensures c.Valid() && c.pos >= old(c.pos)
    ensures var key := Read(c.b[old(c.pos)..]);
            if key.None? then r == None
            else if !key.value.0.shell.Str? then r == None
            else
              var value := Read(key.value.1);
              if value.None? then r == None
              else
                var bytes := key.value.1[..|key.value.1| - |value.value.1|];
                && r == Note(f, key.value.0, value.value.0, bytes)
                && (r.Some? ==> c.b[c.pos..] == value.value.1)
  {
    hide Read, ReadShell, ShellBytes, Segment, ReadMany;
    ghost var at := c.b[c.pos..];
    var key := StrAt(c);
    if key.None? {
      NotAString(at);
      return None;
    }
    StringStandsAlone(at);
    var start := c.pos;
    ghost var next := c.b[start..];
    var skipped := c.SkipValue();
    if !skipped {
      return None;
    }
    var value := c.b[start..c.pos];
    assert value == next[..|next| - |Read(next).value.1|];
    if key.value == KIND {
      if f.kind.Some? {
        return None;
      }
      var k := NameAlone(value, next);
      if k.None? {
        return None;
      }
      r := Some(f.(kind := k));
    } else {
      r := Some(f.(otherKey := key.value, otherValue := Some(value)));
    }
  }

  /** The value of a kind: a string that fills its bytes and is a segment. */
  method NameAlone(value: seq<byte>, ghost from: seq<byte>) returns (k: Option<seq<byte>>)
    requires Read(from).Some? && value == from[..|from| - |Read(from).value.1|] && |value| <= MAX_INT32
    ensures k == if Names(Read(from).value.0) then Some(Read(from).value.0.shell.s) else None
  {
    hide Read, ReadShell, ShellBytes, Segment, ReadMany, Encode, WellFormed;
    ReadIsGrammar(from);
    ghost var v := Read(from).value.0;
    assert value == Encode(v);
    assert Encode(v) + [] == Encode(v);
    GrammarIsRead(v, []);
    ReadIsWhole(value);
    var vc := new Cursor(value);
    assert value[0..] == value;
    k := StrAt(vc);
    if k.None? {
      return None;
    }
    StringStandsAlone(value);
    var segment := IsEventSegment(k.value);
    if vc.pos != |value| || !segment {
      return None;
    }
  }

  const NOTHING := Found(None, [], None)

  /** An entry was noted, with bytes that are its value's and nothing else. */
  ghost predicate Noted(f: Found, key: Value, value: Value, g: Found) {
    exists bytes: seq<byte> :: |bytes| <= MAX_INT32 && Read(bytes) == Some((value, [])) && Note(f, key, value, bytes) == Some(g)
  }

  lemma ReadsAlone(from: seq<byte>)
    requires Read(from).Some?
    ensures Read(from[..|from| - |Read(from).value.1|]) == Some((Read(from).value.0, []))
  {
    hide Read, Encode, WellFormed;
    ReadIsGrammar(from);
    var (v, rest) := Read(from).value;
    assert from[..|from| - |rest|] == Encode(v);
    assert Encode(v) + [] == Encode(v);
    GrammarIsRead(v, []);
  }

  /** What is found after one entry, or two, settles the shape but for the fields. */
  lemma FoundInOne(key: Value, value: Value, f: Found)
    requires Noted(NOTHING, key, value, f)
    ensures IsKind(key, value) <==> f.kind.Some?
    ensures f.kind.Some? ==> f == Found(Some(value.shell.s), [], None) && key.shell.s == KIND
    ensures f.kind.None? ==> key.shell.Str? && key.shell.s != KIND && f.otherKey == key.shell.s
    ensures f.kind.None? ==> f.otherValue.Some? && |f.otherValue.value| <= MAX_INT32 && Read(f.otherValue.value) == Some((value, []))
  {
    hide Read, Segment;
  }

  lemma FoundInTwo(k0: Value, v0: Value, k1: Value, v1: Value, first: Found, f: Found)
    requires Noted(NOTHING, k0, v0, first) && Noted(first, k1, v1, f)
    ensures f.kind.Some? <==> IsKind(k0, v0) || IsKind(k1, v1)
    ensures f.kind.Some? ==> f.otherValue.Some? && |f.otherValue.value| <= MAX_INT32
    ensures f.kind.Some? && IsKind(k0, v0) ==>
              f.kind.value == v0.shell.s && f.otherKey == k1.shell.s && Read(f.otherValue.value) == Some((v1, []))
    ensures f.kind.Some? && !IsKind(k0, v0) ==>
              f.kind.value == v1.shell.s && f.otherKey == k0.shell.s && Read(f.otherValue.value) == Some((v0, []))
    ensures k0.shell.Str? && k1.shell.Str?
    ensures f.kind.Some? ==> (IsKind(k0, v0) ==> k1.shell.s != KIND) && (!IsKind(k0, v0) ==> k0.shell.s != KIND)
  {
    hide Read, Segment;
    FoundInOne(k0, v0, first);
  }

  /** An entry that cannot be noted rules the shape out. */
  lemma NotNoted(v: Value, i: nat, first: Found, bytes: seq<byte>)
    requires i < 2 && v.shell.Map? && |v.children| == 2 * v.shell.n && (v.shell.n == 1 || v.shell.n == 2) && i < v.shell.n
    requires i == 0 ==> first == NOTHING
    requires i == 1 ==> Noted(NOTHING, v.children[0], v.children[1], first)
    requires Note(first, v.children[2 * i], v.children[2 * i + 1], bytes) == None
    ensures !ContextShape(v)
  {
    hide Read, Segment, BodyShape;
    if i == 1 {
      FoundInOne(v.children[0], v.children[1], first);
    }
  }

  /** auditContextShape: the kernel's shape, exactly. */
  method AuditContextShape(b: seq<byte>) returns (ok: bool)
    requires |b| <= MAX_INT32
    ensures ok <==> HasShape(b)
  {
    hide Read, ReadShell, ShellBytes, ReadMany, HasShape, ContextShape, Progress, Note, Noted, Segment, BodyShape;
    HasShapeIsRead(b);
    var c := new Cursor(b);
    assert b[0..] == b;
    var n := MapLen(c);
    if n.None? || n.value == 0 || n.value > 2 {
      NoSuchMap(b);
      return false;
    }
    ReadOfMap(b);
    ShellIsRead(b);
    ghost var tail := b[c.pos..];
    var f := NOTHING;
    ghost var first, done: seq<Value> := NOTHING, [];
    ProgressStart(tail, 2 * n.value);
    for i := 0 to n.value
      invariant c.Valid() && c.b == b && |done| == 2 * i
      invariant Progress(tail, 2 * n.value, done, b[c.pos..], 2 * (n.value - i))
      invariant i == 0 ==> f == NOTHING
      invariant i >= 1 ==> Noted(NOTHING, done[0], done[1], first)
      invariant i == 1 ==> f == first
      invariant i == 2 ==> Noted(first, done[2], done[3], f)
    {
      ghost var at := b[c.pos..];
      ProgressStep(tail, 2 * n.value, done, at, 2 * (n.value - i));
      var noted := NoteEntry(c, f);
      if noted.None? {
        EntryRefused(b, tail, n.value, i, done, at, f);
        return false;
      }
      ghost var key := Read(at).value;
      ProgressStep(tail, 2 * n.value, done + [key.0], key.1, 2 * (n.value - i) - 1);
      ghost var value := Read(key.1).value;
      NotedNow(f, key.0, key.1, noted.value);
      done := done + [key.0] + [value.0];
      f := noted.value;
      if i == 0 {
        first := f;
      }
    }
    ProgressEnd(tail, 2 * n.value, done, b[c.pos..]);
    ghost var v := Read(b).value.0;
    assert v.children == done && (Read(b).value.1 == [] <==> c.pos == |b|);
    if c.pos != |b| || f.kind.None? {
      if f.kind.None? {
        NoKind(v, first, f);
      }
      return false;
    }
    ok := CheckFound(f, v, first);
  }

  /** The last part of auditContextShape: a kind alone, or fields under the kind's own name. */
  method CheckFound(f: Found, ghost v: Value, ghost first: Found) returns (ok: bool)
    requires Gathered(v, first, f) && f.kind.Some?
    ensures ok <==> ContextShape(v)
  {
    hide Read, Segment, BodyShape, Noted;
    if v.shell.n == 1 {
      FoundInOne(v.children[0], v.children[1], f);
    } else {
      FoundInTwo(v.children[0], v.children[1], v.children[2], v.children[3], first, f);
    }
    if f.otherValue.None? {
      return true;
    }
    if f.otherKey != f.kind.value {
      return false;
    }
    ok := CheckBody(f.otherValue.value);
  }

  /** All entries of a map of one or two have been noted. */
  ghost predicate Gathered(v: Value, first: Found, f: Found) {
    && v.shell.Map? && (v.shell.n == 1 || v.shell.n == 2) && |v.children| == 2 * v.shell.n
    && Noted(NOTHING, v.children[0], v.children[1], first)
    && (if v.shell.n == 1 then f == first else Noted(first, v.children[2], v.children[3], f))
  }

  lemma NoKind(v: Value, first: Found, f: Found)
    requires Gathered(v, first, f) && f.kind.None?
    ensures !ContextShape(v)
  {
    hide Read, Segment, BodyShape, Noted;
    if v.shell.n == 1 {
      FoundInOne(v.children[0], v.children[1], f);
    } else {
      FoundInTwo(v.children[0], v.children[1], v.children[2], v.children[3], first, f);
    }
  }

  /** An entry was refused: whatever `b` reads as, it does not have the shape. */
  lemma EntryRefused(b: seq<byte>, tail: seq<byte>, n: nat, i: nat, done: seq<Value>, at: seq<byte>, f: Found)
    requires ReadShell(b).Some? && ReadShell(b).value.Map? && ReadShell(b).value.n == n && (n == 1 || n == 2) && i < n
    requires ShellOk(ReadShell(b).value) && |ShellBytes(ReadShell(b).value)| <= |b|
    requires tail == b[|ShellBytes(ReadShell(b).value)|..]
    requires |done| == 2 * i && Progress(tail, 2 * n, done, at, 2 * (n - i))
    requires i == 0 ==> f == NOTHING
    requires i == 1 ==> Noted(NOTHING, done[0], done[1], f)
    requires Read(at).Some? && Read(at).value.0.shell.Str? && Read(Read(at).value.1).Some? ==>
               exists bytes: seq<byte> :: Note(f, Read(at).value.0, Read(Read(at).value.1).value.0, bytes) == None
    ensures Read(b).Some? ==> !ContextShape(Read(b).value.0)
  {
    hide Read, ReadShell, ShellBytes, ShellOk, ReadMany, Segment, BodyShape, Noted, Note, ContextShape;
    ReadOfMap(b);
    if Read(b).Some? {
      var v := Read(b).value.0;
      ProgressKeeps(tail, 2 * n, done, at, 2 * (n - i));
      ProgressStep(tail, 2 * n, done, at, 2 * (n - i));
      var (key, next) := Read(at).value;
      ProgressStep(tail, 2 * n, done + [key], next, 2 * (n - i) - 1);
      if key.shell.Str? {
        var bytes: seq<byte> :| Note(f, key, Read(next).value.0, bytes) == None;
        NotNoted(v, i, f, bytes);
      } else {
        KeysAreStrings(v, i);
      }
    }
  }

  lemma ProgressKeeps(b: seq<byte>, n: nat, done: seq<Value>, rest: seq<byte>, due: nat)
    requires Progress(b, n, done, rest, due) && ReadMany(b, n).Some?
    ensures done <= ReadMany(b, n).value.0
  {
    hide ReadMany;
  }

  lemma KeysAreStrings(v: Value, i: nat)
    requires v.shell.Map? && |v.children| == 2 * v.shell.n && i < v.shell.n <= 2 && !v.children[2 * i].shell.Str?
    ensures !ContextShape(v)
  {
    hide Segment, BodyShape;
  }

  lemma NoSuchMap(b: seq<byte>)
    requires ReadShell(b).None? || !ReadShell(b).value.Map? || ReadShell(b).value.n == 0 || ReadShell(b).value.n > 2
    ensures Read(b).Some? ==> !ContextShape(Read(b).value.0)
  {
    hide ReadShell, ShellBytes, ReadMany, IsKind, IsBody;
  }

  lemma NotedNow(f: Found, key: Value, from: seq<byte>, g: Found)
    requires Read(from).Some? && |from| <= MAX_INT32
    requires Note(f, key, Read(from).value.0, from[..|from| - |Read(from).value.1|]) == Some(g)
    ensures Noted(f, key, Read(from).value.0, g)
  {
    hide Read, Note;
    ReadsAlone(from);
  }

  /** What the kernel accepts: a value of the grammar with the shape, within the size and the nesting. */
  ghost predicate Acceptable(b: seq<byte>) {
    1 <= |b| <= MAX_LENGTH && exists v: Value :: WellFormed(v) && Encode(v) == b && ContextShape(v) && Depth(v) <= MAX_DEPTH
  }

  /** ValidateAuditContext: both checks together accept exactly that. */
  method ValidateAuditContext(b: seq<byte>) returns (ok: bool)
    ensures ok <==> Acceptable(b)
  {
    hide WellFormed, Encode, ContextShape, Depth, HasShape;
    AcceptableHasBoth(b);
    if |b| == 0 || |b| > MAX_LENGTH {
      return false;
    }
    var shaped := AuditContextShape(b);
    if !shaped {
      return false;
    }
    ok := MpWellFormed(b, MAX_DEPTH);
  }

  /** The two checks see the same value, since only one fills the buffer. */
  lemma AcceptableHasBoth(b: seq<byte>)
    ensures Acceptable(b) <==>
              && 1 <= |b| <= MAX_LENGTH && HasShape(b)
              && exists v: Value :: WellFormed(v) && Encode(v) == b && Depth(v) <= MAX_DEPTH
  {
    hide WellFormed, Encode, ContextShape, Depth;
    if HasShape(b) && exists v: Value :: WellFormed(v) && Encode(v) == b && Depth(v) <= MAX_DEPTH {
      var v: Value :| WellFormed(v) && Encode(v) == b && ContextShape(v);
      var u: Value :| WellFormed(u) && Encode(u) == b && Depth(u) <= MAX_DEPTH;
      assert Encode(v) + [] == Encode(u) + [];
      Unambiguous(v, u, [], []);
    }
    if 1 <= |b| <= MAX_LENGTH && Acceptable(b) {
      var v: Value :| WellFormed(v) && Encode(v) == b && ContextShape(v) && Depth(v) <= MAX_DEPTH;
      assert WellFormed(v) && Encode(v) == b && ContextShape(v);
    }
  }
}
