/** The SDDL recogniser and renderer as they run: a cursor moved over the input, and builders (sddl/parse.go, sddl/format.go). */
module SddlParser {
  import opened Wrappers
  import opened Bytes
  import opened Sid
  import opened Aliases
  import opened Aces
  import opened Descriptors
  import opened SddlTables
  import opened SddlText
  import opened SddlControl
  import ConditionLexer
  import ConditionParser
  import Conditions

  // --- fields and parentheses ------------------------------------------

  /** What a count found after `n` more characters is. */
  ghost function After(r: Option<nat>, n: nat): Option<nat> {
    match r case None => None case Some(k) => Some(n + k)
  }

  /** The loop of scanACE: where the parenthesis opened at `open` closes. */
  method FindClose(s: string, open: nat) returns (end: Option<nat>)
    requires open <= |s|
    ensures end == After(CloseAt(s[open..], 0), open)
    ensures end.Some? ==> open <= end.value < |s| && s[end.value] == ')'
  {
    var depth := 0;
    var i := open;
    while i < |s|
      invariant open <= i <= |s|
      invariant CloseAt(s[open..], 0) == After(CloseAt(s[i..], depth), i - open)
    {
      assert s[i..][1..] == s[i + 1..];
      depth := depth + Nesting(s[i]);
      if s[i] == ')' && depth == 0 {
        return Some(i);
      }
      i := i + 1;
    }
    end := None;
  }

  /** What is left of a split: `done` fields, a field begun with `part`, and the fields of the rest. */
  ghost function Splitting(done: seq<string>, part: string, rest: seq<string>): seq<string>
    requires rest != []
  {
    done + [part + rest[0]] + rest[1..]
  }

  /** splitFields. */
  method SplitFields(body: string) returns (fields: seq<string>)
    ensures fields == Fields(body, 0)
  {
    hide Fields, Splitting;
    fields := [];
    var depth, start := 0, 0;
    SplitStart(body);
    for i := 0 to |body|
      invariant start <= i
      invariant Fields(body, 0) == Splitting(fields, body[start..i], Fields(body[i..], depth))
    {
      SplitStep(fields, body[start..i], body, i, depth);
      if body[i] == ';' && depth == 0 {
        fields := fields + [body[start..i]];
        start := i + 1;
        assert body[start..i + 1] == "";
      } else {
        assert body[start..i] + [body[i]] == body[start..i + 1];
        depth := depth + Nesting(body[i]);
      }
    }
    SplitEnd(fields, body[start..], depth);
    assert body[start..|body|] == body[start..] && body[|body|..] == "";
    fields := fields + [body[start..]];
  }

  lemma SplitStart(body: string)
    ensures Fields(body, 0) == Splitting([], body[0..0], Fields(body[0..], 0))
  {
    hide Fields;
    var fs := Fields(body, 0);
    assert body[0..] == body && body[0..0] + fs[0] == fs[0];
  }

  lemma SplitStep(done: seq<string>, part: string, body: string, i: nat, depth: int)
    requires i < |body|
    ensures Splitting(done, part, Fields(body[i..], depth)) ==
            if body[i] == ';' && depth == 0 then Splitting(done + [part], "", Fields(body[i + 1..], depth))
            else Splitting(done, part + [body[i]], Fields(body[i + 1..], depth + Nesting(body[i])))
  {
    assert body[i..][1..] == body[i + 1..];
    if body[i] == ';' && depth == 0 {
      var rest := Fields(body[i + 1..], depth);
      assert part + "" == part && "" + rest[0] == rest[0];
      assert ([""] + rest)[1..] == rest == [rest[0]] + rest[1..];
    } else {
      var rest := Fields(body[i + 1..], depth + Nesting(body[i]));
      assert part + ([body[i]] + rest[0]) == part + [body[i]] + rest[0];
    }
  }

  lemma SplitEnd(done: seq<string>, part: string, depth: int)
    ensures Splitting(done, part, Fields("", depth)) == done + [part]
  {
    assert part + "" == part;
  }

  // --- ACL flags -------------------------------------------------------

  /** parseACLFlags. */
  method ParseAclFlags(s: string) returns (r: Option<AclFlags>)
    ensures r == ReadAclFlags(NO_ACL_FLAGS, s)
  {
    hide NullWord;
    var f := NO_ACL_FLAGS;
    var i := 0;
    assert s[0..] == s;
    while i < |s|
      invariant i <= |s|
      invariant ReadAclFlags(f, s[i..]) == ReadAclFlags(NO_ACL_FLAGS, s)
    {
      assert s[i..][1..] == s[i + 1..];
      if NullWord() <= s[i..] {
        if f.isNull {
          return None;
        }
        assert s[i..][17..] == s[i + 17..];
        f := f.(isNull := true);
        i := i + 17;
      } else if s[i] == 'P' {
        f := f.(protected := true);
        i := i + 1;
      } else if i + 2 <= |s| && s[i] == 'A' && (s[i + 1] == 'I' || s[i + 1] == 'R') {
        assert s[i..][2..] == s[i + 2..] && s[i..][1] == s[i + 1];
        f := if s[i + 1] == 'I' then f.(inherited := true) else f.(requested := true);
        i := i + 2;
      } else {
        return None;
      }
    }
    r := Some(f);
  }

  // --- ACE bodies ------------------------------------------------------

  /** The ACE a parsed body is built into. */
  ghost function Built(a: Option<TextAce>): Option<Ace> {
    match a case None => None case Some(ace) => Some(AceOf(ace))
  }

  /** parseACEBody: splits, dispatches on the type and builds the ACE. */
  method ParseAceBody(body: string, o: Options) returns (r: Option<Ace>)
    ensures r == Built(ParseAce(body, o))
  {
    hide Fields, AceOfFields, AceOf, TypeOfTag;
    var fs := SplitFields(body);
    if |fs| < 6 {
      return None;
    }
    var kind := TypeOfTag(fs[0]);
    if kind.None? || !IsSupported(kind.value) {
      return None;
    }
    if IsCallback(kind.value) {
      if |fs| != 7 {
        return None;
      }
      r := ParseCallbackAce(kind.value, fs, o);
    } else {
      if |fs| != 6 {
        return None;
      }
      r := ParseStructuredAce(kind.value, fs, o);
    }
  }

  /** The fields structured and callback ACEs share. */
  method ParseShared(kind: byte, fs: seq<string>, o: Options) returns (r: Option<TextAce>)
    requires |fs| >= 6
    ensures r == SharedFields(kind, fs, o)
  {
    hide WithFlags, MaskOfText, GuidOfText, ParseSidText;
    var flags := ReadFlags(fs[1]);
    if flags.None? {
      return None;
    }
    var mask := ReadMask(fs[2]);
    if mask.None? {
      return None;
    }
    var objectType := ParseGuidField(fs[3]);
    if objectType.None? {
      return None;
    }
    var inheritedType := ParseGuidField(fs[4]);
    if inheritedType.None? {
      return None;
    }
    if ((objectType.value.Some? || inheritedType.value.Some?) && !CarriesGuids(kind)) || fs[5] == "" {
      return None;
    }
    var sid := ParseSidText(o, fs[5]);
    if sid.None? {
      return None;
    }
    r := Some(TextAce(kind, flags.value, mask.value, objectType.value, inheritedType.value, sid.value, None));
  }

  /** Everything a body says but its condition. */
  ghost function SharedFields(kind: byte, fs: seq<string>, o: Options): Option<TextAce>
    requires |fs| >= 6
  {
    var flags :- FlagsOfText(fs[1]);
    var mask :- MaskOfText(fs[2]);
    var objectType :- GuidField(fs[3]);
    var inheritedType :- GuidField(fs[4]);
    if (objectType.Some? || inheritedType.Some?) && !CarriesGuids(kind) then None
    else if fs[5] == "" then None
    else
      var sid :- ParseSidText(o, fs[5]);
      Some(TextAce(kind, flags, mask, objectType, inheritedType, sid, None))
  }

  lemma FieldsAreShared(kind: byte, fs: seq<string>, o: Options)
    requires |fs| == if IsCallback(kind) then 7 else 6
    ensures AceOfFields(kind, fs, o) ==
            match SharedFields(kind, fs, o)
            case None => None
            case Some(a) => match CondField(kind, fs, o) case None => None case Some(c) => Some(a.(cond := c))
  {
    hide FlagsOfText, MaskOfText, GuidField, ParseSidText, CondField, CarriesGuids;
  }

  method ParseGuidField(s: string) returns (r: Option<Option<Guid>>)
    ensures r == GuidField(s)
  {
    if s == "" {
      return Some(None);
    }
    var g := ReadGuid(s);
    r := if g.None? then None else Some(g);
  }

  /** parseStructuredACE. */
  method ParseStructuredAce(kind: byte, fs: seq<string>, o: Options) returns (r: Option<Ace>)
    requires |fs| == 6 && !IsCallback(kind)
    ensures r == Built(AceOfFields(kind, fs, o))
  {
    hide SharedFields, AceOfFields;
    FieldsAreShared(kind, fs, o);
    var a := ParseShared(kind, fs, o);
    r := if a.None? then None else Some(Structured(a.value));
  }

  /** parseCallbackACE: the condition is compiled, and the raw body assembled around it. */
  method ParseCallbackAce(kind: byte, fs: seq<string>, o: Options) returns (r: Option<Ace>)
    requires |fs| == 7 && IsCallback(kind)
    ensures r == Built(AceOfFields(kind, fs, o))
  {
    hide SharedFields, AceOfFields, ConditionParser.ParseConditionText, Conditions.Code, CallbackBody;
    FieldsAreShared(kind, fs, o);
    SharedHasNoCond(kind, fs, o);
    var a := ParseShared(kind, fs, o);
    if a.None? {
      return None;
    }
    var code := ConditionParser.CompileConditionText(fs[6], o);
    if code.None? {
      return None;
    }
    var artx := Conditions.Encode(code.value);
    var body := BuildCallbackBody(a.value, artx);
    r := Some(Ace(kind, a.value.flags, 0, NO_SID, None, None, Some(body)));
    ghost var c := ConditionParser.ParseConditionText(fs[6], o).value;
    CondIgnored(a.value, Some(c), artx);
  }

  lemma SharedHasNoCond(kind: byte, fs: seq<string>, o: Options)
    requires |fs| >= 6
    ensures SharedFields(kind, fs, o).Some? ==> SharedFields(kind, fs, o).value.cond.None? && SharedFields(kind, fs, o).value.kind == kind
  {
    hide FlagsOfText, MaskOfText, GuidField, ParseSidText, CarriesGuids;
  }

  lemma CondIgnored(a: TextAce, c: Option<Conditions.Condition>, artx: seq<byte>)
    ensures CallbackBody(a.(cond := c), artx) == CallbackBody(a, artx)
  {
  }

  /** callbackBody, or the object form of it. */
  method BuildCallbackBody(a: TextAce, artx: seq<byte>) returns (b: seq<byte>)
    ensures b == CallbackBody(a, artx)
  {
    if a.kind == ALLOWED_CALLBACK_OBJECT {
      b := AppendObjectBody(Structured(a));
    } else {
      b := Le32(a.mask as int);
      b := b + Encoded(a.sid);
    }
    b := b + artx;
  }

  lemma NextSubSize(text: string, at: nat)
    requires at < |text| && text[at] == '-'
    ensures var k := NumberSize(text[at + 1..]);
            SubsSize(text[at..]) == if k.None? then None else After(SubsSize(text[at + 1 + k.value..]), 1 + k.value)
  {
    hide NumberSize;
    assert text[at..][1..] == text[at + 1..];
    if NumberSize(text[at + 1..]).Some? {
      var k := NumberSize(text[at + 1..]).value;
      assert text[at..][1 + k..] == text[at + 1 + k..];
    }
  }

  lemma NoSubSize(text: string, at: nat)
    requires at == |text| || (at < |text| && text[at] != '-')
    ensures SubsSize(text[at..]) == Some(0)
  {
  }

  // --- the recogniser --------------------------------------------------

  /** parser: a single-use recogniser over an input. */
  class Parser {
    const text: string
    const opt: Options
    var pos: nat

    constructor (text: string, opt: Options)
      ensures this.text == text && this.opt == opt && pos == 0 && Valid()
    {
      this.text, this.opt, pos := text, opt, 0;
    }

    ghost predicate Valid()
      reads this
    {
      pos <= |text|
    }

    /** Has the cursor moved over what `n` counts, or stayed in bounds on an error? */
    ghost predicate Moved(from: nat, n: Option<nat>)
      reads this
    {
      from <= pos <= |text| && (n.Some? ==> pos == from + n.value)
    }

    method ScanNumber() returns (ok: bool)
      requires Valid()
      modifies this`pos
      ensures ok == NumberSize(text[old(pos)..]).Some? && Moved(old(pos), NumberSize(text[old(pos)..]))
    {
      var start := pos;
      ghost var rest := text[pos..];
      if pos + 2 <= |text| && text[pos] == '0' && (text[pos + 1] == 'x' || text[pos + 1] == 'X') {
        assert rest[2..] == text[pos + 2..];
        pos := ConditionLexer.RunEnd(text, pos + 2, ConditionLexer.HexChar);
        return pos > start + 2;
      }
      pos := ConditionLexer.RunEnd(text, pos, Digit);
      ok := pos > start;
    }

    /** scanRawSID: an S-1-... literal, taken apart no further. */
    method ScanRawSid() returns (r: Option<string>)
      requires Valid()
      modifies this`pos
      ensures Moved(old(pos), RawSidSize(text[old(pos)..]))
      ensures r == match RawSidSize(text[old(pos)..]) case None => None case Some(n) => Some(text[old(pos)..old(pos) + n])
    {
      hide NumberSize, SubsSize;
      var start := pos;
      if !("S-1-" <= text[pos..]) {
        return None;
      }
      assert text[start..][4..] == text[start + 4..];
      pos := pos + 4;
      var ok := ScanNumber();
      if !ok {
        return None;
      }
      ghost var k := pos - start - 4;
      assert text[start..][4 + k..] == text[pos..];
      ok := ScanSubs();
      if !ok {
        return None;
      }
      r := Some(text[start..pos]);
    }

    method ScanSubs() returns (ok: bool)
      requires Valid()
      modifies this`pos
      ensures ok == SubsSize(text[old(pos)..]).Some? && Moved(old(pos), SubsSize(text[old(pos)..]))
    {
      hide NumberSize, SubsSize;
      ghost var start := pos;
      while pos < |text| && text[pos] == '-'
        invariant start <= pos <= |text|
        invariant SubsSize(text[start..]) == After(SubsSize(text[pos..]), pos - start)
        decreases |text| - pos
      {
        NextSubSize(text, pos);
        pos := pos + 1;
        ok := ScanNumber();
        if !ok {
          return;
        }
      }
      NoSubSize(text, pos);
      ok := true;
    }

    method ParseSid() returns (r: Option<SID>)
      requires Valid()
      modifies this`pos
      ensures old(pos) <= pos && Valid()
      ensures SidAgrees(ScanSid(text[old(pos)..], opt), r, text[pos..])
    {
      hide RawSidSize, ParseSidText;
      var start := pos;
      var token;
      if "S-" <= text[pos..] {
        var t := ScanRawSid();
        if t.None? {
          return None;
        }
        token := t.value;
      } else {
        if pos + 2 > |text| {
          return None;
        }
        token := text[pos..pos + 2];
        pos := pos + 2;
      }
      assert text[start..][..pos - start] == token && text[start..][pos - start..] == text[pos..];
      r := ParseSidText(opt, token);
    }

    /** The flag run of an ACL. */
    method SkipFlags() returns (ok: bool)
      requires Valid()
      modifies this`pos
      ensures ok == FlagRun(text[old(pos)..]).Some? && Moved(old(pos), FlagRun(text[old(pos)..]))
    {
      ghost var start := pos;
      while pos < |text|
        invariant start <= pos <= |text|
        invariant FlagRun(text[start..]) == After(FlagRun(text[pos..]), pos - start)
        decreases |text| - pos
      {
        var c := text[pos];
        if c == '(' || (pos + 1 < |text| && text[pos + 1] == ':' && ComponentTag(c)) {
          break;
        }
        if !FlagChar(c) {
          return false;
        }
        assert text[pos..][1..] == text[pos + 1..];
        pos := pos + 1;
      }
      ok := true;
    }

    /** scanACE. */
    method ParseOneAce() returns (r: Option<Ace>)
      requires Valid() && pos < |text| && text[pos] == '('
      modifies this`pos
      ensures old(pos) <= pos && Valid()
      ensures AceAgrees(ScanAce(text[old(pos)..], opt), r, text[pos..])
      ensures r.Some? ==> old(pos) < pos
    {
      hide CloseAt, ParseAce, AceOf;
      var open := pos;
      var end := FindClose(text, open);
      if end.None? {
        return None;
      }
      var body := text[open + 1..end.value];
      assert text[open..][1..end.value - open] == body && text[open..][end.value - open + 1..] == text[end.value + 1..];
      pos := end.value + 1;
      r := ParseAceBody(body, opt);
    }

    /** The ACEs of a list. */
    method ParseAces() returns (r: Option<seq<Ace>>)
      requires Valid()
      modifies this`pos
      ensures old(pos) <= pos && Valid()
      ensures AcesAgree(ScanAces(text[old(pos)..], opt), r, text[pos..])
    {
      hide ScanAces, ScanAce, AcesOf, AceOf;
      ghost var whole := ScanAces(text[pos..], opt);
      ghost var done: seq<TextAce> := [];
      var entries: seq<Ace> := [];
      MoreStart(whole);
      while pos < |text| && text[pos] == '('
        invariant old(pos) <= pos <= |text|
        invariant whole == More(done, ScanAces(text[pos..], opt)) && entries == AcesOf(done)
        decreases |text| - pos
      {
        MoreStep(done, text[pos..], opt);
        ghost var scanned := ScanAce(text[pos..], opt);
        var ace := ParseOneAce();
        if ace.None? {
          return None;
        }
        AcesAppend(done, scanned.value.0);
        done := done + [scanned.value.0];
        entries := entries + [ace.value];
      }
      MoreEnd(done, text[pos..], opt);
      r := Some(entries);
    }

    /** scanACL: the flags and list of a component, written into the descriptor. */
    method ParseAcl(d: Descriptor, isSacl: bool, ghost t: Tree) returns (r: Option<Descriptor>)
      requires Valid() && d == Build(t) && (if isSacl then t.sacl else t.dacl) == NULL_ACL
      modifies this`pos
      ensures old(pos) <= pos && Valid()
      ensures AclAgrees(ScanAcl(text[old(pos)..], opt), r, text[pos..], isSacl, t)
    {
      hide FlagRun, ReadAclFlags, ScanAces, Build, AcesOf, Raised;
      var start := pos;
      ghost var s := text[start..];
      var ok := SkipFlags();
      if !ok {
        return None;
      }
      assert s[..pos - start] == text[start..pos] && s[pos - start..] == text[pos..];
      var flags := ParseAclFlags(Raised(text[start..pos]));
      if flags.None? {
        return None;
      }
      var f := flags.value;
      if f.isNull && pos < |text| && text[pos] == '(' {
        return None;
      }
      var acl := None;
      ghost var aces := None;
      if !f.isNull {
        ghost var scanned := ScanAces(text[pos..], opt);
        var entries := ParseAces();
        if entries.None? {
          return None;
        }
        acl := Some(Acl(entries.value));
        aces := Some(scanned.value.0);
      }
      ghost var l := TextAcl(f.protected, f.requested, f.inherited, aces);
      r := Some(if isSacl then PutSacl(d, f, acl) else PutDacl(d, f, acl));
      BuildSection(t, l, f, isSacl);
    }

    /** parse: the components, each at most once, in any order. */
    method ParseParts() returns (r: Option<Descriptor>)
      requires Valid()
      modifies this`pos
      ensures r == BuiltTree(ScanParts(text[old(pos)..], opt, EMPTY, NOTHING))
    {
      hide ScanParts, ScanSid, ScanAcl, Build;
      ghost var whole := ScanParts(text[pos..], opt, EMPTY, NOTHING);
      ghost var t := EMPTY;
      var d := Descriptor(0, NO_SID, NO_SID, None, None);
      BuildEmpty();
      var seen := NOTHING;
      while pos < |text|
        invariant Valid() && d == Build(t)
        invariant (!seen.dacl ==> t.dacl == NULL_ACL) && (!seen.sacl ==> t.sacl == NULL_ACL)
        invariant whole == ScanParts(text[pos..], opt, t, seen)
        decreases |text| - pos
      {
        ghost var s := text[pos..];
        NextPart(s, opt, t, seen);
        if pos + 1 >= |text| || text[pos + 1] != ':' {
          return None;
        }
        var tag := text[pos];
        assert s[2..] == text[pos + 2..] && s[0] == tag;
        pos := pos + 2;
        if tag == 'O' && !seen.owner {
          ghost var scanned := ScanSid(text[pos..], opt);
          var sid := ParseSid();
          if sid.None? {
            return None;
          }
          BuildSids(t, sid.value);
          d, seen := d.(owner := sid.value), seen.(owner := true);
          t := t.(owner := sid.value);
        } else if tag == 'G' && !seen.group {
          var sid := ParseSid();
          if sid.None? {
            return None;
          }
          BuildSids(t, sid.value);
          d, seen := d.(group := sid.value), seen.(group := true);
          t := t.(group := sid.value);
        } else if tag == 'D' && !seen.dacl {
          ghost var scanned := ScanAcl(text[pos..], opt);
          var next := ParseAcl(d, false, t);
          if next.None? {
            return None;
          }
          d, seen := next.value, seen.(dacl := true);
          t := t.(dacl := scanned.value.0);
        } else if tag == 'S' && !seen.sacl {
          ghost var scanned := ScanAcl(text[pos..], opt);
          var next := ParseAcl(d, true, t);
          if next.None? {
            return None;
          }
          d, seen := next.value, seen.(sacl := true);
          t := t.(sacl := scanned.value.0);
        } else {
          return None;
        }
      }
      assert text[pos..] == "";
      NoMoreParts(opt, t, seen);
      r := Some(d);
    }
  }

  /** What is read agrees with its specification: the same verdict, the same value, the same text left. */
  ghost predicate SidAgrees(spec: Option<(SID, string)>, r: Option<SID>, rest: string) {
    if spec.None? then r == None else r == Some(spec.value.0) && rest == spec.value.1
  }

  ghost predicate AceAgrees(spec: Option<(TextAce, string)>, r: Option<Ace>, rest: string) {
    if spec.None? then r == None else r == Some(AceOf(spec.value.0)) && rest == spec.value.1
  }

  ghost predicate AcesAgree(spec: Option<(seq<TextAce>, string)>, r: Option<seq<Ace>>, rest: string) {
    if spec.None? then r == None else r == Some(AcesOf(spec.value.0)) && rest == spec.value.1
  }

  /** A section that agrees with its specification: the same verdict, the tree's descriptor, the same text left. */
  ghost predicate AclAgrees(spec: Option<(TextAcl, string)>, r: Option<Descriptor>, rest: string, isSacl: bool, t: Tree) {
    if spec.None? then r == None
    else r == Some(Build(WithSection(t, spec.value.0, isSacl))) && rest == spec.value.1
  }

  function WithSection(t: Tree, l: TextAcl, isSacl: bool): Tree {
    if isSacl then t.(sacl := l) else t.(dacl := l)
  }

  // --- specification of the loops --------------------------------------

  ghost function More(done: seq<TextAce>, rest: Option<(seq<TextAce>, string)>): Option<(seq<TextAce>, string)> {
    if rest.None? then None else Some((done + rest.value.0, rest.value.1))
  }

  lemma MoreStart(whole: Option<(seq<TextAce>, string)>)
    ensures More([], whole) == whole
  {
    if whole.Some? {
      assert [] + whole.value.0 == whole.value.0;
    }
  }

  lemma MoreStep(done: seq<TextAce>, s: string, o: Options)
    requires s != "" && s[0] == '('
    ensures var r := ScanAce(s, o);
            More(done, ScanAces(s, o)) == if r.None? then None else More(done + [r.value.0], ScanAces(r.value.1, o))
  {
    hide ScanAce;
    if ScanAce(s, o).Some? {
      var (a, rest) := ScanAce(s, o).value;
      if ScanAces(rest, o).Some? {
        var more := ScanAces(rest, o).value.0;
        assert done + ([a] + more) == done + [a] + more;
      }
    }
  }

  lemma MoreEnd(done: seq<TextAce>, s: string, o: Options)
    requires s == "" || s[0] != '('
    ensures More(done, ScanAces(s, o)) == Some((done, s))
  {
    assert done + [] == done;
  }

  lemma {:induction false} AcesAppend(aces: seq<TextAce>, a: TextAce)
    ensures AcesOf(aces + [a]) == AcesOf(aces) + [AceOf(a)]
  {
    hide AceOf;
    if aces != [] {
      AcesAppend(aces[1..], a);
      assert (aces + [a])[1..] == aces[1..] + [a];
    }
  }

  function WithBits(control: nat, present: nat, isNull: bool, protectedBit: nat, inheritedBit: nat, requestedBit: nat, f: AclFlags): nat
    requires present > 0 && protectedBit > 0 && inheritedBit > 0 && requestedBit > 0
  {
    With(With(With(With(control, present, !isNull), protectedBit, f.protected), inheritedBit, f.inherited), requestedBit, f.requested)
  }

  /** A descriptor with the control bits and list of a D: component. */
  function PutDacl(d: Descriptor, f: AclFlags, acl: Option<Acl>): Descriptor {
    d.(dacl := acl, control := WithBits(d.control, DACL_PRESENT, f.isNull, DACL_PROTECTED, DACL_AUTO_INHERITED, DACL_REQUESTED, f))
  }

  /** A descriptor with the control bits and list of an S: component. */
  function PutSacl(d: Descriptor, f: AclFlags, acl: Option<Acl>): Descriptor {
    d.(sacl := acl, control := WithBits(d.control, SACL_PRESENT, f.isNull, SACL_PROTECTED, SACL_AUTO_INHERITED, SACL_REQUESTED, f))
  }

  /** Setting a section's bits gives the control word of the tree with that section. */
  lemma DaclControl(s: TextAcl, l: TextAcl, f: AclFlags)
    requires f == AclFlags(l.protected, l.requested, l.inherited, l.aces.None?)
    ensures WithBits(ControlOf(NULL_ACL, s), DACL_PRESENT, f.isNull, DACL_PROTECTED, DACL_AUTO_INHERITED, DACL_REQUESTED, f)
         == ControlOf(l, s)
  {
    hide Has;
    ControlBits(NULL_ACL, s);
    ControlBits(NULL_ACL.(aces := l.aces), s);
    ControlBits(NULL_ACL.(aces := l.aces, protected := l.protected), s);
    ControlBits(l.(requested := false), s);
  }

  lemma SaclControl(d: TextAcl, l: TextAcl, f: AclFlags)
    requires f == AclFlags(l.protected, l.requested, l.inherited, l.aces.None?)
    ensures WithBits(ControlOf(d, NULL_ACL), SACL_PRESENT, f.isNull, SACL_PROTECTED, SACL_AUTO_INHERITED, SACL_REQUESTED, f)
         == ControlOf(d, l)
  {
    hide Has;
    ControlBits(d, NULL_ACL);
    ControlBits(d, NULL_ACL.(aces := l.aces));
    ControlBits(d, NULL_ACL.(aces := l.aces, protected := l.protected));
    ControlBits(d, l.(requested := false));
  }

  lemma BuildSection(t: Tree, l: TextAcl, f: AclFlags, isSacl: bool)
    requires (if isSacl then t.sacl else t.dacl) == NULL_ACL
    requires f == AclFlags(l.protected, l.requested, l.inherited, l.aces.None?)
    ensures if isSacl then Build(t.(sacl := l)) == PutSacl(Build(t), f, AclOf(l))
            else Build(t.(dacl := l)) == PutDacl(Build(t), f, AclOf(l))
  {
    hide ControlOf, AcesOf;
    if isSacl {
      SaclControl(t.dacl, l, f);
    } else {
      DaclControl(t.sacl, l, f);
    }
    hide WithBits;
  }

  ghost function BuiltTree(t: Option<Tree>): Option<Descriptor> {
    match t case None => None case Some(tree) => Some(Build(tree))
  }

  lemma BuildEmpty()
    ensures Build(EMPTY) == Descriptor(0, NO_SID, NO_SID, None, None)
  {
  }

  lemma BuildSids(t: Tree, sid: SID)
    ensures Build(t.(owner := sid)) == Build(t).(owner := sid) && Build(t.(group := sid)) == Build(t).(group := sid)
  {
    hide ControlOf, AcesOf;
  }

  lemma NoMoreParts(o: Options, t: Tree, seen: Seen)
    ensures ScanParts("", o, t, seen) == Some(t)
  {
  }

  /** What the next component makes of the rest. */
  ghost function NextParts(s: string, o: Options, t: Tree, seen: Seen): Option<Tree>
    requires |s| >= 2
  {
    if s[0] == 'O' && !seen.owner then
      var r := ScanSid(s[2..], o);
      if r.None? then None else ScanParts(r.value.1, o, t.(owner := r.value.0), seen.(owner := true))
    else if s[0] == 'G' && !seen.group then
      var r := ScanSid(s[2..], o);
      if r.None? then None else ScanParts(r.value.1, o, t.(group := r.value.0), seen.(group := true))
    else if s[0] == 'D' && !seen.dacl then
      var r := ScanAcl(s[2..], o);
      if r.None? then None else ScanParts(r.value.1, o, t.(dacl := r.value.0), seen.(dacl := true))
    else if s[0] == 'S' && !seen.sacl then
      var r := ScanAcl(s[2..], o);
      if r.None? then None else ScanParts(r.value.1, o, t.(sacl := r.value.0), seen.(sacl := true))
    else None
  }

  lemma NextPart(s: string, o: Options, t: Tree, seen: Seen)
    requires s != ""
    ensures ScanParts(s, o, t, seen) == if |s| < 2 || s[1] != ':' then None else NextParts(s, o, t, seen)
  {
    hide ScanSid, ScanAcl;
  }

  /** Parse. */
  method ParseDescriptor(s: string, o: Options) returns (r: Option<Descriptor>)
    ensures r == SddlText.Parse(s, o)
  {
    hide ScanParts, Build;
    var p := new Parser(TrimRight(TrimLeft(s)), o);
    assert p.text[p.pos..] == p.text;
    r := p.ParseParts();
  }
}
