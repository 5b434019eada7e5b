/** The SDDL renderer as it runs: builders filled section by section (sddl/format.go). */
module SddlFormatter {
  import opened Wrappers
  import opened Bytes
  import opened Sid
  import opened Aliases
  import opened Aces
  import opened Descriptors
  import opened SddlTables
  import opened SddlText
  import Decompiler

  /** guidAt. */
  method GuidFrom(body: seq<byte>, off: nat) returns (g: Option<Guid>)
    ensures g == if off + 16 > |body| then None else Some(body[off..off + 16])
  {
    if off + 16 > |body| {
      return None;
    }
    g := Some(body[off..off + 16]);
  }

  /** The object header of a callback body: `off` advances over the presence word and each GUID that is there. */
  method ReadObjectHeader(kind: byte, body: seq<byte>) returns (r: Option<(Option<Guid>, Option<Guid>, nat)>)
    requires |body| >= 4
    ensures r == ObjectHeader(kind, body)
  {
    hide Word32;
    var off := 4;
    var objectType, inheritedType: Option<Guid> := None, None;
    if kind == ALLOWED_CALLBACK_OBJECT {
      if |body| < 8 {
        return None;
      }
      var present := Word32(body[4..]);
      off := 8;
      if Odd(present) {
        objectType := GuidFrom(body, off);
        if objectType.None? {
          return None;
        }
        off := off + 16;
      }
      if Odd(present / 2) {
        inheritedType := GuidFrom(body, off);
        if inheritedType.None? {
          return None;
        }
        off := off + 16;
      }
    }
    r := Some((objectType, inheritedType, off));
  }

  /** formatCallbackACE. */
  method FormatCallbackAce(a: Ace, tag: string, o: Options) returns (r: Option<string>)
    ensures r == FormatCallback(a, tag, o)
  {
    hide ObjectHeader, ParseSID, Decompiler.DecodeCondition, Clause, FormatSid, Word32;
    var body := RawBody(a);
    if |body| < 4 {
      return None;
    }
    var header := ReadObjectHeader(a.kind, body);
    if header.None? {
      return None;
    }
    var (objectType, inheritedType, off) := header.value;
    var sid := ParseSID(body[off..]);
    if sid.None? {
      return None;
    }
    off := off + |Encoded(sid.value)|;
    var text := Decompiler.Decompile(body[off..], o);
    if text.None? {
      return None;
    }
    r := Some(Clause(tag, a.flags, Word32(body) as u32, objectType, inheritedType, FormatSid(o, sid.value), Group(text.value)));
  }

  method FormatOneAce(a: Ace, o: Options) returns (r: Option<string>)
    ensures r == FormatAce(a, o)
  {
    hide TagOfType, FormatCallback, FormatSid, FlagsText, MaskText, GuidFieldText;
    var tag := TagOfType(a.kind);
    if tag.None? || !IsSupported(a.kind) || a.flags.spare {
      return None;
    }
    if IsCallback(a.kind) {
      r := FormatCallbackAce(a, tag.value, o);
      return;
    }
    var flags := WriteFlags(a.flags);
    var text := "(" + tag.value + ";" + flags + ";" + MaskText(a.mask) + ";" + GuidFieldText(a.objectType) + ";"
      + GuidFieldText(a.inheritedType) + ";" + FormatSid(o, a.sid) + "" + ")";
    r := Some(text);
  }

  /** formatACEs, appending to a builder. */
  method WriteAces(start: string, aces: seq<Ace>, o: Options) returns (r: Option<string>)
    ensures r == match FormatAces(aces, o) case None => None case Some(text) => Some(start + text)
  {
    hide FormatAces, FormatAce;
    var b := start;
    assert aces[0..] == aces;
    for i := 0 to |aces|
      invariant Written(start, FormatAces(aces, o)) == Written(b, FormatAces(aces[i..], o))
    {
      NextAce(b, aces, i, o);
      var text := FormatOneAce(aces[i], o);
      if text.None? {
        return None;
      }
      b := b + text.value;
    }
    LastAce(b, aces[|aces|..], o);
    r := Some(b);
  }

  ghost function Written(start: string, rest: Option<string>): Option<string> {
    match rest case None => None case Some(text) => Some(start + text)
  }

  lemma NextAce(b: string, aces: seq<Ace>, i: nat, o: Options)
    requires i < |aces|
    ensures Written(b, FormatAces(aces[i..], o)) ==
            match FormatAce(aces[i], o) case None => None case Some(text) => Written(b + text, FormatAces(aces[i + 1..], o))
  {
    hide FormatAce;
    assert aces[i..][1..] == aces[i + 1..];
    if FormatAce(aces[i], o).Some? && FormatAces(aces[i + 1..], o).Some? {
      var text, more := FormatAce(aces[i], o).value, FormatAces(aces[i + 1..], o).value;
      assert b + (text + more) == b + text + more;
    }
  }

  lemma LastAce(b: string, none: seq<Ace>, o: Options)
    requires none == []
    ensures Written(b, FormatAces(none, o)) == Some(b)
  {
    assert b + "" == b;
  }

  /** formatACLFlags. */
  method WriteAclFlags(control: nat, sacl: bool) returns (s: string)
    ensures s == ControlFlags(control, sacl)
  {
    hide Has;
    var protected, inherited, requested := DACL_PROTECTED, DACL_AUTO_INHERITED, DACL_REQUESTED;
    if sacl {
      protected, inherited, requested := SACL_PROTECTED, SACL_AUTO_INHERITED, SACL_REQUESTED;
    }
    s := "";
    if Has(control, protected) {
      s := s + "P";
    }
    if Has(control, requested) {
      s := s + "AR";
    }
    if Has(control, inherited) {
      s := s + "AI";
    }
  }

  /** formatACLSection, appending to a builder. */
  method WriteSection(start: string, tag: char, acl: Option<Acl>, flags: string, o: Options) returns (r: Option<string>)
    ensures r == Written(start, FormatSection(tag, acl, flags, o))
  {
    hide FormatAces, NullWord;
    if acl.None? {
      if flags != "" {
        return Some(start + ([tag, ':'] + flags + NullWord()));
      }
      assert start + "" == start;
      return Some(start);
    }
    r := WriteAces(start + ([tag, ':'] + flags), acl.value.entries, o);
    if FormatAces(acl.value.entries, o).Some? {
      var text := FormatAces(acl.value.entries, o).value;
      assert start + ([tag, ':'] + flags) + text == start + ([tag, ':'] + flags + text);
    }
  }

  /** formatDescriptor. */
  method FormatDescriptor(d: Descriptor, o: Options) returns (r: Option<string>)
    ensures r == Format(d, o)
  {
    hide FormatSection, ControlFlags, FormatSid, NullWord, Has;
    var b := "";
    if IsValid(d.owner) {
      b := b + (['O', ':'] + FormatSid(o, d.owner));
    }
    if IsValid(d.group) {
      b := b + (['G', ':'] + FormatSid(o, d.group));
    }
    assert b == SidPart('O', d.owner, o) + SidPart('G', d.group, o);
    if (Has(d.control, DACL_PRESENT) && d.dacl.None?) || (Has(d.control, SACL_PRESENT) && d.sacl.None?) {
      return None;
    }
    var flags := WriteAclFlags(d.control, false);
    var text := WriteSection(b, 'D', d.dacl, flags, o);
    if text.None? {
      return None;
    }
    flags := WriteAclFlags(d.control, true);
    text := WriteSection(text.value, 'S', d.sacl, flags, o);
    if text.None? {
      return None;
    }
    b := text.value;
    if b == "" {
      b := "D:" + NullWord();
    }
    r := Some(b);
  }
}
