/**
 Security descriptors as text (sddl/parse.go, sddl/format.go; section 2.5.1 of MS-DTYP): what a text
 denotes, and how a descriptor is rendered.
 */
module SddlText {
  import opened Wrappers
  import opened Bytes
  import opened Sid
  import opened Aliases
  import opened Aces
  import opened Descriptors
  import opened Conditions
  import opened SddlTables
  import ConditionLexer
  import ConditionParser
  import Decompiler

  // --- what a text denotes ---------------------------------------------

  /** An ACE as written; a callback ACE has a condition. */
  datatype TextAce = TextAce(kind: byte, flags: Flags, mask: u32, objectType: Option<Guid>, inheritedType: Option<Guid>,
                             sid: SID, cond: Option<Condition>)

  /** A D: or S: component; one with no ACEs at all, not even an empty list, is the NULL ACL. */
  datatype TextAcl = TextAcl(protected: bool, requested: bool, inherited: bool, aces: Option<seq<TextAce>>)

  /** A whole text. A component that is absent reads like an invalid SID or a NULL ACL without flags. */
  datatype Tree = Tree(owner: SID, group: SID, dacl: TextAcl, sacl: TextAcl)

  const NULL_ACL := TextAcl(false, false, false, None)
  const EMPTY := Tree(NO_SID, NO_SID, NULL_ACL, NULL_ACL)

  // --- from trees to descriptors ---------------------------------------

  const DACL_REQUESTED := 0x0100
  const SACL_REQUESTED := 0x0200

  function Structured(a: TextAce): Ace {
    Ace(a.kind, a.flags, a.mask, a.sid, a.objectType, a.inheritedType, None)
  }

  /** The body of a callback ACE with an encoded condition. */
  function CallbackBody(a: TextAce, artx: seq<byte>): seq<byte> {
    (if a.kind == ALLOWED_CALLBACK_OBJECT then ObjectBody(Structured(a)) else Le32(a.mask as int) + Encoded(a.sid)) + artx
  }

  function AceOf(a: TextAce): Ace {
    match a.cond
    case None => Structured(a)
    case Some(c) => Ace(a.kind, a.flags, 0, NO_SID, None, None, Some(CallbackBody(a, EncodedBody(Code(c)))))
  }

  function AcesOf(aces: seq<TextAce>): (r: seq<Ace>)
    ensures |r| == |aces|
  {
    if aces == [] then [] else [AceOf(aces[0])] + AcesOf(aces[1..])
  }

  function AclOf(l: TextAcl): Option<Acl> {
    match l.aces case None => None case Some(aces) => Some(Acl(AcesOf(aces)))
  }

  function ControlOf(d: TextAcl, s: TextAcl): nat {
    4 * Bit(d.aces.Some?) + 0x10 * Bit(s.aces.Some?) + 0x100 * Bit(d.requested)
    + 0x200 * Bit(s.requested) + 0x400 * Bit(d.inherited) + 0x800 * Bit(s.inherited)
    + 0x1000 * Bit(d.protected) + 0x2000 * Bit(s.protected)
  }

  function Build(t: Tree): Descriptor {
    Descriptor(ControlOf(t.dacl, t.sacl), t.owner, t.group, AclOf(t.dacl), AclOf(t.sacl))
  }

  // --- SIDs ------------------------------------------------------------

  predicate Digit(c: char) { '0' <= c <= '9' }

  /** The size of the number `s` starts with: a decimal run, or a hex run after 0x. */
  function NumberSize(s: string): (n: Option<nat>)
    ensures n.Some? ==> 0 < n.value <= |s|
  {
    if |s| >= 2 && s[0] == '0' && (s[1] == 'x' || s[1] == 'X') then
      var k := ConditionLexer.Span(s[2..], ConditionLexer.HexChar);
      if k == 0 then None else Some(2 + k)
    else
      var k := ConditionLexer.Span(s, Digit);
      if k == 0 then None else Some(k)
  }

  function SubsSize(s: string): (n: Option<nat>)
    ensures n.Some? ==> n.value <= |s|
    decreases |s|
  {
    if s == "" || s[0] != '-' then Some(0)
    else
      var k :- NumberSize(s[1..]);
      var more :- SubsSize(s[1 + k..]);
      Some(1 + k + more)
  }

  /** The size of an S-1-... literal: it stops at the first character that cannot continue it. */
  function RawSidSize(s: string): (n: Option<nat>)
    ensures n.Some? ==> n.value <= |s|
  {
    if !("S-1-" <= s) then None
    else
      var k :- NumberSize(s[4..]);
      var more :- SubsSize(s[4 + k..]);
      Some(4 + k + more)
  }

  function SidSize(s: string): (n: Option<nat>)
    ensures n.Some? ==> n.value <= |s|
  {
    if "S-" <= s then RawSidSize(s) else if |s| < 2 then None else Some(2)
  }

  /** The SID at the head of `s`, and what follows it. */
  function ScanSid(s: string, o: Options): (r: Option<(SID, string)>)
    ensures r.Some? ==> |r.value.1| <= |s|
  {
    var n :- SidSize(s);
    var sid :- ParseSidText(o, s[..n]);
    Some((sid, s[n..]))
  }

  // --- ACL flags -------------------------------------------------------

  predicate ComponentTag(c: char) { c == 'O' || c == 'G' || c == 'D' || c == 'S' }

  predicate FlagChar(c: char) { 'A' <= c <= 'Z' || 'a' <= c <= 'z' || c == '_' }

  /** The size of the flag run `s` starts with: up to an ACE, the next component or the end. */
  function FlagRun(s: string): (n: Option<nat>)
    ensures n.Some? ==> n.value <= |s|
  {
    if s == "" || s[0] == '(' || (|s| > 1 && s[1] == ':' && ComponentTag(s[0])) then Some(0)
    else if !FlagChar(s[0]) then None
    else
      var n :- FlagRun(s[1..]);
      Some(1 + n)
  }

  function Raised(s: string): (r: string)
    ensures |r| == |s|
  {
    if s == "" then "" else [if 'a' <= s[0] <= 'z' then s[0] - 'a' + 'A' else s[0]] + Raised(s[1..])
  }

  predicate RaisedChar(c: char) { 'A' <= c <= 'Z' || c == '_' }

  function NullWord(): (w: string)
    ensures |w| == 17 && w[0] == 'N' && ConditionLexer.All(w, RaisedChar)
  {
    "NO_ACCESS_CONTROL"
  }

  datatype AclFlags = AclFlags(protected: bool, requested: bool, inherited: bool, isNull: bool)

  const NO_ACL_FLAGS := AclFlags(false, false, false, false)

  /** `f` with every flag the run `s` names; the NULL ACL can be named once only. */
  function ReadAclFlags(f: AclFlags, s: string): Option<AclFlags>
    decreases |s|
  {
    if s == "" then Some(f)
    else if NullWord() <= s then if f.isNull then None else ReadAclFlags(f.(isNull := true), s[17..])
    else if s[0] == 'P' then ReadAclFlags(f.(protected := true), s[1..])
    else if |s| >= 2 && s[0] == 'A' && s[1] == 'I' then ReadAclFlags(f.(inherited := true), s[2..])
    else if |s| >= 2 && s[0] == 'A' && s[1] == 'R' then ReadAclFlags(f.(requested := true), s[2..])
    else None
  }

  // --- ACEs ------------------------------------------------------------

  function Nesting(c: char): int { if c == '(' then 1 else if c == ')' then -1 else 0 }

  /** Where the parenthesis is closed that is `depth` deep at the start of `s`. Quotes mean nothing here. */
  function CloseAt(s: string, depth: int): (n: Option<nat>)
    ensures n.Some? ==> n.value < |s|
  {
    if s == "" then None
    else
      var next := depth + Nesting(s[0]);
      if s[0] == ')' && next == 0 then Some(0)
      else
        var n :- CloseAt(s[1..], next);
        Some(1 + n)
  }

  /** The fields of an ACE body: split at the semicolons outside parentheses. */
  function Fields(s: string, depth: int): (fs: seq<string>)
    ensures |fs| > 0
  {
    if s == "" then [""]
    else if s[0] == ';' && depth == 0 then [""] + Fields(s[1..], depth)
    else
      var rest := Fields(s[1..], depth + Nesting(s[0]));
      [[s[0]] + rest[0]] + rest[1..]
  }

  function GuidField(s: string): Option<Option<Guid>> {
    if s == "" then Some(None)
    else
      var g :- GuidOfText(s);
      Some(Some(g))
  }

  predicate CarriesGuids(kind: byte) { IsObject(kind) || kind == ALLOWED_CALLBACK_OBJECT }

  /** The condition of a callback ACE, from its seventh field. */
  function CondField(kind: byte, fs: seq<string>, o: Options): Option<Option<Condition>>
    requires |fs| == if IsCallback(kind) then 7 else 6
  {
    if !IsCallback(kind) then Some(None)
    else
      var c :- ConditionParser.ParseConditionText(fs[6], o);
      Some(Some(c))
  }

  function AceOfFields(kind: byte, fs: seq<string>, o: Options): Option<TextAce>
    requires |fs| == if IsCallback(kind) then 7 else 6
  {
    var flags :- FlagsOfText(fs[1]);
    var mask :- MaskOfText(fs[2]);
    var objectType :- GuidField(fs[3]);
    var inheritedType :- GuidField(fs[4]);
    if (objectType.Some? || inheritedType.Some?) && !CarriesGuids(kind) then None
    else if fs[5] == "" then None
    else
      var sid :- ParseSidText(o, fs[5]);
      var cond :- CondField(kind, fs, o);
      Some(TextAce(kind, flags, mask, objectType, inheritedType, sid, cond))
  }

  /** The ACE a body denotes: six fields, or seven when it is a callback ACE. */
  function ParseAce(body: string, o: Options): Option<TextAce> {
    var fs := Fields(body, 0);
    if |fs| < 6 then None
    else
      var kind :- TypeOfTag(fs[0]);
      if !IsSupported(kind) || |fs| != (if IsCallback(kind) then 7 else 6) then None
      else AceOfFields(kind, fs, o)
  }

  function ScanAce(s: string, o: Options): (r: Option<(TextAce, string)>)
    requires s != "" && s[0] == '('
    ensures r.Some? ==> |r.value.1| < |s|
  {
    var end :- CloseAt(s, 0);
    var a :- ParseAce(s[1..end], o);
    Some((a, s[end + 1..]))
  }

  function ScanAces(s: string, o: Options): (r: Option<(seq<TextAce>, string)>)
    ensures r.Some? ==> |r.value.1| <= |s|
    decreases |s|
  {
    if s == "" || s[0] != '(' then Some(([], s))
    else
      var (a, rest) :- ScanAce(s, o);
      var (more, after) :- ScanAces(rest, o);
      Some(([a] + more, after))
  }

  /** The component after a D: or S:. */
  function ScanAcl(s: string, o: Options): (r: Option<(TextAcl, string)>)
    ensures r.Some? ==> |r.value.1| <= |s|
  {
    var n :- FlagRun(s);
    var f :- ReadAclFlags(NO_ACL_FLAGS, Raised(s[..n]));
    if f.isNull then
      if n < |s| && s[n] == '(' then None
      else Some((TextAcl(f.protected, f.requested, f.inherited, None), s[n..]))
    else
      var (aces, rest) :- ScanAces(s[n..], o);
      Some((TextAcl(f.protected, f.requested, f.inherited, Some(aces)), rest))
  }

  // --- whole texts -----------------------------------------------------

  /** The components met so far. */
  datatype Seen = Seen(owner: bool, group: bool, dacl: bool, sacl: bool)

  const NOTHING := Seen(false, false, false, false)

  /** The components of `s` added to those of `t`: any subset, in any order, none twice. */
  function ScanParts(s: string, o: Options, t: Tree, seen: Seen): Option<Tree>
    decreases |s|
  {
    if s == "" then Some(t)
    else if |s| < 2 || s[1] != ':' then None
    else if s[0] == 'O' && !seen.owner then
      var (sid, rest) :- ScanSid(s[2..], o);
      ScanParts(rest, o, t.(owner := sid), seen.(owner := true))
    else if s[0] == 'G' && !seen.group then
      var (sid, rest) :- ScanSid(s[2..], o);
      ScanParts(rest, o, t.(group := sid), seen.(group := true))
    else if s[0] == 'D' && !seen.dacl then
      var (acl, rest) :- ScanAcl(s[2..], o);
      ScanParts(rest, o, t.(dacl := acl), seen.(dacl := true))
    else if s[0] == 'S' && !seen.sacl then
      var (acl, rest) :- ScanAcl(s[2..], o);
      ScanParts(rest, o, t.(sacl := acl), seen.(sacl := true))
    else None
  }

  /** unicode.IsSpace. */
  predicate IsSpace(c: char) {
    '\t' <= c <= '\r' || c == ' ' || c == '\U{85}' || c == '\U{A0}' || c == '\U{1680}' || '\U{2000}' <= c <= '\U{200A}'
    || c == '\U{2028}' || c == '\U{2029}' || c == '\U{202F}' || c == '\U{205F}' || c == '\U{3000}'
  }

  function TrimLeft(s: string): string {
    if s != "" && IsSpace(s[0]) then TrimLeft(s[1..]) else s
  }

  function TrimRight(s: string): string {
    if s != "" && IsSpace(s[|s| - 1]) then TrimRight(s[..|s| - 1]) else s
  }

  /** The tree a text denotes, white space around it aside. */
  function TreeOf(s: string, o: Options): Option<Tree> {
    ScanParts(TrimRight(TrimLeft(s)), o, EMPTY, NOTHING)
  }

  /** Parse. */
  function Parse(s: string, o: Options): Option<Descriptor> {
    var t :- TreeOf(s, o);
    Some(Build(t))
  }

  // --- rendering descriptors -------------------------------------------

  function GuidFieldText(g: Option<Guid>): string {
    match g case None => "" case Some(guid) => GuidText(guid)
  }

  /** A parenthesised clause of six fields, and a condition when there is one. */
  function Clause(tag: string, flags: Flags, mask: u32, objectType: Option<Guid>, inheritedType: Option<Guid>, sid: string,
                  cond: string): string
  {
    "(" + tag + ";" + FlagsText(flags) + ";" + MaskText(mask) + ";" + GuidFieldText(objectType) + ";"
    + GuidFieldText(inheritedType) + ";" + sid + cond + ")"
  }

  function Group(text: string): string { ";(" + text + ")" }

  /** formatACE. */
  function FormatAce(a: Ace, o: Options): Option<string> {
    var tag :- TagOfType(a.kind);
    if !IsSupported(a.kind) || a.flags.spare then None
    else if IsCallback(a.kind) then FormatCallback(a, tag, o)
    else Some(Clause(tag, a.flags, a.mask, a.objectType, a.inheritedType, FormatSid(o, a.sid), ""))
  }

  /** Which GUIDs an object header at `off` holds, and where it ends; other callback types have no header. */
  function ObjectHeader(kind: byte, body: seq<byte>): (r: Option<(Option<Guid>, Option<Guid>, nat)>)
    requires |body| >= 4
    ensures r.Some? ==> r.value.2 <= |body|
  {
    if kind != ALLOWED_CALLBACK_OBJECT then Some((None, None, 4))
    else if |body| < 8 then None
    else
      var present := Word32(body[4..]);
      var (objectType, off) :- GuidAt(body, 8, Odd(present));
      var (inheritedType, end) :- GuidAt(body, off, Odd(present / 2));
      Some((objectType, inheritedType, end))
  }

  function RawBody(a: Ace): seq<byte> {
    match a.raw case None => [] case Some(body) => body
  }

  /** formatCallbackACE: the raw body is a mask, an object header for some types, a SID and the encoded condition. */
  function FormatCallback(a: Ace, tag: string, o: Options): Option<string> {
    var body := RawBody(a);
    if |body| < 4 then None
    else
      var (objectType, inheritedType, off) :- ObjectHeader(a.kind, body);
      var sid :- ParseSID(body[off..]);
      var text :- Decompiler.DecodeCondition(body[off + |Encoded(sid)|..], o);
      Some(Clause(tag, a.flags, Word32(body) as u32, objectType, inheritedType, FormatSid(o, sid), Group(text)))
  }

  function FormatAces(aces: seq<Ace>, o: Options): Option<string> {
    if aces == [] then Some("")
    else
      var first :- FormatAce(aces[0], o);
      var rest :- FormatAces(aces[1..], o);
      Some(first + rest)
  }

  function Letter(on: bool, c: char): string { if on then [c] else "" }

  function AclFlagsText(protected: bool, requested: bool, inherited: bool): string {
    Letter(protected, 'P') + FlagCode(requested, 'A', 'R') + FlagCode(inherited, 'A', 'I')
  }

  /** formatACLFlags. */
  function ControlFlags(control: nat, sacl: bool): string {
    AclFlagsText(Has(control, if sacl then SACL_PROTECTED else DACL_PROTECTED),
                 Has(control, if sacl then SACL_REQUESTED else DACL_REQUESTED),
                 Has(control, if sacl then SACL_AUTO_INHERITED else DACL_AUTO_INHERITED))
  }

  /** formatACLSection: a NULL ACL is left out unless it carries flags. */
  function FormatSection(tag: char, acl: Option<Acl>, flags: string, o: Options): Option<string> {
    match acl
    case None => Some(if flags == "" then "" else [tag, ':'] + flags + NullWord())
    case Some(l) =>
      var aces :- FormatAces(l.entries, o);
      Some([tag, ':'] + flags + aces)
  }

  function SidPart(tag: char, sid: SID, o: Options): string {
    if IsValid(sid) then [tag, ':'] + FormatSid(o, sid) else ""
  }

  /** The NULL DACL an empty text stands for. */
  function OrNull(s: string): string {
    if s == "" then "D:" + NullWord() else s
  }

  /** Format: None when presence bits and lists disagree, or an ACE has no text. */
  function Format(d: Descriptor, o: Options): Option<string> {
    if (Has(d.control, DACL_PRESENT) && d.dacl.None?) || (Has(d.control, SACL_PRESENT) && d.sacl.None?) then None
    else
      var dacl :- FormatSection('D', d.dacl, ControlFlags(d.control, false), o);
      var sacl :- FormatSection('S', d.sacl, ControlFlags(d.control, true), o);
      Some(OrNull(SidPart('O', d.owner, o) + SidPart('G', d.group, o) + dacl + sacl))
  }

  // --- rendering trees -------------------------------------------------

  function TagText(kind: byte): string {
    match TagOfType(kind) case None => "" case Some(tag) => tag
  }

  function CondText(c: Option<Condition>, o: Options): string {
    match c case None => "" case Some(cond) => Group(Decompiler.ConditionText(cond, o))
  }

  function AceText(a: TextAce, o: Options): string {
    Clause(TagText(a.kind), a.flags, a.mask, a.objectType, a.inheritedType, FormatSid(o, a.sid), CondText(a.cond, o))
  }

  function AcesText(aces: seq<TextAce>, o: Options): string {
    if aces == [] then "" else AceText(aces[0], o) + AcesText(aces[1..], o)
  }

  function AclBody(l: TextAcl, o: Options): string {
    AclFlagsText(l.protected, l.requested, l.inherited)
    + match l.aces case None => NullWord() case Some(aces) => AcesText(aces, o)
  }

  function SectionText(tag: char, l: TextAcl, o: Options): string {
    if l == NULL_ACL then "" else [tag, ':'] + AclBody(l, o)
  }

  function TreeText(t: Tree, o: Options): string {
    OrNull(SidPart('O', t.owner, o) + SidPart('G', t.group, o) + SectionText('D', t.dacl, o) + SectionText('S', t.sacl, o))
  }
}
