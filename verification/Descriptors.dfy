/** ACLs and self-relative security descriptors (sd/acl.go, sd/descriptor.go; sections 2.4.5 and 2.4.6 of MS-DTYP). */
module Descriptors {
  import opened Wrappers
  import opened Bytes
  import opened Sid
  import opened Aces

  // --- access-control lists --------------------------------------------

  datatype Acl = Acl(entries: seq<Ace>)

  function MarshalAces(entries: seq<Ace>): Option<seq<byte>> {
    if entries == [] then Some([])
    else
      var first :- Marshal(entries[0]);
      var rest :- MarshalAces(entries[1..]);
      Some(first + rest)
  }

  predicate AnyDs(entries: seq<Ace>) {
    exists i :: 0 <= i < |entries| && NeedsDs(entries[i].kind)
  }

  function AclHeader(ds: bool, size: nat, count: nat): (b: seq<byte>)
    ensures |b| == 8
  {
    [if ds then 4 else 2, 0] + Le16(size) + Le16(count) + [0, 0]
  }

  function MarshalAcl(l: Acl): (r: Option<seq<byte>>)
    ensures r.Some? ==> 8 <= |r.value| < TWO_16
  {
    if |l.entries| > 0xFFFF then None
    else
      var aces :- MarshalAces(l.entries);
      if 8 + |aces| > 0xFFFF then None
      else Some(AclHeader(AnyDs(l.entries), 8 + |aces|, |l.entries|) + aces)
  }

  function ParseAces(b: seq<byte>, count: nat): Option<seq<Ace>>
    decreases count
  {
    if count == 0 then Some([])
    else
      var (a, n) :- Parse(b);
      var rest :- ParseAces(b[n..], count - 1);
      Some([a] + rest)
  }

  /** An ACL at the start of `buf`; bytes inside it after its last ACE are ignored. */
  function ParseAcl(buf: seq<byte>): Option<Acl> {
    if |buf| < 8 then None
    else
      var size, count := Word16(buf[2..]), Word16(buf[4..]);
      if size < 8 || size > |buf| then None
      else
        var entries :- ParseAces(buf[8..size], count);
        Some(Acl(entries))
  }

  /** ACL.Marshal: one pass over the entries. */
  method BuildAcl(l: Acl) returns (r: Option<seq<byte>>)
    ensures r == MarshalAcl(l)
  {
    if |l.entries| > 0xFFFF {
      return None;
    }
    var aces: seq<byte> := [];
    var ds := false;
    assert l.entries[0..] == l.entries;
    MarshalStart(MarshalAces(l.entries));
    for i := 0 to |l.entries|
      invariant Remaining(MarshalAces(l.entries), aces, MarshalAces(l.entries[i..]))
      invariant ds == AnyDs(l.entries[..i])
    {
      MarshalStep(l.entries, i, aces);
      var b := Marshal(l.entries[i]);
      if b.None? {
        return None;
      }
      aces := aces + b.value;
      DsStep(l.entries, i);
      if NeedsDs(l.entries[i].kind) {
        ds := true;
      }
    }
    assert aces + [] == aces && l.entries[..|l.entries|] == l.entries;
    var size := 8 + |aces|;
    if size > 0xFFFF {
      return None;
    }
    r := Some(AclHeader(ds, size, |l.entries|) + aces);
  }

  ghost predicate Remaining(whole: Option<seq<byte>>, done: seq<byte>, rest: Option<seq<byte>>) {
    whole == match rest case None => None case Some(more) => Some(done + more)
  }

  lemma MarshalStart(whole: Option<seq<byte>>)
    ensures Remaining(whole, [], whole)
  {
    if whole.Some? {
      assert [] + whole.value == whole.value;
    }
  }

  lemma MarshalStep(entries: seq<Ace>, i: nat, done: seq<byte>)
    requires i < |entries| && Remaining(MarshalAces(entries), done, MarshalAces(entries[i..]))
    ensures Marshal(entries[i]).None? ==> MarshalAces(entries) == None
    ensures Marshal(entries[i]).Some? ==> Remaining(MarshalAces(entries), done + Marshal(entries[i]).value, MarshalAces(entries[i + 1..]))
  {
    hide Marshal;
    assert entries[i..][1..] == entries[i + 1..];
    if Marshal(entries[i]).Some? && MarshalAces(entries[i + 1..]).Some? {
      var b, more := Marshal(entries[i]).value, MarshalAces(entries[i + 1..]).value;
      assert done + (b + more) == done + b + more;
    }
  }

  lemma DsStep(entries: seq<Ace>, i: nat)
    requires i < |entries|
    ensures AnyDs(entries[..i + 1]) <==> AnyDs(entries[..i]) || NeedsDs(entries[i].kind)
  {
    if AnyDs(entries[..i]) {
      var j :| 0 <= j < i && NeedsDs(entries[..i][j].kind);
      assert NeedsDs(entries[..i + 1][j].kind);
    }
    if NeedsDs(entries[i].kind) {
      assert NeedsDs(entries[..i + 1][i].kind);
    }
  }

  /** ParseACL's loop, taking ACEs off the front of what is left. */
  method ParseEntries(b: seq<byte>, count: nat) returns (r: Option<seq<Ace>>)
    ensures r == ParseAces(b, count)
  {
    hide ParseAces, Parse;
    var entries: seq<Ace> := [];
    var rest := b;
    StillStart(ParseAces(b, count));
    for i := 0 to count
      invariant Still(ParseAces(b, count), entries, ParseAces(rest, count - i))
    {
      StillStep(ParseAces(b, count), entries, rest, count - i);
      var parsed := Parse(rest);
      if parsed.None? {
        return None;
      }
      var (a, n) := parsed.value;
      entries := entries + [a];
      rest := rest[n..];
    }
    NoAces(rest);
    assert entries + [] == entries;
    r := Some(entries);
  }

  /** What the whole parse gives, once `done` has been read. */
  ghost predicate Still(whole: Option<seq<Ace>>, done: seq<Ace>, rest: Option<seq<Ace>>) {
    whole == match rest case None => None case Some(more) => Some(done + more)
  }

  lemma StillStart(whole: Option<seq<Ace>>)
    ensures Still(whole, [], whole)
  {
    if whole.Some? {
      assert [] + whole.value == whole.value;
    }
  }

  lemma StillStep(whole: Option<seq<Ace>>, done: seq<Ace>, b: seq<byte>, count: nat)
    requires count > 0 && Still(whole, done, ParseAces(b, count))
    ensures Parse(b).None? ==> whole == None
    ensures Parse(b).Some? ==> Still(whole, done + [Parse(b).value.0], ParseAces(b[Parse(b).value.1..], count - 1))
  {
    hide Parse;
    if Parse(b).Some? {
      var (a, n) := Parse(b).value;
      if ParseAces(b[n..], count - 1).Some? {
        var more := ParseAces(b[n..], count - 1).value;
        assert done + ([a] + more) == done + [a] + more;
      }
    }
  }

  lemma NoAces(b: seq<byte>)
    ensures ParseAces(b, 0) == Some([])
  {
  }

  predicate AllClean(entries: seq<Ace>) {
    forall i :: 0 <= i < |entries| ==> Clean(entries[i])
  }

  lemma {:induction false} AcesBack(entries: seq<Ace>)
    requires MarshalAces(entries).Some? && AllClean(entries)
    ensures ParseAces(MarshalAces(entries).value, |entries|) == Some(entries)
  {
    hide Marshal, Parse, Clean;
    if entries != [] {
      var first, rest := Marshal(entries[0]).value, MarshalAces(entries[1..]).value;
      MarshalParses(entries[0], rest);
      AcesBack(entries[1..]);
      assert (first + rest)[|first|..] == rest;
      assert entries == [entries[0]] + entries[1..];
    }
  }

  lemma AclHeaderWords(ds: bool, size: nat, count: nat, rest: seq<byte>)
    requires size < TWO_16 && count < TWO_16
    ensures var b := AclHeader(ds, size, count) + rest;
            Word16(b[2..]) == size && Word16(b[4..]) == count && b[8..] == rest
  {
    hide Le16, Word16;
    var b := AclHeader(ds, size, count) + rest;
    Word16OfLe16(size, Le16(count) + ([0, 0] + rest));
    Word16OfLe16(count, [0, 0] + rest);
    assert b[2..] == Le16(size) + (Le16(count) + ([0, 0] + rest));
    assert b[4..] == Le16(count) + ([0, 0] + rest);
  }

  /** A marshalled ACL of canonical ACEs is read back as itself, whatever follows it. */
  lemma AclBack(l: Acl, rest: seq<byte>)
    requires MarshalAcl(l).Some? && AllClean(l.entries)
    ensures ParseAcl(MarshalAcl(l).value + rest) == Some(l)
  {
    hide AclHeader, MarshalAces, ParseAces, AllClean, AnyDs, Word16;
    var aces := MarshalAces(l.entries).value;
    var header := AclHeader(AnyDs(l.entries), 8 + |aces|, |l.entries|);
    AclHeaderWords(AnyDs(l.entries), 8 + |aces|, |l.entries|, aces + rest);
    AcesBack(l.entries);
    var buf := header + aces + rest;
    assert buf == header + (aces + rest);
    assert buf[8..8 + |aces|] == buf[8..][..|aces|] == aces;
  }

  /** The directory-services revision if and only if some ACE is of a type from 0x05 to 0x10; sizes as they are. */
  lemma AclFront(l: Acl)
    requires MarshalAcl(l).Some?
    ensures var b := MarshalAcl(l).value;
            && b[0] == (if exists i :: 0 <= i < |l.entries| && 0x05 <= l.entries[i].kind <= 0x10 then 4 else 2)
            && b[1] == b[6] == b[7] == 0 && Word16(b[2..]) == |b| && Word16(b[4..]) == |l.entries|
  {
    hide MarshalAces, Word16, Le16;
    var aces := MarshalAces(l.entries).value;
    AclHeaderWords(AnyDs(l.entries), 8 + |aces|, |l.entries|, aces);
    if AnyDs(l.entries) {
      var i :| 0 <= i < |l.entries| && NeedsDs(l.entries[i].kind);
      assert 0x05 <= l.entries[i].kind <= 0x10;
    }
  }

  /** Bytes that are these ACEs one after the other, with slack allowed behind the last. */
  predicate AcesLie(b: seq<byte>, entries: seq<Ace>) {
    entries == []
    || (|b| >= 4 && 4 <= Word16(b[2..]) <= |b| && AceLies(b[..Word16(b[2..])], entries[0])
        && AcesLie(b[Word16(b[2..])..], entries[1..]))
  }

  /** Bytes that start with an ACL: its size and count are in the header, its revision is not looked at. */
  predicate AclLies(b: seq<byte>, l: Acl) {
    && |b| >= 8 && 8 <= Word16(b[2..]) <= |b| && Word16(b[4..]) == |l.entries|
    && AcesLie(b[8..Word16(b[2..])], l.entries)
  }

  lemma {:induction false} AcesAreRead(b: seq<byte>, entries: seq<Ace>)
    ensures ParseAces(b, |entries|) == Some(entries) <==> AcesLie(b, entries)
    decreases |entries|
  {
    hide AceLies, Parse, Word16;
    if entries != [] {
      ParsedSize(b);
      if |b| >= 4 && 4 <= Word16(b[2..]) <= |b| {
        var n := Word16(b[2..]);
        assert b[..n] + b[n..] == b;
        AceIsRead(b[..n], entries[0], b[n..]);
        AcesAreRead(b[n..], entries[1..]);
        var first := Parse(b);
        if first.Some? && ParseAces(b[n..], |entries| - 1).Some? {
          var more := ParseAces(b[n..], |entries| - 1).value;
          assert ([first.value.0] + more)[0] == first.value.0 && ([first.value.0] + more)[1..] == more;
          assert entries == [entries[0]] + entries[1..];
        }
      }
    }
  }

  lemma ParsedSize(b: seq<byte>)
    ensures Parse(b).Some? ==> |b| >= 4 && Parse(b).value.1 == Word16(b[2..])
  {
    hide Word16, ParseBody;
  }

  /** On any bytes: what is parsed is exactly the list that lies there. */
  lemma AclIsRead(b: seq<byte>, l: Acl)
    ensures ParseAcl(b) == Some(l) <==> AclLies(b, l)
  {
    hide ParseAces, AcesLie, Word16;
    if |b| >= 8 && 8 <= Word16(b[2..]) <= |b| {
      AcesAreRead(b[8..Word16(b[2..])], l.entries);
      CountOfAces(b[8..Word16(b[2..])], Word16(b[4..]));
    }
  }

  lemma {:induction false} CountOfAces(b: seq<byte>, count: nat)
    ensures ParseAces(b, count).Some? ==> |ParseAces(b, count).value| == count
    decreases count
  {
    hide Parse;
    if count > 0 && Parse(b).Some? {
      CountOfAces(b[Parse(b).value.1..], count - 1);
    }
  }

  // --- security descriptors --------------------------------------------

  const DACL_PRESENT := 0x0004
  const SACL_PRESENT := 0x0010
  const DACL_AUTO_INHERITED := 0x0400
  const SACL_AUTO_INHERITED := 0x0800
  const DACL_PROTECTED := 0x1000
  const SACL_PROTECTED := 0x2000
  const SELF_RELATIVE := 0x8000
  const HEADER := 20

  /** Whether a control word has a bit. */
  predicate Has(control: nat, bit: nat)
    requires bit > 0
  {
    control / bit % 2 == 1
  }

  /** A control word with a bit set, when `on`. */
  function With(control: nat, bit: nat, on: bool): nat
    requires bit > 0
  {
    if on && !Has(control, bit) then control + bit else control
  }

  lemma WithSelfRelative(control: nat)
    requires control < TWO_16
    ensures With(control, SELF_RELATIVE, true) < TWO_16 && Has(With(control, SELF_RELATIVE, true), SELF_RELATIVE)
  {
  }

  lemma WithSacl(control: nat, on: bool)
    requires control < TWO_16
    ensures With(control, SACL_PRESENT, on) < TWO_16
    ensures Has(With(control, SACL_PRESENT, on), SACL_PRESENT) == (on || Has(control, SACL_PRESENT))
    ensures Has(With(control, SACL_PRESENT, on), SELF_RELATIVE) == Has(control, SELF_RELATIVE)
  {
  }

  lemma WithDacl(control: nat, on: bool)
    requires control < TWO_16
    ensures With(control, DACL_PRESENT, on) < TWO_16
    ensures Has(With(control, DACL_PRESENT, on), DACL_PRESENT) == (on || Has(control, DACL_PRESENT))
  {
  }

  lemma WithDaclKeeps(control: nat, on: bool)
    requires control < TWO_16
    ensures Has(With(control, DACL_PRESENT, on), SELF_RELATIVE) == Has(control, SELF_RELATIVE)
    ensures Has(With(control, DACL_PRESENT, on), SACL_PRESENT) == Has(control, SACL_PRESENT)
  {
    if !Has(control, DACL_PRESENT) {
      LowBits(control);
      HighBits(control);
    }
  }

  lemma LowBits(n: nat)
    requires n / 4 % 2 == 0
    ensures n % 8 < 4
  {
    var m, r := n / 4, n % 4;
    Doubled(m);
    Remainder8(m / 2, r);
  }

  lemma Doubled(m: nat)
    requires m % 2 == 0
    ensures m == 2 * (m / 2)
  {
  }

  lemma Remainder8(h: nat, r: nat)
    requires r < 8
    ensures (8 * h + r) % 8 == r
  {
  }

  lemma HighBits(n: nat)
    requires n % 8 < 4
    ensures (n + 4) / 0x10 == n / 0x10
    ensures (n + 4) / 0x8000 == n / 0x8000
  {
    assert (n + 4) / 8 == n / 8;
    assert (n + 4) / 0x10 == (n + 4) / 8 / 2 && n / 0x10 == n / 8 / 2;
    assert (n + 4) / 0x8000 == (n + 4) / 8 / 0x1000 && n / 0x8000 == n / 8 / 0x1000;
  }

  /** A descriptor; an invalid owner or group is one that is absent, as is a nil list. */
  datatype Descriptor = Descriptor(control: nat, owner: SID, group: SID, dacl: Option<Acl>, sacl: Option<Acl>)

  function ListBytes(l: Option<Acl>): Option<seq<byte>> {
    match l case None => Some([]) case Some(acl) => MarshalAcl(acl)
  }

  /** The control word written: self-relative, and saying which lists are there. */
  function WireControl(d: Descriptor): nat {
    With(With(With(d.control, SELF_RELATIVE, true), SACL_PRESENT, d.sacl.Some?), DACL_PRESENT, d.dacl.Some?)
  }

  function Header(control: nat, ownerOff: nat, groupOff: nat, saclOff: nat, daclOff: nat): (b: seq<byte>)
    ensures |b| == HEADER
  {
    [1, 0] + Le16(control) + Le32(ownerOff) + Le32(groupOff) + Le32(saclOff) + Le32(daclOff)
  }

  /** Where a part goes: nowhere when it is absent. */
  function Offset(present: bool, at: nat): nat { if present then at else 0 }

  /** Header, owner, group, SACL, DACL. */
  function MarshalDescriptor(d: Descriptor): Option<seq<byte>> {
    var sacl :- ListBytes(d.sacl);
    var dacl :- ListBytes(d.dacl);
    var owner, group := Encoded(d.owner), Encoded(d.group);
    var groupAt := HEADER + |owner|;
    var saclAt := groupAt + |group|;
    var daclAt := saclAt + |sacl|;
    Some(Header(WireControl(d), Offset(IsValid(d.owner), HEADER), Offset(IsValid(d.group), groupAt),
                Offset(d.sacl.Some?, saclAt), Offset(d.dacl.Some?, daclAt))
         + owner + group + sacl + dacl)
  }

  /** Descriptor.Marshal: the buffer grows part by part, then the header is filled in. */
  method BuildDescriptor(d: Descriptor) returns (r: Option<seq<byte>>)
    ensures r == MarshalDescriptor(d)
  {
    hide MarshalAcl, Zeros, Header, Has, Encoded, ListBytes, With, WireControl;
    WireSteps(d);
    var out := Zeros(HEADER);
    var control := With(d.control, SELF_RELATIVE, true);
    var ownerOff, groupOff: nat := 0, 0;
    InvalidHasNoBytes(d.owner);
    InvalidHasNoBytes(d.group);
    if IsValid(d.owner) {
      ownerOff := |out|;
      out := out + Encoded(d.owner);
    }
    if IsValid(d.group) {
      groupOff := |out|;
      out := out + Encoded(d.group);
    }
    ghost var sids := Encoded(d.owner) + Encoded(d.group);
    Assoc(Zeros(HEADER), Encoded(d.owner), Encoded(d.group));
    assert out == Zeros(HEADER) + sids;
    var saclOff, daclOff, ok;
    ok, out, control, saclOff := AppendList(out, control, SACL_PRESENT, d.sacl);
    if !ok {
      return None;
    }
    ghost var sacl := ListBytes(d.sacl).value;
    Assoc(Zeros(HEADER), sids, sacl);
    ok, out, control, daclOff := AppendList(out, control, DACL_PRESENT, d.dacl);
    if !ok {
      return None;
    }
    ghost var dacl := ListBytes(d.dacl).value;
    Assoc(Zeros(HEADER), sids + sacl, dacl);
    assert out[..HEADER] == Zeros(HEADER) && out[HEADER..] == sids + sacl + dacl;
    out := FillHeader(out, control, ownerOff, groupOff, saclOff, daclOff);
    Regions(Header(control, ownerOff, groupOff, saclOff, daclOff), Encoded(d.owner), Encoded(d.group), sacl, dacl);
    r := Some(out);
  }

  lemma Assoc(a: seq<byte>, b: seq<byte>, c: seq<byte>)
    ensures a + b + c == a + (b + c)
  {
  }

  lemma WireSteps(d: Descriptor)
    ensures WireControl(d)
         == With(With(With(d.control, SELF_RELATIVE, true), SACL_PRESENT, d.sacl.Some?), DACL_PRESENT, d.dacl.Some?)
  {
  }

  lemma InvalidHasNoBytes(s: SID)
    ensures !IsValid(s) ==> Encoded(s) == []
  {
  }

  /** One list, if there is one: its bytes go at the end and its bit into the control word. */
  method AppendList(buf: seq<byte>, word: nat, bit: nat, l: Option<Acl>)
    returns (ok: bool, out: seq<byte>, control: nat, off: nat)
    requires bit > 0
    ensures ok <==> ListBytes(l).Some?
    ensures ok ==> out == buf + ListBytes(l).value && control == With(word, bit, l.Some?) && off == Offset(l.Some?, |buf|)
  {
    hide MarshalAcl, Has;
    ok, out, control, off := true, buf, word, 0;
    if l.Some? {
      control := With(word, bit, true);
      var b := BuildAcl(l.value);
      if b.None? {
        ok := false;
        return;
      }
      off := |out|;
      out := out + b.value;
    }
  }

  method FillHeader(buf: seq<byte>, control: nat, ownerOff: nat, groupOff: nat, saclOff: nat, daclOff: nat) returns (out: seq<byte>)
    requires |buf| >= HEADER && buf[..HEADER] == Zeros(HEADER)
    ensures out == Header(control, ownerOff, groupOff, saclOff, daclOff) + buf[HEADER..]
  {
    hide Le16, Le32, Zeros, Put;
    var tail := buf[HEADER..];
    StartsWithZeros(buf);
    out := Put(buf, 0, [1]);
    PutNext([], 20, [1], tail);
    SkipZero(19);
    assert [] + [1] == [1];
    assert [1] + Zeros(19) + tail == [1, 0] + Zeros(18) + tail;
    out := Put(out, 2, Le16(control));
    PutNext([1, 0], 18, Le16(control), tail);
    out := Put(out, 4, Le32(ownerOff));
    PutNext([1, 0] + Le16(control), 16, Le32(ownerOff), tail);
    out := Put(out, 8, Le32(groupOff));
    PutNext([1, 0] + Le16(control) + Le32(ownerOff), 12, Le32(groupOff), tail);
    out := Put(out, 12, Le32(saclOff));
    PutNext([1, 0] + Le16(control) + Le32(ownerOff) + Le32(groupOff), 8, Le32(saclOff), tail);
    out := Put(out, 16, Le32(daclOff));
    PutNext([1, 0] + Le16(control) + Le32(ownerOff) + Le32(groupOff) + Le32(saclOff), 4, Le32(daclOff), tail);
    NoZeros(Header(control, ownerOff, groupOff, saclOff, daclOff), tail);
  }

  lemma StartsWithZeros(buf: seq<byte>)
    requires |buf| >= HEADER && buf[..HEADER] == Zeros(HEADER)
    ensures buf == [] + Zeros(20) + buf[HEADER..]
  {
  }

  lemma SkipZero(n: nat)
    requires n > 0
    ensures Zeros(n) == [0] + Zeros(n - 1)
  {
  }

  lemma NoZeros(done: seq<byte>, tail: seq<byte>)
    ensures done + Zeros(0) + tail == done + tail
  {
  }

  /** The next zeros after `done` are overwritten. */
  lemma PutNext(done: seq<byte>, n: nat, b: seq<byte>, tail: seq<byte>)
    requires |b| <= n
    ensures Put(done + Zeros(n) + tail, |done|, b) == done + b + Zeros(n - |b|) + tail
  {
    assert Zeros(n) == Zeros(|b|) + Zeros(n - |b|);
    assert done + Zeros(n) + tail == done + Zeros(|b|) + (Zeros(n - |b|) + tail);
    PutInto(done, Zeros(|b|), Zeros(n - |b|) + tail, b);
  }

  // --- parsing ---------------------------------------------------------

  function SidAt(buf: seq<byte>, off: nat): Option<SID> {
    if off == 0 then Some(NO_SID)
    else if off >= |buf| then None
    else ParseSID(buf[off..])
  }

  function AclAt(buf: seq<byte>, off: nat, present: bool): Option<Option<Acl>> {
    if !present || off == 0 then Some(None)
    else if off >= |buf| then None
    else
      var l :- ParseAcl(buf[off..]);
      Some(Some(l))
  }

  function ParseDescriptor(buf: seq<byte>): (r: Option<Descriptor>)
    ensures r.Some? ==> r.value.control < TWO_16
  {
    if |buf| < HEADER then None
    else
      var control := Word16(buf[2..]);
      var owner :- SidAt(buf, Word32(buf[4..]));
      var group :- SidAt(buf, Word32(buf[8..]));
      var dacl :- AclAt(buf, Word32(buf[16..]), Has(control, DACL_PRESENT));
      var sacl :- AclAt(buf, Word32(buf[12..]), Has(control, SACL_PRESENT));
      Some(Descriptor(control, owner, group, dacl, sacl))
  }

  // --- any layout ------------------------------------------------------

  /** What an offset says of a SID: none at 0, and anywhere else the one whose encoding lies there. */
  predicate SidLies(buf: seq<byte>, off: nat, s: SID) {
    if off == 0 then s == NO_SID else off < |buf| && IsValid(s) && Encoded(s) <= buf[off..]
  }

  /** What an offset says of a list whose bit is set, or not. */
  predicate ListLies(buf: seq<byte>, off: nat, present: bool, l: Option<Acl>) {
    if !present || off == 0 then l == None else l.Some? && off < |buf| && AclLies(buf[off..], l.value)
  }

  lemma SidIsRead(buf: seq<byte>, off: nat, s: SID)
    ensures SidAt(buf, off) == Some(s) <==> SidLies(buf, off, s)
  {
    if 0 < off < |buf| {
      ParsedIsFront(buf[off..], s);
    }
  }

  lemma ListIsRead(buf: seq<byte>, off: nat, present: bool, l: Option<Acl>)
    ensures AclAt(buf, off, present) == Some(l) <==> ListLies(buf, off, present, l)
  {
    hide ParseAcl, AclLies;
    if present && 0 < off < |buf| && l.Some? {
      AclIsRead(buf[off..], l.value);
    }
  }

  /** Bytes that are a descriptor, its parts wherever the header says, in any order, apart or shared. */
  predicate DescriptorLies(buf: seq<byte>, d: Descriptor) {
    && |buf| >= HEADER && Word16(buf[2..]) == d.control
    && SidLies(buf, Word32(buf[4..]), d.owner) && SidLies(buf, Word32(buf[8..]), d.group)
    && ListLies(buf, Word32(buf[12..]), Has(d.control, SACL_PRESENT), d.sacl)
    && ListLies(buf, Word32(buf[16..]), Has(d.control, DACL_PRESENT), d.dacl)
  }

  /** On any bytes: a descriptor is parsed exactly if it lies there. */
  lemma DescriptorIsRead(buf: seq<byte>, d: Descriptor)
    ensures ParseDescriptor(buf) == Some(d) <==> DescriptorLies(buf, d)
  {
    hide SidAt, AclAt, SidLies, ListLies, Has, Word16, Word32;
    if |buf| >= HEADER && Word16(buf[2..]) == d.control {
      SidIsRead(buf, Word32(buf[4..]), d.owner);
      SidIsRead(buf, Word32(buf[8..]), d.group);
      ListIsRead(buf, Word32(buf[12..]), Has(d.control, SACL_PRESENT), d.sacl);
      ListIsRead(buf, Word32(buf[16..]), Has(d.control, DACL_PRESENT), d.dacl);
    }
  }

  // --- round trips -----------------------------------------------------

  predicate CleanList(l: Option<Acl>) {
    l.Some? ==> AllClean(l.value.entries)
  }

  lemma HeaderWords(control: nat, ownerOff: nat, groupOff: nat, saclOff: nat, daclOff: nat, rest: seq<byte>)
    requires control < TWO_16 && ownerOff < TWO_32 && groupOff < TWO_32 && saclOff < TWO_32 && daclOff < TWO_32
    ensures var b := Header(control, ownerOff, groupOff, saclOff, daclOff) + rest;
            && Word16(b[2..]) == control && Word32(b[4..]) == ownerOff && Word32(b[8..]) == groupOff
            && Word32(b[12..]) == saclOff && Word32(b[16..]) == daclOff
  {
    hide Le16, Le32, Word16, Word32;
    var b := Header(control, ownerOff, groupOff, saclOff, daclOff) + rest;
    var d := Le32(daclOff) + rest;
    var s := Le32(saclOff) + d;
    var g := Le32(groupOff) + s;
    var o := Le32(ownerOff) + g;
    assert b[2..] == Le16(control) + o && b[4..] == o && b[8..] == g && b[12..] == s && b[16..] == d;
    Word16OfLe16(control, o);
    Word32Back(ownerOff, g);
    Word32Back(groupOff, s);
    Word32Back(saclOff, d);
    Word32Back(daclOff, rest);
  }

  lemma InvalidIsNone(s: SID)
    requires !IsValid(s)
    ensures s == NO_SID && Encoded(s) == []
  {
  }

  lemma SidBack(buf: seq<byte>, s: SID, at: nat)
    requires 0 < at && at + |Encoded(s)| <= |buf| && buf[at..][..|Encoded(s)|] == Encoded(s)
    ensures SidAt(buf, Offset(IsValid(s), at)) == Some(s)
  {
    hide ParseSID, Encoded;
    if IsValid(s) {
      var rest := buf[at..][|Encoded(s)|..];
      ParseOfEncoded(s, rest);
      assert buf[at..] == Encoded(s) + rest;
    } else {
      InvalidIsNone(s);
    }
  }

  lemma ListBack(buf: seq<byte>, l: Option<Acl>, at: nat, present: bool)
    requires 0 < at && ListBytes(l).Some? && CleanList(l) && (l.Some? ==> present)
    requires at + |ListBytes(l).value| <= |buf| && buf[at..][..|ListBytes(l).value|] == ListBytes(l).value
    ensures AclAt(buf, Offset(l.Some?, at), present) == Some(l)
  {
    hide ParseAcl, MarshalAcl, AllClean;
    if l.Some? {
      var bytes := ListBytes(l).value;
      var rest := buf[at..][|bytes|..];
      AclBack(l.value, rest);
      assert buf[at..] == bytes + rest;
    }
  }

  lemma BitsOfWire(d: Descriptor)
    requires d.control < TWO_16
    ensures WireControl(d) < TWO_16
    ensures (d.dacl.Some? ==> Has(WireControl(d), DACL_PRESENT)) && (d.sacl.Some? ==> Has(WireControl(d), SACL_PRESENT))
    ensures Has(WireControl(d), SELF_RELATIVE)
  {
    var one := With(d.control, SELF_RELATIVE, true);
    var two := With(one, SACL_PRESENT, d.sacl.Some?);
    WithSelfRelative(d.control);
    WithSacl(one, d.sacl.Some?);
    WithDacl(two, d.dacl.Some?);
    WithDaclKeeps(two, d.dacl.Some?);
    hide With, Has;
  }

  /** Exactly the bits that were missing are added. */
  lemma WireSum(d: Descriptor)
    requires d.control < TWO_16
    ensures WireControl(d) == d.control + SELF_RELATIVE * Bit(!Has(d.control, SELF_RELATIVE))
                              + SACL_PRESENT * Bit(d.sacl.Some? && !Has(d.control, SACL_PRESENT))
                              + DACL_PRESENT * Bit(d.dacl.Some? && !Has(d.control, DACL_PRESENT))
  {
    var one := With(d.control, SELF_RELATIVE, true);
    TopBitKeeps(d.control);
    SaclBitKeeps(one, d.sacl.Some?);
  }

  lemma TopBitKeeps(control: nat)
    requires control < TWO_16
    ensures var one := With(control, SELF_RELATIVE, true);
            Has(one, SACL_PRESENT) == Has(control, SACL_PRESENT) && Has(one, DACL_PRESENT) == Has(control, DACL_PRESENT)
  {
    assert (control + 0x8000) / 0x10 == control / 0x10 + 0x800 && (control + 0x8000) / 4 == control / 4 + 0x2000;
  }

  lemma SaclBitKeeps(control: nat, on: bool)
    ensures Has(With(control, SACL_PRESENT, on), DACL_PRESENT) == Has(control, DACL_PRESENT)
  {
    assert (control + 0x10) / 4 == control / 4 + 4;
  }

  /** Where the parts of a marshalled descriptor lie: one after the other behind the header, none overlapping. */
  lemma Regions(header: seq<byte>, owner: seq<byte>, group: seq<byte>, sacl: seq<byte>, dacl: seq<byte>)
    requires |header| == HEADER
    ensures var b := header + owner + group + sacl + dacl;
            var groupAt := HEADER + |owner|;
            var saclAt := groupAt + |group|;
            var daclAt := saclAt + |sacl|;
            && b[HEADER..][..|owner|] == owner && b[groupAt..][..|group|] == group
            && b[saclAt..][..|sacl|] == sacl && b[daclAt..][..|dacl|] == dacl && |b| == daclAt + |dacl|
            && b == header + (owner + group + sacl + dacl)
  {
  }

  /**
   A marshalled descriptor is read back as itself, with the control word saying what was written. Nothing is
   cut short: every length fits its 16 bits or marshalling fails, and then every offset fits its 32.
   */
  lemma DescriptorBack(d: Descriptor)
    requires MarshalDescriptor(d).Some? && d.control < TWO_16 && CleanList(d.dacl) && CleanList(d.sacl)
    ensures ParseDescriptor(MarshalDescriptor(d).value) == Some(d.(control := WireControl(d)))
  {
    hide Header, MarshalAcl, ParseAcl, ParseDescriptor, Word16, Word32, Encoded, WireControl, Has, AclAt, SidAt, CleanList;
    var owner, group, sacl, dacl := Encoded(d.owner), Encoded(d.group), ListBytes(d.sacl).value, ListBytes(d.dacl).value;
    var groupAt := HEADER + |owner|;
    var saclAt := groupAt + |group|;
    var daclAt := saclAt + |sacl|;
    var o, g, s, l := Offset(IsValid(d.owner), HEADER), Offset(IsValid(d.group), groupAt),
                      Offset(d.sacl.Some?, saclAt), Offset(d.dacl.Some?, daclAt);
    var header := Header(WireControl(d), o, g, s, l);
    var buf := header + owner + group + sacl + dacl;
    assert MarshalDescriptor(d) == Some(buf);
    BitsOfWire(d);
    PartsAreSmall(d);
    ListsMarshal(d);
    hide MarshalDescriptor, ListBytes;
    Regions(header, owner, group, sacl, dacl);
    HeaderWords(WireControl(d), o, g, s, l, owner + group + sacl + dacl);
    SidBack(buf, d.owner, HEADER);
    SidBack(buf, d.group, groupAt);
    ListBack(buf, d.sacl, saclAt, Has(WireControl(d), SACL_PRESENT));
    ListBack(buf, d.dacl, daclAt, Has(WireControl(d), DACL_PRESENT));
    hide Offset, IsValid;
    PartsParse(buf, d.(control := WireControl(d)));
  }

  /** Whatever the lists hold: revision 1, and behind the 20 bytes owner, group, SACL and DACL without a gap. */
  lemma DescriptorFront(d: Descriptor)
    requires MarshalDescriptor(d).Some?
    ensures var b := MarshalDescriptor(d).value;
            && |b| >= 20 && b[0] == 1 && b[1] == 0
            && ListBytes(d.sacl).Some? && ListBytes(d.dacl).Some?
            && b[20..] == Encoded(d.owner) + Encoded(d.group) + ListBytes(d.sacl).value + ListBytes(d.dacl).value
  {
    hide MarshalAcl, Encoded, WireControl, Offset;
    var sacl, dacl := ListBytes(d.sacl).value, ListBytes(d.dacl).value;
    var b := MarshalDescriptor(d).value;
    assert b[20..] == Encoded(d.owner) + Encoded(d.group) + sacl + dacl;
  }

  lemma ListsMarshal(d: Descriptor)
    requires MarshalDescriptor(d).Some?
    ensures ListBytes(d.sacl).Some? && ListBytes(d.dacl).Some?
  {
    hide MarshalAcl;
  }

  lemma PartsParse(buf: seq<byte>, d: Descriptor)
    requires |buf| >= HEADER && Word16(buf[2..]) == d.control
    requires SidAt(buf, Word32(buf[4..])) == Some(d.owner) && SidAt(buf, Word32(buf[8..])) == Some(d.group)
    requires AclAt(buf, Word32(buf[12..]), Has(d.control, SACL_PRESENT)) == Some(d.sacl)
    requires AclAt(buf, Word32(buf[16..]), Has(d.control, DACL_PRESENT)) == Some(d.dacl)
    ensures ParseDescriptor(buf) == Some(d)
  {
    hide SidAt, AclAt, Has, Word16, Word32;
  }

  lemma PartsAreSmall(d: Descriptor)
    requires MarshalDescriptor(d).Some?
    ensures |Encoded(d.owner)| <= 68 && |Encoded(d.group)| <= 68
    ensures |ListBytes(d.sacl).value| < TWO_16 && |ListBytes(d.dacl).value| < TWO_16
  {
    hide MarshalAcl;
  }
}
