/** Inheriting and re-deriving ACEs (sd/inherit.go, and StripInheritedACEs of sd/getset.go; section 2.5.3.4.1 of MS-DTYP). */
module Inheritance {
  import opened Wrappers
  import opened Bytes
  import opened Sid
  import opened Aces
  import opened Descriptors

  // --- one generation --------------------------------------------------

  /** The flags with which an ACE is inherited by a child; None if it is not. */
  function InheritFlags(f: Flags, container: bool): Option<Flags> {
    if !f.oi && !f.ci then None
    else if !container then
      if !f.oi then None else Some(f.(oi := false, ci := false, np := false, io := false, inherited := true))
    else if f.np then
      if !f.ci then None else Some(f.(oi := false, ci := false, np := false, io := false, inherited := true))
    else if f.ci then Some(f.(np := false, io := false, inherited := true))
    else Some(f.(np := false, io := true, inherited := true))
  }

  function Inherited(entries: seq<Ace>, container: bool): seq<Ace> {
    if entries == [] then []
    else
      var rest := Inherited(entries[1..], container);
      match InheritFlags(entries[0].flags, container)
      case None => rest
      case Some(f) => [entries[0].(flags := f)] + rest
  }

  lemma {:induction false} InheritedAppend(a: seq<Ace>, b: seq<Ace>, container: bool)
    ensures Inherited(a + b, container) == Inherited(a, container) + Inherited(b, container)
  {
    hide InheritFlags;
    if a == [] {
      assert a + b == b;
    } else {
      InheritedAppend(a[1..], b, container);
      assert (a + b)[1..] == a[1..] + b;
    }
  }

  /** ComputeInheritedACEs. */
  method ComputeInheritedAces(dacl: Acl, container: bool) returns (out: seq<Ace>)
    ensures out == Inherited(dacl.entries, container)
  {
    out := [];
    var entries := dacl.entries;
    for i := 0 to |entries|
      invariant out == Inherited(entries[..i], container)
    {
      var ace := entries[i];
      var f := ace.flags;
      assert entries[..i + 1] == entries[..i] + [ace];
      InheritedAppend(entries[..i], [ace], container);
      InheritedOne(ace, container);
      if !f.oi && !f.ci {
        continue;
      }
      var cleared := f.(oi := false, ci := false, np := false, io := false);
      var newFlags;
      if !container {
        if !f.oi {
          continue;
        }
        newFlags := cleared.(inherited := true);
      } else if f.np {
        if !f.ci {
          continue;
        }
        newFlags := cleared.(inherited := true);
      } else if f.ci {
        newFlags := f.(np := false, io := false).(inherited := true);
      } else {
        newFlags := f.(np := false).(io := true, inherited := true);
      }
      out := out + [ace.(flags := newFlags)];
    }
    assert entries[..|entries|] == entries;
  }

  lemma InheritedOne(a: Ace, container: bool)
    ensures Inherited([a], container) == match InheritFlags(a.flags, container) case None => []
                                                                               case Some(f) => [a.(flags := f)]
  {
    assert [a][1..] == [];
  }

  /** Which ACEs a child gets: a file those for objects, a container those for containers and, unless they stop, for objects. */
  predicate Passes(f: Flags, container: bool) {
    if container then f.ci || (f.oi && !f.np) else f.oi
  }

  /**
   With which flags: INHERITED, the audit flags as they were, and on a file, or where they stop, no inheritance
   flag at all; else both kinds as they were, in effect here exactly if they are for containers.
   */
  predicate Received(f: Flags, g: Flags, container: bool) {
    && g.inherited && g.spare == f.spare && g.success == f.success && g.failure == f.failure && !g.np
    && if !container || f.np then !g.oi && !g.ci && !g.io
       else g.oi == f.oi && g.ci == f.ci && (g.io <==> !f.ci)
  }

  /**
   What a child takes from the DACL it lies under: `from` lists, in order, exactly the positions of the ACEs that
   pass, and each arrives with nothing but its flags changed.
   */
  lemma {:induction false} InheritedFrom(entries: seq<Ace>, container: bool) returns (from: seq<nat>)
    ensures |from| == |Inherited(entries, container)|
    ensures forall j :: 0 <= j < |from| ==> from[j] < |entries|
    ensures forall i, j :: 0 <= i < j < |from| ==> from[i] < from[j]
    ensures forall i: nat :: i < |entries| && Passes(entries[i].flags, container) ==> i in from
    ensures forall j :: 0 <= j < |from| ==> Arrives(entries[from[j]], Inherited(entries, container)[j], container)
  {
    from := [];
    if entries == [] {
      assert Inherited([], container) == [];
    } else {
      hide Inherited, Passes, InheritFlags, Received;
      var n := |entries| - 1;
      var front, a := entries[..n], entries[n];
      assert entries == front + [a];
      from := InheritedFrom(front, container);
      InheritedAppend(front, [a], container);
      InheritedOne(a, container);
      FlagsReceived(a.flags, container);
      if Passes(a.flags, container) {
        from := from + [n];
      }
    }
  }

  /** The ACE passes, and nothing but its flags changes. */
  predicate Arrives(a: Ace, b: Ace, container: bool) {
    Passes(a.flags, container) && b == a.(flags := b.flags) && Received(a.flags, b.flags, container)
  }

  lemma FlagsReceived(f: Flags, container: bool)
    ensures InheritFlags(f, container).Some? <==> Passes(f, container)
    ensures Passes(f, container) ==> Received(f, InheritFlags(f, container).value, container)
  {
  }

  // --- generations -----------------------------------------------------

  /** The ACEs a container has after `n` generations of containers. */
  function Generations(entries: seq<Ace>, n: nat): seq<Ace> {
    if n == 0 then entries else Inherited(Generations(entries, n - 1), true)
  }

  /** Inheritance settles: a flag byte passed on twice is passed on unchanged ever after. */
  predicate Settled(f: Flags) {
    InheritFlags(f, true) == Some(f)
  }

  /** Of the flags, what a container two generations down has: None once no-propagate has stopped them. */
  function Descended(f: Flags): Option<Flags> {
    var once :- InheritFlags(f, true);
    InheritFlags(once, true)
  }

  lemma DescendedSettles(f: Flags)
    ensures Descended(f).Some? ==> Settled(Descended(f).value)
  {
  }

  predicate AllSettled(entries: seq<Ace>) {
    forall i :: 0 <= i < |entries| ==> Settled(entries[i].flags)
  }

  lemma {:induction false} SettledStays(entries: seq<Ace>)
    requires AllSettled(entries)
    ensures Inherited(entries, true) == entries
  {
    hide InheritFlags;
    if entries != [] {
      SettledStays(entries[1..]);
      assert entries == [entries[0]] + entries[1..];
    }
  }

  lemma {:induction false} TwiceSettles(entries: seq<Ace>)
    ensures AllSettled(Inherited(Inherited(entries, true), true))
  {
    hide InheritFlags, Settled, Descended;
    if entries != [] {
      TwiceSettles(entries[1..]);
      DescendedMeans(entries[0].flags);
      DescendedSettles(entries[0].flags);
      match InheritFlags(entries[0].flags, true) {
        case None =>
        case Some(f) =>
          var a := entries[0].(flags := f);
          InheritedAppend([a], Inherited(entries[1..], true), true);
          InheritedOne(a, true);
      }
    }
  }

  lemma DescendedMeans(f: Flags)
    ensures Descended(f) == match InheritFlags(f, true) case None => None case Some(g) => InheritFlags(g, true)
  {
    hide InheritFlags;
  }

  /** After two generations of containers, nothing changes any more. */
  lemma {:induction false} GenerationsSettle(entries: seq<Ace>, n: nat)
    requires n >= 2
    ensures Generations(entries, n) == Generations(entries, 2)
    decreases n
  {
    hide Inherited;
    if n > 2 {
      GenerationsSettle(entries, n - 1);
      TwiceSettles(entries);
      TwoGenerations(entries);
      SettledStays(Generations(entries, 2));
    }
  }

  lemma TwoGenerations(entries: seq<Ace>)
    ensures Generations(entries, 2) == Inherited(Inherited(entries, true), true)
  {
    hide Inherited;
    assert Generations(entries, 0) == entries && Generations(entries, 1) == Inherited(entries, true);
  }

  /** What a file under containers ends up with: the object-inherit ACEs that propagate, spent. */
  function Spent(entries: seq<Ace>): seq<Ace> {
    if entries == [] then []
    else
      var a, rest := entries[0], Spent(entries[1..]);
      if a.flags.oi && !a.flags.np then
        [a.(flags := a.flags.(oi := false, ci := false, np := false, io := false, inherited := true))] + rest
      else rest
  }

  lemma {:induction false} FileOfContainer(entries: seq<Ace>)
    ensures Inherited(Inherited(entries, true), false) == Spent(entries)
  {
    if entries != [] {
      FileOfContainer(entries[1..]);
      FileFlags(entries[0].flags);
      match InheritFlags(entries[0].flags, true) {
        case None =>
        case Some(f) =>
          var a := entries[0].(flags := f);
          hide InheritFlags;
          InheritedAppend([a], Inherited(entries[1..], true), false);
          InheritedOne(a, false);
      }
    }
  }

  lemma FileFlags(f: Flags)
    ensures var spent := f.(oi := false, ci := false, np := false, io := false, inherited := true);
            match InheritFlags(f, true)
            case None => !(f.oi && !f.np)
            case Some(g) => InheritFlags(g, false) == if f.oi && !f.np then Some(spent) else None
  {
  }

  /** One more container in between makes no difference to what is spent, except to set INHERITED early. */
  lemma {:induction false} SpentOfInherited(entries: seq<Ace>)
    ensures Spent(Inherited(entries, true)) == Spent(entries)
  {
    if entries != [] {
      SpentOfInherited(entries[1..]);
    }
  }

  /**
   A file under any positive number of containers gets exactly the root's object-inherit ACEs that lack
   no-propagate, in order, each with its inheritance flags cleared and INHERITED set.
   */
  lemma {:induction false} FileUnderContainers(entries: seq<Ace>, n: nat)
    requires n >= 1
    ensures Inherited(Generations(entries, n), false) == Spent(entries)
    decreases n
  {
    hide Inherited, Spent;
    if n == 1 {
      FileOfContainer(entries);
      assert Generations(entries, 0) == entries;
    } else {
      FileUnderContainers(entries, n - 1);
      FileOfContainer(Generations(entries, n - 1));
      SpentOfGenerations(entries, n - 1);
    }
  }

  lemma {:induction false} SpentOfGenerations(entries: seq<Ace>, n: nat)
    ensures Spent(Generations(entries, n)) == Spent(entries)
    decreases n
  {
    hide Inherited, Spent;
    if n > 0 {
      SpentOfGenerations(entries, n - 1);
      SpentOfInherited(Generations(entries, n - 1));
    }
  }

  /** No-propagate lasts one generation at most: what it lets through is marked with no inheritance left. */
  lemma NoPropagateStops(f: Flags)
    requires f.np
    ensures InheritFlags(f, true).Some? <==> f.ci
    ensures InheritFlags(f, true).Some? ==> InheritFlags(InheritFlags(f, true).value, true) == None
    ensures InheritFlags(f, true).Some? ==> InheritFlags(InheritFlags(f, true).value, false) == None
  {
  }

  /** What a container far down ends up with: the inheritable ACEs without no-propagate, inherit-only if for files alone. */
  function Lasting(entries: seq<Ace>): seq<Ace> {
    if entries == [] then []
    else
      var a, rest := entries[0], Lasting(entries[1..]);
      var f := a.flags;
      if (f.oi || f.ci) && !f.np then [a.(flags := f.(io := !f.ci, inherited := true))] + rest else rest
  }

  lemma LastingFlags(f: Flags)
    requires !f.np
    ensures InheritFlags(f, true) == if f.oi || f.ci then Some(f.(io := !f.ci, inherited := true)) else None
    ensures f.oi || f.ci ==> InheritFlags(f.(io := !f.ci, inherited := true), true) == InheritFlags(f, true)
  {
  }

  /** A container two or more containers down gets exactly those, in order. */
  lemma ContainerUnderContainers(entries: seq<Ace>, n: nat)
    requires n >= 2
    ensures Generations(entries, n) == Lasting(entries)
  {
    hide Generations, Inherited, Lasting;
    GenerationsSettle(entries, n);
    TwoGenerations(entries);
    TwiceLasts(entries);
  }

  lemma {:induction false} TwiceLasts(entries: seq<Ace>)
    ensures Inherited(Inherited(entries, true), true) == Lasting(entries)
  {
    hide InheritFlags;
    if entries != [] {
      TwiceLasts(entries[1..]);
      var f := entries[0].flags;
      if f.np {
        NoPropagateStops(f);
      } else {
        LastingFlags(f);
      }
      if InheritFlags(f, true).Some? {
        var a := entries[0].(flags := InheritFlags(f, true).value);
        InheritedAppend([a], Inherited(entries[1..], true), true);
        InheritedOne(a, true);
      }
    }
  }

  // --- re-deriving a descriptor ----------------------------------------

  function Entries(l: Option<Acl>): seq<Ace> {
    match l case None => [] case Some(acl) => acl.entries
  }

  /** The ACEs that were not inherited. */
  function Explicit(entries: seq<Ace>): seq<Ace> {
    if entries == [] then []
    else if entries[0].flags.inherited then Explicit(entries[1..])
    else [entries[0]] + Explicit(entries[1..])
  }

  /** The auto-inherited and protected bits, which are neighbours. */
  function KeptControl(control: nat): nat {
    0x400 * (Bit(Has(control, DACL_AUTO_INHERITED)) + 2 * Bit(Has(control, SACL_AUTO_INHERITED))
             + 4 * Bit(Has(control, DACL_PROTECTED)) + 8 * Bit(Has(control, SACL_PROTECTED)))
  }

  /** The child with its inherited ACEs replaced by the parent's. */
  function Rederived(parent: Descriptor, child: Descriptor, container: bool): Descriptor {
    var entries := Explicit(Entries(child.dacl)) + Inherited(Entries(parent.dacl), container);
    Descriptor(KeptControl(child.control), child.owner, child.group,
               if child.dacl.Some? || entries != [] then Some(Acl(entries)) else None, child.sacl)
  }

  /** Reinherit, on bytes. */
  function Reinherit(parentSd: seq<byte>, childSd: seq<byte>, container: bool): Option<seq<byte>> {
    var parent :- ParseDescriptor(parentSd);
    var child :- ParseDescriptor(childSd);
    if !Has(child.control, SELF_RELATIVE) then None else MarshalDescriptor(Rederived(parent, child, container))
  }

  /** What an ACE contributes. */
  function Own(a: Ace): seq<Ace> { if a.flags.inherited then [] else [a] }

  lemma ExplicitFirst(entries: seq<Ace>)
    requires entries != []
    ensures Explicit(entries) == Own(entries[0]) + Explicit(entries[1..])
  {
    var rest := Explicit(entries[1..]);
    hide Explicit;
    assert [] + rest == rest;
  }

  lemma JoinThree<T>(x: seq<T>, y: seq<T>, z: seq<T>)
    ensures x + (y + z) == x + y + z
  {
  }

  lemma {:induction false} ExplicitAppend(a: seq<Ace>, b: seq<Ace>)
    ensures Explicit(a + b) == Explicit(a) + Explicit(b)
  {
    if a == [] {
      assert a + b == b;
    } else {
      hide Explicit, Own;
      ExplicitAppend(a[1..], b);
      assert (a + b)[1..] == a[1..] + b;
      ExplicitFirst(a);
      ExplicitFirst(a + b);
      JoinThree(Own(a[0]), Explicit(a[1..]), Explicit(b));
    }
  }

  /** filterInherited, and the first loop of Reinherit. */
  method FilterInherited(entries: seq<Ace>) returns (kept: seq<Ace>)
    ensures kept == Explicit(entries)
  {
    kept := [];
    for i := 0 to |entries|
      invariant kept == Explicit(entries[..i])
    {
      assert entries[..i + 1] == entries[..i] + [entries[i]];
      ExplicitAppend(entries[..i], [entries[i]]);
      assert [entries[i]][1..] == [];
      if !entries[i].flags.inherited {
        kept := kept + [entries[i]];
      }
    }
    assert entries[..|entries|] == entries;
  }

  /** Reinherit. */
  method ReinheritBytes(parentSd: seq<byte>, childSd: seq<byte>, container: bool) returns (r: Option<seq<byte>>)
    ensures r == Reinherit(parentSd, childSd, container)
  {
    hide ParseDescriptor, MarshalDescriptor, Has, KeptControl;
    var parent := ParseDescriptor(parentSd);
    if parent.None? {
      return None;
    }
    var child := ParseDescriptor(childSd);
    if child.None? {
      return None;
    }
    if !Has(child.value.control, SELF_RELATIVE) {
      return None;
    }
    var inherited: seq<Ace> := [];
    if parent.value.dacl.Some? {
      inherited := ComputeInheritedAces(parent.value.dacl.value, container);
    }
    var out := Descriptor(KeptControl(child.value.control), child.value.owner, child.value.group, None, child.value.sacl);
    var hadDacl := child.value.dacl.Some?;
    var entries: seq<Ace> := [];
    if child.value.dacl.Some? {
      entries := FilterInherited(child.value.dacl.value.entries);
    }
    entries := entries + inherited;
    if hadDacl || |entries| > 0 {
      out := out.(dacl := Some(Acl(entries)));
    }
    r := BuildDescriptor(out);
  }

  // --- what re-deriving keeps ------------------------------------------

  predicate AllInherited(entries: seq<Ace>) {
    forall i :: 0 <= i < |entries| ==> entries[i].flags.inherited
  }

  predicate NoneInherited(entries: seq<Ace>) {
    forall i :: 0 <= i < |entries| ==> !entries[i].flags.inherited
  }

  lemma {:induction false} InheritedAreMarked(entries: seq<Ace>, container: bool)
    ensures AllInherited(Inherited(entries, container))
  {
    if entries != [] {
      InheritedAreMarked(entries[1..], container);
    }
  }

  lemma {:induction false} ExplicitAreNot(entries: seq<Ace>)
    ensures NoneInherited(Explicit(entries)) && Explicit(Explicit(entries)) == Explicit(entries)
  {
    if entries != [] {
      ExplicitAreNot(entries[1..]);
      if !entries[0].flags.inherited {
        assert Explicit(entries)[1..] == Explicit(entries[1..]);
      }
    }
  }

  lemma {:induction false} NothingExplicit(entries: seq<Ace>)
    requires AllInherited(entries)
    ensures Explicit(entries) == []
  {
    if entries != [] {
      NothingExplicit(entries[1..]);
    }
  }

  /** An ACE that came from a parse: clean, or with no body to write. */
  predicate FromParse(a: Ace) {
    Clean(a) || Aces.Body(a) == None
  }

  predicate AllFromParse(entries: seq<Ace>) {
    forall i :: 0 <= i < |entries| ==> FromParse(entries[i])
  }

  lemma {:induction false} ParsedAces(b: seq<byte>, count: nat)
    requires ParseAces(b, count).Some?
    ensures AllFromParse(ParseAces(b, count).value)
    decreases count
  {
    hide FromParse, ParseBody;
    if count > 0 {
      var (a, n) := Parse(b).value;
      ParsedAces(b[n..], count - 1);
      ParsedIsFromParse(b);
    }
  }

  lemma ParsedIsFromParse(b: seq<byte>)
    requires Parse(b).Some?
    ensures FromParse(Parse(b).value.0)
  {
    var size := Word16(b[2..]);
    var body := b[4..size];
    hide FlagsOf, FlagsByte, Word32, Le32, ParseSID;
    assert ParseBody(b[0], FlagsOf(b[1]), body).Some?;
    BodyIsFromParse(b[0], FlagsOf(b[1]), body);
  }

  lemma BodyIsFromParse(kind: byte, flags: Flags, body: seq<byte>)
    requires ParseBody(kind, flags, body).Some?
    ensures FromParse(ParseBody(kind, flags, body).value)
  {
    hide FlagsByte, Word32, Le32;
  }

  lemma ParsedDescriptor(b: seq<byte>)
    requires ParseDescriptor(b).Some?
    ensures var d := ParseDescriptor(b).value;
            d.control < TWO_16 && AllFromParse(Entries(d.dacl)) && AllFromParse(Entries(d.sacl))
  {
    hide ParseAces, SidAt, Has, Word16, Word32;
    var control := Word16(b[2..]);
    ParsedList(b, Word32(b[16..]), Has(control, DACL_PRESENT));
    ParsedList(b, Word32(b[12..]), Has(control, SACL_PRESENT));
    hide AclAt;
  }

  lemma ParsedList(b: seq<byte>, off: nat, present: bool)
    requires AclAt(b, off, present).Some?
    ensures AllFromParse(Entries(AclAt(b, off, present).value))
  {
    hide ParseAces, Word16;
    if present && off != 0 {
      var buf := b[off..];
      ParsedAces(buf[8..Word16(buf[2..])], Word16(buf[4..]));
    }
  }

  lemma {:induction false} InheritedFromParse(entries: seq<Ace>, container: bool)
    requires AllFromParse(entries)
    ensures AllFromParse(Inherited(entries, container))
  {
    hide InheritFlags;
    if entries != [] {
      InheritedFromParse(entries[1..], container);
      match InheritFlags(entries[0].flags, container) {
        case None =>
        case Some(f) => FlagsDoNotMatter(entries[0], f);
      }
    }
  }

  lemma FlagsDoNotMatter(a: Ace, f: Flags)
    requires FromParse(a)
    ensures FromParse(a.(flags := f))
  {
    hide Le32, FlagsByte;
  }

  lemma {:induction false} ExplicitFromParse(entries: seq<Ace>)
    requires AllFromParse(entries)
    ensures AllFromParse(Explicit(entries))
  {
    hide FromParse;
    if entries != [] {
      ExplicitFromParse(entries[1..]);
    }
  }

  lemma {:induction false} MarshalledAreClean(entries: seq<Ace>)
    requires AllFromParse(entries) && MarshalAces(entries).Some?
    ensures AllClean(entries)
  {
    hide Clean, Aces.Body;
    if entries != [] {
      MarshalledAreClean(entries[1..]);
      assert FromParse(entries[0]);
      forall i | 0 <= i < |entries|
        ensures Clean(entries[i])
      {
        if i > 0 {
          assert entries[i] == entries[1..][i - 1];
        }
      }
    }
  }

  lemma ListIsClean(l: Option<Acl>)
    requires ListBytes(l).Some? && AllFromParse(Entries(l))
    ensures CleanList(l)
  {
    hide MarshalAces, AllFromParse, AllClean;
    if l.Some? {
      MarshalledAreClean(l.value.entries);
    }
  }

  // --- the control word ------------------------------------------------

  lemma KeptBits(k: nat, x: nat, s: nat)
    requires k < 16 && x < 0x400 && s < 2
    ensures var n := 0x8000 * s + 0x400 * k + x;
            && Has(n, DACL_AUTO_INHERITED) == Odd(k) && Has(n, SACL_AUTO_INHERITED) == Odd(k / 2)
            && Has(n, DACL_PROTECTED) == Odd(k / 4) && Has(n, SACL_PROTECTED) == Odd(k / 8)
  {
    var n := 0x8000 * s + 0x400 * k + x;
    assert n / 0x400 == 0x20 * s + k;
    assert n / 0x800 == n / 0x400 / 2 && n / 0x1000 == n / 0x400 / 4 && n / 0x2000 == n / 0x400 / 8;
    assert (0x20 * s + k) / 2 == 0x10 * s + k / 2 && (0x20 * s + k) / 4 == 8 * s + k / 4 && (0x20 * s + k) / 8 == 4 * s + k / 8;
  }

  lemma KeptAgain(k: nat, x: nat, s: nat)
    requires k < 16 && x < 0x400 && s < 2
    ensures KeptControl(0x8000 * s + 0x400 * k + x) == 0x400 * k
  {
    KeptBits(k, x, s);
    NibbleOfBits(k);
    hide Has, Odd;
  }

  lemma WireOfKept(k: nat, sacl: bool, dacl: bool)
    requires k < 16
    ensures With(With(With(0x400 * k, SELF_RELATIVE, true), SACL_PRESENT, sacl), DACL_PRESENT, dacl)
         == 0x8000 + 0x400 * k + 0x10 * Bit(sacl) + 4 * Bit(dacl)
  {
    assert 0x400 * k / SELF_RELATIVE == 0;
    assert (0x8000 + 0x400 * k) / SACL_PRESENT == 0x800 + 0x40 * k;
    var two := 0x8000 + 0x400 * k + 0x10 * Bit(sacl);
    assert two / DACL_PRESENT == 0x2000 + 0x100 * k + 4 * Bit(sacl);
  }

  function Kept(control: nat): (k: nat)
    ensures k < 16 && KeptControl(control) == 0x400 * k
  {
    Bit(Has(control, DACL_AUTO_INHERITED)) + 2 * Bit(Has(control, SACL_AUTO_INHERITED))
    + 4 * Bit(Has(control, DACL_PROTECTED)) + 8 * Bit(Has(control, SACL_PROTECTED))
  }

  /** Writing the kept bits and keeping them again is keeping them. */
  lemma KeptControlStays(d: Descriptor, control: nat)
    requires d.control == KeptControl(control)
    ensures d.control < TWO_16 && KeptControl(WireControl(d)) == d.control
  {
    var k := Kept(control);
    WireOfKept(k, d.sacl.Some?, d.dacl.Some?);
    KeptAgain(k, 0x10 * Bit(d.sacl.Some?) + 4 * Bit(d.dacl.Some?), 1);
    hide With, Has, KeptControl, Kept;
  }

  // --- idempotence -----------------------------------------------------

  /**
   What comes out of Reinherit: the child's owner, group, SACL and kept control bits, and a DACL of the
   child's explicit ACEs followed by the parent's inherited ones.
   */
  lemma ReinheritedParses(parentSd: seq<byte>, childSd: seq<byte>, container: bool)
    requires Reinherit(parentSd, childSd, container).Some?
    ensures var out := Rederived(ParseDescriptor(parentSd).value, ParseDescriptor(childSd).value, container);
            && ParseDescriptor(Reinherit(parentSd, childSd, container).value) == Some(out.(control := WireControl(out)))
            && Has(WireControl(out), SELF_RELATIVE) && KeptControl(WireControl(out)) == out.control
  {
    hide ParseDescriptor, MarshalDescriptor, Has, WireControl, KeptControl, AllFromParse, Inherited, Explicit, ListBytes;
    var parent, child := ParseDescriptor(parentSd).value, ParseDescriptor(childSd).value;
    var out := Rederived(parent, child, container);
    ParsedDescriptor(parentSd);
    ParsedDescriptor(childSd);
    InheritedFromParse(Entries(parent.dacl), container);
    ExplicitFromParse(Entries(child.dacl));
    BothFromParse(Explicit(Entries(child.dacl)), Inherited(Entries(parent.dacl), container));
    KeptControlStays(out, child.control);
    ListsMarshal(out);
    NothingFromParse();
    ListIsClean(out.dacl);
    ListIsClean(out.sacl);
    BitsOfWire(out);
    DescriptorBack(out);
  }

  lemma BothFromParse(a: seq<Ace>, b: seq<Ace>)
    requires AllFromParse(a) && AllFromParse(b)
    ensures AllFromParse(a + b)
  {
    hide FromParse;
  }

  lemma NothingFromParse()
    ensures AllFromParse([])
  {
  }

  /** Re-deriving a second time from the same parent changes not a byte. */
  lemma ReinheritIdempotent(parentSd: seq<byte>, childSd: seq<byte>, container: bool)
    requires Reinherit(parentSd, childSd, container).Some?
    ensures Reinherit(parentSd, Reinherit(parentSd, childSd, container).value, container)
         == Reinherit(parentSd, childSd, container)
  {
    hide ParseDescriptor, MarshalDescriptor, Has, WireControl, KeptControl, Inherited, Explicit;
    var parent, child := ParseDescriptor(parentSd).value, ParseDescriptor(childSd).value;
    var explicit, inherited := Explicit(Entries(child.dacl)), Inherited(Entries(parent.dacl), container);
    ReinheritedParses(parentSd, childSd, container);
    InheritedAreMarked(Entries(parent.dacl), container);
    ExplicitAreNot(Entries(child.dacl));
    ExplicitAppend(explicit, inherited);
    NothingExplicit(inherited);
    assert explicit + [] == explicit;
    ExplicitOfNothing();
  }

  lemma ExplicitOfNothing()
    ensures Explicit([]) == []
  {
  }

  /** Explicit ACEs come first and are kept as they were; what follows is exactly what the parent passes on. */
  lemma ReinheritKeepsExplicit(parentSd: seq<byte>, childSd: seq<byte>, container: bool)
    requires Reinherit(parentSd, childSd, container).Some?
    ensures var before, after := ParseDescriptor(childSd).value, ParseDescriptor(Reinherit(parentSd, childSd, container).value);
            && after.Some?
            && var entries, explicit := Entries(after.value.dacl), Explicit(Entries(before.dacl));
            && explicit <= entries && NoneInherited(explicit) && AllInherited(entries[|explicit|..])
            && Explicit(entries) == explicit
            && entries[|explicit|..] == Inherited(Entries(ParseDescriptor(parentSd).value.dacl), container)
            && after.value.owner == before.owner && after.value.group == before.group && after.value.sacl == before.sacl
  {
    hide ParseDescriptor, MarshalDescriptor, Has, WireControl, KeptControl, Inherited, Explicit;
    var parent, child := ParseDescriptor(parentSd).value, ParseDescriptor(childSd).value;
    var explicit, inherited := Explicit(Entries(child.dacl)), Inherited(Entries(parent.dacl), container);
    ReinheritedParses(parentSd, childSd, container);
    InheritedAreMarked(Entries(parent.dacl), container);
    ExplicitAreNot(Entries(child.dacl));
    ExplicitAppend(explicit, inherited);
    NothingExplicit(inherited);
    assert explicit + [] == explicit;
    assert (explicit + inherited)[|explicit|..] == inherited;
  }

  /**
   A DACL comes out NULL exactly if the child's was and the parent passes nothing on; a list that loses its last
   ACE stays a list. Of the control word just the four kept bits are the child's.
   */
  lemma ReinheritControl(parentSd: seq<byte>, childSd: seq<byte>, container: bool)
    requires Reinherit(parentSd, childSd, container).Some?
    ensures var before, after := ParseDescriptor(childSd).value, ParseDescriptor(Reinherit(parentSd, childSd, container).value);
            && after.Some?
            && (after.value.dacl == None <==>
                  before.dacl == None && Inherited(Entries(ParseDescriptor(parentSd).value.dacl), container) == [])
            && after.value.control ==
               SELF_RELATIVE + DACL_PRESENT * Bit(after.value.dacl.Some?) + SACL_PRESENT * Bit(before.sacl.Some?)
               + DACL_AUTO_INHERITED * Bit(Has(before.control, DACL_AUTO_INHERITED))
               + SACL_AUTO_INHERITED * Bit(Has(before.control, SACL_AUTO_INHERITED))
               + DACL_PROTECTED * Bit(Has(before.control, DACL_PROTECTED))
               + SACL_PROTECTED * Bit(Has(before.control, SACL_PROTECTED))
  {
    var parent, child := ParseDescriptor(parentSd).value, ParseDescriptor(childSd).value;
    var out := Rederived(parent, child, container);
    ReinheritedParses(parentSd, childSd, container);
    WireOfKept(Kept(child.control), out.sacl.Some?, out.dacl.Some?);
    NothingExplicitIn(child.dacl);
    hide ParseDescriptor, MarshalDescriptor, Has, With, Inherited, Explicit, Reinherit;
  }

  lemma NothingExplicitIn(l: Option<Acl>)
    ensures l == None ==> Explicit(Entries(l)) == []
  {
  }

  /** What is explicit: `at` lists, in order, exactly the positions of the ACEs without INHERITED, kept as they are. */
  lemma {:induction false} ExplicitFrom(entries: seq<Ace>) returns (at: seq<nat>)
    ensures |at| == |Explicit(entries)|
    ensures forall j :: 0 <= j < |at| ==> at[j] < |entries|
    ensures forall i, j :: 0 <= i < j < |at| ==> at[i] < at[j]
    ensures forall i: nat :: i < |entries| && !entries[i].flags.inherited ==> i in at
    ensures forall j :: 0 <= j < |at| ==> Explicit(entries)[j] == entries[at[j]] && !entries[at[j]].flags.inherited
  {
    at := [];
    if entries == [] {
      assert Explicit([]) == [];
    } else {
      hide Explicit;
      var n := |entries| - 1;
      var front, a := entries[..n], entries[n];
      assert entries == front + [a];
      at := ExplicitFrom(front);
      ExplicitAppend(front, [a]);
      ExplicitOne(a);
      if !a.flags.inherited {
        at := at + [n];
      }
    }
  }

  lemma ExplicitOne(a: Ace)
    ensures Explicit([a]) == if a.flags.inherited then [] else [a]
  {
    assert [a][1..] == [];
  }

  // --- trees -----------------------------------------------------------

  datatype Tree = Tree(sd: seq<byte>, container: bool, children: seq<Tree>)

  /** Every child re-derived from its parent's new descriptor, top down. */
  function Propagate(parentSd: seq<byte>, t: Tree): Option<Tree>
    decreases t, 1
  {
    var sd :- Reinherit(parentSd, t.sd, t.container);
    var children :- PropagateAll(sd, t.children);
    Some(Tree(sd, t.container, children))
  }

  function PropagateAll(parentSd: seq<byte>, ts: seq<Tree>): Option<seq<Tree>>
    decreases ts, 0
  {
    if ts == [] then Some([])
    else
      var first :- Propagate(parentSd, ts[0]);
      var rest :- PropagateAll(parentSd, ts[1..]);
      Some([first] + rest)
  }

  /** A second pass over a tree of any shape changes nothing. */
  lemma {:induction false} PropagateIdempotent(parentSd: seq<byte>, t: Tree)
    requires Propagate(parentSd, t).Some?
    ensures Propagate(parentSd, Propagate(parentSd, t).value) == Propagate(parentSd, t)
    decreases t, 1
  {
    hide Reinherit;
    ReinheritIdempotent(parentSd, t.sd, t.container);
    PropagateAllIdempotent(Reinherit(parentSd, t.sd, t.container).value, t.children);
  }

  lemma {:induction false} PropagateAllIdempotent(parentSd: seq<byte>, ts: seq<Tree>)
    requires PropagateAll(parentSd, ts).Some?
    ensures PropagateAll(parentSd, PropagateAll(parentSd, ts).value) == PropagateAll(parentSd, ts)
    decreases ts, 0
  {
    hide Reinherit, Propagate;
    if ts != [] {
      PropagateIdempotent(parentSd, ts[0]);
      PropagateAllIdempotent(parentSd, ts[1..]);
      var us := PropagateAll(parentSd, ts).value;
      assert us[1..] == PropagateAll(parentSd, ts[1..]).value;
    }
  }

  // --- stripping -------------------------------------------------------

  function StripList(l: Option<Acl>, selected: bool): Option<Acl> {
    if selected && l.Some? then Some(Acl(Explicit(l.value.entries))) else l
  }

  function Stripped(d: Descriptor, dacl: bool, sacl: bool): Descriptor {
    d.(dacl := StripList(d.dacl, dacl), sacl := StripList(d.sacl, sacl))
  }

  function Strip(b: seq<byte>, dacl: bool, sacl: bool): Option<seq<byte>> {
    if !dacl && !sacl then Some(b)
    else
      var d :- ParseDescriptor(b);
      if !Has(d.control, SELF_RELATIVE) then None else MarshalDescriptor(Stripped(d, dacl, sacl))
  }

  /** StripInheritedACEs. */
  method StripInheritedAces(b: seq<byte>, dacl: bool, sacl: bool) returns (r: Option<seq<byte>>)
    ensures r == Strip(b, dacl, sacl)
  {
    hide ParseDescriptor, MarshalDescriptor, Has;
    if !dacl && !sacl {
      return Some(b);
    }
    var parsed := ParseDescriptor(b);
    if parsed.None? {
      return None;
    }
    var d := parsed.value;
    if !Has(d.control, SELF_RELATIVE) {
      return None;
    }
    if dacl && d.dacl.Some? {
      var kept := FilterInherited(d.dacl.value.entries);
      d := d.(dacl := Some(Acl(kept)));
    }
    if sacl && d.sacl.Some? {
      var kept := FilterInherited(d.sacl.value.entries);
      d := d.(sacl := Some(Acl(kept)));
    }
    r := BuildDescriptor(d);
  }

  lemma ParsedControl(b: seq<byte>)
    requires ParseDescriptor(b).Some?
    ensures var d := ParseDescriptor(b).value;
            (d.dacl.Some? ==> Has(d.control, DACL_PRESENT)) && (d.sacl.Some? ==> Has(d.control, SACL_PRESENT))
  {
    hide Has, ParseAcl, SidAt, Word16, Word32;
  }

  /** A control word that already says what it should is written unchanged. */
  lemma SameControl(d: Descriptor)
    requires Has(d.control, SELF_RELATIVE)
    requires (d.dacl.Some? ==> Has(d.control, DACL_PRESENT)) && (d.sacl.Some? ==> Has(d.control, SACL_PRESENT))
    ensures WireControl(d) == d.control
  {
    hide Has;
  }

  /**
   Stripping removes exactly the inherited ACEs of the lists selected: the result parses to the same
   descriptor, control word included, with those lists filtered and the others intact.
   */
  lemma StripParses(b: seq<byte>, dacl: bool, sacl: bool)
    requires (dacl || sacl) && Strip(b, dacl, sacl).Some?
    ensures ParseDescriptor(Strip(b, dacl, sacl).value) == Some(Stripped(ParseDescriptor(b).value, dacl, sacl))
    ensures Has(ParseDescriptor(b).value.control, SELF_RELATIVE)
  {
    hide ParseDescriptor, MarshalDescriptor, Has, WireControl, AllFromParse, Explicit, ListBytes;
    var d := ParseDescriptor(b).value;
    var out := Stripped(d, dacl, sacl);
    ParsedDescriptor(b);
    ParsedControl(b);
    SameControl(out);
    ExplicitFromParse(Entries(d.dacl));
    ExplicitFromParse(Entries(d.sacl));
    ListsMarshal(out);
    ListIsClean(out.dacl);
    ListIsClean(out.sacl);
    DescriptorBack(out);
  }

  lemma StripListTwice(l: Option<Acl>, selected: bool)
    ensures StripList(StripList(l, selected), selected) == StripList(l, selected)
  {
    ExplicitAreNot(Entries(l));
  }

  lemma StripIdempotent(b: seq<byte>, dacl: bool, sacl: bool)
    requires Strip(b, dacl, sacl).Some?
    ensures Strip(Strip(b, dacl, sacl).value, dacl, sacl) == Strip(b, dacl, sacl)
  {
    hide ParseDescriptor, MarshalDescriptor, Has, StripList;
    if dacl || sacl {
      StripParses(b, dacl, sacl);
      StripListTwice(ParseDescriptor(b).value.dacl, dacl);
      StripListTwice(ParseDescriptor(b).value.sacl, sacl);
    }
  }

  /** Fewer ACEs marshal if more do, and to no more bytes. */
  lemma {:induction false} ExplicitMarshals(entries: seq<Ace>)
    requires MarshalAces(entries).Some?
    ensures MarshalAces(Explicit(entries)).Some? && |MarshalAces(Explicit(entries)).value| <= |MarshalAces(entries).value|
    ensures |Explicit(entries)| <= |entries|
  {
    hide Marshal;
    if entries != [] {
      ExplicitMarshals(entries[1..]);
      assert Explicit(entries) != [] && !entries[0].flags.inherited ==> Explicit(entries)[1..] == Explicit(entries[1..]);
    }
  }

  lemma StrippedListMarshals(l: Option<Acl>, selected: bool)
    requires ListBytes(l).Some?
    ensures ListBytes(StripList(l, selected)).Some?
  {
    hide MarshalAces, Explicit, AclHeader, AnyDs;
    if selected && l.Some? {
      ExplicitMarshals(l.value.entries);
    }
  }

  /** A descriptor whose lists could be marshalled can be stripped. */
  lemma StripSucceeds(b: seq<byte>, dacl: bool, sacl: bool)
    requires ParseDescriptor(b).Some? && Has(ParseDescriptor(b).value.control, SELF_RELATIVE)
    requires ListBytes(ParseDescriptor(b).value.dacl).Some? && ListBytes(ParseDescriptor(b).value.sacl).Some?
    ensures Strip(b, dacl, sacl).Some?
  {
    hide ParseDescriptor, Has, ListBytes, StripList, Header, WireControl, Encoded;
    StrippedListMarshals(ParseDescriptor(b).value.dacl, dacl);
    StrippedListMarshals(ParseDescriptor(b).value.sacl, sacl);
  }

  /** What Reinherit added, stripping takes away: it never fails, and the explicit ACEs of the child are what is left. */
  lemma StripOfReinherit(parentSd: seq<byte>, childSd: seq<byte>, container: bool, sacl: bool)
    requires Reinherit(parentSd, childSd, container).Some?
    ensures Strip(Reinherit(parentSd, childSd, container).value, true, sacl).Some?
    ensures var left := ParseDescriptor(Strip(Reinherit(parentSd, childSd, container).value, true, sacl).value);
            left.Some? && Entries(left.value.dacl) == Explicit(Entries(ParseDescriptor(childSd).value.dacl))
  {
    var out := Rederived(ParseDescriptor(parentSd).value, ParseDescriptor(childSd).value, container);
    hide ParseDescriptor, MarshalDescriptor, Has, Explicit, ListBytes, Rederived;
    ReinheritedParses(parentSd, childSd, container);
    ListsMarshal(out);
    StripSucceeds(Reinherit(parentSd, childSd, container).value, true, sacl);
    ReinheritKeepsExplicit(parentSd, childSd, container);
    StripParses(Reinherit(parentSd, childSd, container).value, true, sacl);
    hide Reinherit, Strip;
    ExplicitOfNothing();
  }
}
