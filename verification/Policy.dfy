/** What the emission policy decides, given a registry tree (the pure half of event/policy.go). */
module Policy {
  import opened Wrappers
  import opened Bytes
  import opened Text
  import opened Registry
  import Utf8
  import Values

  datatype Setting = Unset | Off | On

  const ESSENTIAL := 0
  const STANDARD := 1
  const VERBOSE := 2
  const DEBUG_TIER := 3

  const DOT: byte := 0x2E
  const BACKSLASH: byte := 0x5C
  const SLASH: byte := 0x2F

  // "Machine", "Generic" and "Events".
  const MACHINE: Name := [0x4D, 0x61, 0x63, 0x68, 0x69, 0x6E, 0x65]
  const GENERIC: Name := [0x47, 0x65, 0x6E, 0x65, 0x72, 0x69, 0x63]
  const EVENTS: Name := [0x45, 0x76, 0x65, 0x6E, 0x74, 0x73]

  const MACHINE_PATH: Path := [MACHINE]
  const GENERIC_PATH: Path := [MACHINE, GENERIC]
  const EVENTS_PATH: Path := [MACHINE, GENERIC, EVENTS]

  // --- event types -----------------------------------------------------

  /** A segment that names exactly one key. */
  predicate GoodSegment(s: Name) {
    s != [] && BACKSLASH !in s && SLASH !in s && 0 !in s
  }

  predicate GoodSegments(segs: seq<Name>) {
    forall i :: 0 <= i < |segs| ==> GoodSegment(segs[i])
  }

  /** The keys an event type names, or None when it is malformed. */
  function Segments(eventType: seq<byte>): Option<Path> {
    if eventType == [] || !Utf8.Valid(eventType) || !GoodSegments(Split(eventType, DOT)) then None
    else Some(Split(eventType, DOT))
  }

  /** policySegments. */
  method PolicySegments(eventType: seq<byte>) returns (r: Option<Path>)
    ensures r == Segments(eventType)
  {
    if eventType == [] || !Utf8.Valid(eventType) {
      return None;
    }
    var segs := Split(eventType, DOT);
    for i := 0 to |segs|
      invariant GoodSegments(segs[..i])
    {
      if segs[i] == [] || BACKSLASH in segs[i] || SLASH in segs[i] || 0 in segs[i] {
        assert !GoodSegment(segs[i]);
        return None;
      }
    }
    assert segs[..|segs|] == segs;
    r := Some(segs);
  }

  /** Different event types name different keys, and each type is its segments joined by dots. */
  lemma SegmentsJoin(eventType: seq<byte>)
    requires Segments(eventType).Some?
    ensures Join(Segments(eventType).value, [DOT]) == eventType
  {
    JoinOfSplit(eventType, DOT);
  }

  // --- settings --------------------------------------------------------

  /** interpretEnabled, on what a query returned: exactly a REG_DWORD of 0 or 1 is a setting. */
  function SettingOf(stored: Option<Stored>): (s: Setting)
    ensures s == Off <==> stored == Some((Values.REG_DWORD, [0, 0, 0, 0]))
    ensures s == On <==> stored == Some((Values.REG_DWORD, [1, 0, 0, 0]))
  {
    match stored
    case None => Unset
    case Some((t, data)) =>
      SettingBytes(data);
      match Values.Decode(t, data)
      case Some(Dword(n)) => if n == 0 then Off else if n == 1 then On else Unset
      case _ => Unset
  }

  lemma SettingBytes(data: seq<byte>)
    ensures |data| == 4 ==> (Word32(data) == 0 <==> data == [0, 0, 0, 0]) && (Word32(data) == 1 <==> data == [1, 0, 0, 0])
  {
    if |data| == 4 {
      Le32OfWord32(data);
      assert data[..4] == data;
      assert Le32(0) == [0, 0, 0, 0] && Le32(1) == [1, 0, 0, 0];
    }
  }

  function SettingAt(t: Tree, k: nat): Setting { SettingOf(ValueAt(t, k)) }

  function Over(found: Setting, deeper: Setting): Setting {
    if deeper != Unset then deeper else found
  }

  /** The child a walk goes on to: one that exists and can be opened. */
  function Next(t: Tree, k: nat, name: Name): Option<nat> {
    match Lookup(t, k, [name])
    case None => None
    case Some(x) => if x in t.sealed then None else Some(x)
  }

  /** What a walk from `k` along `segs` finds: the setting of the deepest key that has one. */
  function Resolve(t: Tree, k: nat, segs: Path): Setting
    decreases |segs|
  {
    if segs == [] then SettingAt(t, k)
    else
      match Next(t, k, segs[0])
      case None => SettingAt(t, k)
      case Some(x) => Over(SettingAt(t, k), Resolve(t, x, segs[1..]))
  }

  /** The key a walk reaches after `d` segments. */
  function Reached(t: Tree, k: nat, segs: Path, d: nat): Option<nat>
    requires d <= |segs|
    decreases d
  {
    if d == 0 then Some(k)
    else
      var x :- Next(t, k, segs[0]);
      Reached(t, x, segs[1..], d - 1)
  }

  /** The deepest setting wins: some key on the walk has the result and no key below it has any. */
  lemma {:induction false} DeepestWins(t: Tree, k: nat, segs: Path) returns (d: nat)
    ensures d <= |segs|
    ensures Resolve(t, k, segs) != Unset ==>
              Reached(t, k, segs, d).Some? && SettingAt(t, Reached(t, k, segs, d).value) == Resolve(t, k, segs)
    ensures forall e :: (if Resolve(t, k, segs) == Unset then 0 else d + 1) <= e <= |segs| && Reached(t, k, segs, e).Some? ==>
              SettingAt(t, Reached(t, k, segs, e).value) == Unset
    decreases |segs|
  {
    d := 0;
    if segs != [] {
      match Next(t, k, segs[0]) {
        case None =>
        case Some(x) =>
          var deeper := DeepestWins(t, x, segs[1..]);
          var below := Resolve(t, x, segs[1..]);
          forall e | 0 < e <= |segs|
            ensures Reached(t, k, segs, e) == Reached(t, x, segs[1..], e - 1)
          {
          }
          if below != Unset {
            d := deeper + 1;
          }
          forall e | (if Resolve(t, k, segs) == Unset then 0 else d + 1) <= e <= |segs| && Reached(t, k, segs, e).Some?
            ensures SettingAt(t, Reached(t, k, segs, e).value) == Unset
          {
            if e > 0 {
              assert Reached(t, x, segs[1..], e - 1).Some?;
            }
          }
      }
    }
  }

  /** decide. */
  function Decide(tier: nat, s: Setting): bool {
    if tier == ESSENTIAL then true
    else if s != Unset then s == On
    else tier == STANDARD
  }

  /** The Events key, if it exists and can be opened. */
  function EventsKey(t: Tree): Option<nat> { Openable(t, EVENTS_PATH) }

  /** The answer of a fresh walk. */
  function Fresh(t: Tree, segs: Path): Setting {
    match EventsKey(t)
    case None => Unset
    case Some(k) => Resolve(t, k, segs)
  }

  // --- what a walk depends on ------------------------------------------

  lemma SameBelowChild(t: Tree, u: Tree, k: nat, name: Name)
    requires SameBelow(t, u, k) && Lookup(t, k, [name]).Some?
    ensures Lookup(u, k, [name]) == Lookup(t, k, [name])
    ensures SameBelow(t, u, Lookup(t, k, [name]).value)
    ensures Lookup(t, k, [name]).value in t.sealed <==> Lookup(t, k, [name]).value in u.sealed
  {
    var x := Lookup(t, k, [name]).value;
    assert Node(t, k, [name]) == Node(u, k, [name]);
    forall rel: Path
      ensures Node(t, x, rel) == Node(u, x, rel)
    {
      LookupThrough(t, k, [name], rel);
      LookupThrough(u, k, [name], rel);
      assert Node(t, k, [name] + rel) == Node(u, k, [name] + rel);
    }
  }

  lemma SameBelowHere(t: Tree, u: Tree, k: nat)
    requires SameBelow(t, u, k)
    ensures SettingAt(t, k) == SettingAt(u, k)
  {
    assert Node(t, k, []) == Node(u, k, []);
  }

  lemma SameBelowNext(t: Tree, u: Tree, k: nat, name: Name)
    requires SameBelow(t, u, k)
    ensures Next(t, k, name) == Next(u, k, name)
    ensures Next(t, k, name).Some? ==> SameBelow(t, u, Next(t, k, name).value)
  {
    assert Node(t, k, [name]) == Node(u, k, [name]);
    if Lookup(t, k, [name]).Some? {
      SameBelowChild(t, u, k, name);
    }
  }

  /** A walk sees only what lies below where it starts. */
  lemma {:induction false} ResolveSame(t: Tree, u: Tree, k: nat, segs: Path)
    requires SameBelow(t, u, k)
    ensures Resolve(t, k, segs) == Resolve(u, k, segs)
    decreases |segs|
  {
    hide SameBelow, SettingAt, Next;
    SameBelowHere(t, u, k);
    if segs != [] {
      SameBelowNext(t, u, k, segs[0]);
      if Next(t, k, segs[0]).Some? {
        ResolveSame(t, u, Next(t, k, segs[0]).value, segs[1..]);
      }
    }
  }

  lemma SameBelowThen(t: Tree, u: Tree, v: Tree, k: nat)
    requires SameBelow(t, u, k) && SameBelow(u, v, k)
    ensures SameBelow(t, v, k)
  {
    hide Node;
  }
}
