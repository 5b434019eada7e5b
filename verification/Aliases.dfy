/** SDDL SID tokens: two-letter aliases and S-1-... literals (sddl/tables.go). */
module Aliases {
  import opened Wrappers
  import opened Bytes
  import opened Numerals
  import opened Sid

  /** What an alias stands for: a fixed SID, or a RID under the domain or machine SID. */
  datatype Entry = Absolute(sid: SID) | InDomain(rid: u32) | OnMachine(rid: u32)

  datatype Alias = Alias(name: string, entry: Entry)

  /** The resolution context. The alias table rides along, so that every result holds for any table. */
  datatype Options = Options(domain: SID, machine: SID, aliases: seq<Alias>)

  predicate IsUpper(c: char) { 'A' <= c <= 'Z' }

  predicate AliasName(name: string) {
    |name| == 2 && IsUpper(name[0]) && IsUpper(name[1])
  }

  /** A table of two-letter names, each given once, whose fixed SIDs are valid. */
  ghost predicate WellFormed(t: seq<Alias>) {
    && (forall i :: 0 <= i < |t| ==> AliasName(t[i].name))
    && (forall i :: 0 <= i < |t| && t[i].entry.Absolute? ==> IsValid(t[i].entry.sid))
    && (forall i, j :: 0 <= i < j < |t| ==> t[i].name != t[j].name)
  }

  function Lookup(t: seq<Alias>, name: string): (e: Option<Entry>)
    ensures e.Some? ==> exists i :: 0 <= i < |t| && t[i] == Alias(name, e.value)
  {
    if t == [] then None
    else if t[0].name == name then Some(t[0].entry)
    else
      var e := Lookup(t[1..], name);
      assert forall i :: 0 <= i < |t[1..]| ==> t[1..][i] == t[i + 1];
      e
  }

  lemma {:induction false} LookupOfRow(t: seq<Alias>, i: nat)
    requires WellFormed(t) && i < |t|
    ensures Lookup(t, t[i].name) == Some(t[i].entry)
  {
    if i > 0 {
      assert t[0].name != t[i].name;
      LookupOfRow(t[1..], i - 1);
    }
  }

  predicate Before(a: string, b: string) {
    |a| == 2 && |b| == 2 && (a[0] < b[0] || (a[0] == b[0] && a[1] < b[1]))
  }

  /** The reverse table: the alphabetically first alias fixed to `s`. */
  function AbsoluteAlias(t: seq<Alias>, s: SID): (name: Option<string>)
    ensures name.Some? ==> exists i :: 0 <= i < |t| && t[i] == Alias(name.value, Absolute(s))
    ensures forall i :: 0 <= i < |t| && t[i].entry == Absolute(s) ==> name.Some?
  {
    if t == [] then None
    else
      var rest := AbsoluteAlias(t[1..], s);
      assert forall i :: 0 <= i < |t| - 1 ==> t[1..][i] == t[i + 1];
      if t[0].entry == Absolute(s) && (rest.None? || Before(t[0].name, rest.value)) then Some(t[0].name)
      else rest
  }

  /** The SID a relative entry stands for, given its base. */
  function Relative(e: Entry, o: Options): Option<SID> {
    match e
    case InDomain(rid) => if IsValid(o.domain) then Child(o.domain, rid) else None
    case OnMachine(rid) => if IsValid(o.machine) then Child(o.machine, rid) else None
    case Absolute(sid) => Some(sid)
  }

  function ResolveAlias(o: Options, name: string): Option<SID> {
    var e :- Lookup(o.aliases, name);
    Relative(e, o)
  }

  /** A SID token: an S-1-... literal or an alias. */
  function ParseSidText(o: Options, text: string): Option<SID> {
    if "S-" <= text then Denoted(text) else ResolveAlias(o, text)
  }

  /** The first relative alias of the wanted kind that stands for `s`. */
  function RelativeAlias(t: seq<Alias>, o: Options, s: SID, domain: bool): (name: Option<string>)
    ensures name.Some? ==> exists i :: 0 <= i < |t| && t[i].name == name.value
                                       && !t[i].entry.Absolute? && Relative(t[i].entry, o) == Some(s)
  {
    if t == [] then None
    else if (if domain then t[0].entry.InDomain? else t[0].entry.OnMachine?) && Relative(t[0].entry, o) == Some(s)
    then Some(t[0].name)
    else
      var rest := RelativeAlias(t[1..], o, s, domain);
      assert forall i :: 0 <= i < |t| - 1 ==> t[1..][i] == t[i + 1];
      rest
  }

  function FirstOf<T>(a: Option<T>, b: Option<T>): Option<T> {
    if a.Some? then a else b
  }

  function AliasOf(o: Options, s: SID): Option<string>
  {
    FirstOf(AbsoluteAlias(o.aliases, s),
            FirstOf(if IsValid(o.domain) then RelativeAlias(o.aliases, o, s, true) else None,
                    if IsValid(o.machine) then RelativeAlias(o.aliases, o, s, false) else None))
  }

  /** A SID as its alias where one is known, else in the S-1-... form. */
  function FormatSid(o: Options, s: SID): string
  {
    var name := AliasOf(o, s);
    if name.Some? then name.value else Printed(s)
  }

  lemma AliasResolves(o: Options, s: SID)
    requires WellFormed(o.aliases) && AliasOf(o, s).Some?
    ensures AliasName(AliasOf(o, s).value)
    ensures ResolveAlias(o, AliasOf(o, s).value) == Some(s)
  {
    var name := AliasOf(o, s).value;
    var t := o.aliases;
    var i :| 0 <= i < |t| && t[i].name == name && Relative(t[i].entry, o) == Some(s);
    LookupOfRow(t, i);
  }

  /** Whatever the context, a valid SID is read back from the text it is rendered as. */
  lemma ParseOfFormat(o: Options, s: SID)
    requires WellFormed(o.aliases) && IsValid(s)
    ensures ParseSidText(o, FormatSid(o, s)) == Some(s)
  {
    if AliasOf(o, s).Some? {
      AliasResolves(o, s);
    } else {
      DenotedOfPrinted(s);
      assert Printed(s)[..2] == "S-";
    }
  }

  predicate SidTextChar(c: char) {
    IsUpper(c) || 'a' <= c <= 'z' || '0' <= c <= '9' || c == '-'
  }

  predicate SidTextLike(s: string) {
    forall i :: 0 <= i < |s| ==> SidTextChar(s[i])
  }

  lemma {:induction false} DashedIsSidText(subs: seq<u32>)
    ensures SidTextLike(Dashed(SubTexts(subs)))
  {
    if subs != [] {
      DashedIsSidText(subs[1..]);
      assert SubTexts(subs)[1..] == SubTexts(subs[1..]);
    }
  }

  lemma AuthorityIsSidText(a: nat)
    ensures SidTextLike(AuthorityText(a))
  {
    if a >= TWO_32 {
      assert Hex(Digits(a, 16));
    } else {
      assert Decimal(Digits(a, 10));
    }
  }

  lemma SidTextAppend(a: string, b: string)
    requires SidTextLike(a) && SidTextLike(b)
    ensures SidTextLike(a + b)
  {
  }

  lemma PrintedIsSidText(s: SID)
    requires IsValid(s)
    ensures SidTextLike(Printed(s))
  {
    DashedIsSidText(SubAuthorities(s));
    AuthorityIsSidText(Authority(s));
    SidTextAppend("S-1-", AuthorityText(Authority(s)));
    SidTextAppend("S-1-" + AuthorityText(Authority(s)), Dashed(SubTexts(SubAuthorities(s))));
  }

  /** A rendered SID never holds a delimiter of the surrounding syntax. */
  lemma FormatIsSidText(o: Options, s: SID)
    requires WellFormed(o.aliases) && IsValid(s)
    ensures SidTextLike(FormatSid(o, s))
  {
    hide AliasOf, Printed, ResolveAlias, WellFormed;
    if AliasOf(o, s).Some? {
      AliasResolves(o, s);
    } else {
      PrintedIsSidText(s);
    }
  }

  /** Resolving a SID token gives a valid SID. */
  lemma ParsedSidIsValid(o: Options, text: string)
    requires WellFormed(o.aliases) && ParseSidText(o, text).Some?
    ensures IsValid(ParseSidText(o, text).value)
  {
  }
}
