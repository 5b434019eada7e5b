/**
 What a SID's bytes and its text say, apart from the codec: the fields at their places, the numbers of the S-1-...
 form, and aliases under a domain or a machine (sections 2.4.2.1 and 2.4.2.2 of MS-DTYP).
 */
module SidVocabulary {
  import opened Wrappers
  import opened Bytes
  import opened Endian
  import opened Numerals
  import opened Text
  import opened Sid
  import opened Aliases

  // --- bytes -----------------------------------------------------------

  /** The SID of an authority and sub-authorities: revision, count, six bytes high first, words low byte first, zeros. */
  ghost predicate LaidOut(s: seq<byte>, authority: nat, subs: seq<u32>) {
    && |s| == 68 && |subs| <= 15 && s[0] == 1 && s[1] as int == |subs|
    && Big(s[2..8]) == authority
    && (forall i :: 0 <= i < |subs| ==> Little(s[8 + 4 * i..12 + 4 * i]) == subs[i] as int)
    && (forall i :: 8 + 4 * |subs| <= i < 68 ==> s[i] == 0)
  }

  lemma BigOfSix(b: seq<byte>)
    requires |b| == 6
    ensures Big(b) == Word48(b)
  {
    var b5, b4, b3, b2, b1 := b[..5], b[..4], b[..3], b[..2], b[..1];
    assert b5[..4] == b4 && b4[..3] == b3 && b3[..2] == b2 && b2[..1] == b1 && b1[..0] == [];
    assert Big(b1) == b[0] as int;
    assert Big(b2) == Big(b1) * 256 + b[1] as int;
    assert Big(b3) == Big(b2) * 256 + b[2] as int;
    assert Big(b4) == Big(b3) * 256 + b[3] as int;
    assert Big(b5) == Big(b4) * 256 + b[4] as int;
  }

  lemma {:induction false} SubAt(b: seq<byte>, i: nat)
    requires |b| % 4 == 0 && i < |b| / 4
    ensures Little(b[4 * i..4 * i + 4]) == Subs(b)[i] as int
  {
    if i == 0 {
      FourAreLittle(b[..4]);
      assert Word32(b) == Word32(b[..4]) && b[0..4] == b[..4];
    } else {
      SubAt(b[4..], i - 1);
      assert b[4..][4 * (i - 1)..4 * (i - 1) + 4] == b[4 * i..4 * i + 4];
    }
  }

  /** A valid SID's bytes say its authority and its sub-authorities. */
  lemma SidIsLaidOut(s: SID)
    requires IsValid(s)
    ensures LaidOut(s, Authority(s), SubAuthorities(s))
  {
    BigOfSix(s[2..8]);
    var n := Count(s);
    var b := s[8..8 + 4 * n];
    forall i | 0 <= i < n
      ensures Little(s[8 + 4 * i..12 + 4 * i]) == SubAuthorities(s)[i] as int
    {
      SubAt(b, i);
      SliceOfSlice(s, 8, 8 + 4 * n, 4 * i, 4 * i + 4);
    }
  }

  lemma SliceOfSlice(s: seq<byte>, from: nat, to: nat, i: nat, j: nat)
    requires from <= to <= |s| && i <= j <= to - from
    ensures s[from..to][i..j] == s[from + i..from + j]
  {
    var a, b := s[from..to][i..j], s[from + i..from + j];
    forall k | 0 <= k < j - i
      ensures a[k] == b[k]
    {
      assert a[k] == s[from..to][i + k] == s[from + (i + k)];
      assert b[k] == s[from + i + k];
    }
  }

  lemma NextByte(n: nat, m: nat)
    requires m > 0
    ensures n % (m * 256) == n / 256 % m * 256 + Low(n) as int
  {
    var h := n / 256;
    var q, r := h / m, h % m;
    assert h == m * q + r && n == 256 * h + n % 256;
    assert 256 * (m * q + r) == (m * 256) * q + 256 * r;
    QuotientIsUnique(n, m * 256, q, 256 * r + n % 256);
  }

  /** Six bytes hold the low 48 bits. */
  lemma Word48OfBe48(a: nat)
    ensures Word48(Be48(a)) == a % TWO_48
  {
    var h5 := a / 256;
    var h4 := h5 / 256;
    var h3 := h4 / 256;
    var h2 := h3 / 256;
    var h1 := h2 / 256;
    assert h4 == a / 0x1_0000 && h3 == a / 0x100_0000 && h2 == a / TWO_32 && h1 == a / 0x100_0000_0000;
    NextByte(h2, 256);
    NextByte(h3, 0x1_0000);
    NextByte(h4, 0x100_0000);
    NextByte(h5, TWO_32);
    NextByte(a, 0x100_0000_0000);
    assert h1 % 256 == Low(h1) as int;
    hide Low;
  }

  lemma {:induction false} SubsOfBytes(subs: seq<u32>)
    ensures Subs(SubBytes(subs)) == subs
  {
    hide Le32, Word32;
    if subs != [] {
      var b, rest := SubBytes(subs), SubBytes(subs[1..]);
      FirstWord(subs[0], rest);
      SubsOfBytes(subs[1..]);
      assert Subs(b) == [Word32(b) as u32] + Subs(b[4..]);
    }
  }

  lemma FirstWord(x: u32, rest: seq<byte>)
    ensures var b := Le32(x as int) + rest; Word32(b) == x as int && b[4..] == rest
  {
    Word32OfLe32(x as int, rest);
  }

  /** The SID made of an authority and sub-authorities has them, but for what is above 48 bits. */
  lemma MadeOf(authority: nat, subs: seq<u32>)
    requires |subs| <= 15
    ensures var s := Make(authority, subs).value; Authority(s) == authority % TWO_48 && SubAuthorities(s) == subs
  {
    var s := Make(authority, subs).value;
    Word48OfBe48(authority);
    SubsOfBytes(subs);
    assert s[2..8] == Be48(authority) && s[8..8 + 4 * |subs|] == SubBytes(subs);
  }

  // --- text ------------------------------------------------------------

  /** The authority: decimal, or 0x and hex. */
  predicate AuthoritySays(text: string, n: nat) {
    if |text| > 2 && text[0] == '0' && (text[1] == 'x' || text[1] == 'X') then Value(text[2..], 16) == Some(n)
    else text != "" && Value(text, 10) == Some(n)
  }

  /** A sub-authority: decimal only. */
  predicate SubSays(text: string, n: u32) {
    text != "" && Value(text, 10) == Some(n as nat)
  }

  predicate SubsSay(ws: seq<string>, subs: seq<u32>) {
    |ws| == |subs| && forall i :: 0 <= i < |ws| ==> SubSays(ws[i], subs[i])
  }

  predicate NoDash(ws: seq<string>) { forall i :: 0 <= i < |ws| ==> '-' !in ws[i] }

  /** `text` is S-1, the authority and the sub-authorities of `s`. */
  ghost predicate Spells(text: string, s: SID) {
    IsValid(s) && exists a, ws :: text == "S-1-" + a + Dashed(ws) && NoDash([a] + ws)
                                  && AuthoritySays(a, Authority(s)) && SubsSay(ws, SubAuthorities(s))
  }

  lemma AuthorityIsRead(a: string, n: nat)
    ensures ParseAuthority(a) == Some(n) <==> n < TWO_48 && AuthoritySays(a, n)
  {
    hide Value;
    if |a| > 2 {
      assert a[..2] == [a[0], a[1]];
    }
  }

  lemma {:induction false} SubsAreRead(ws: seq<string>, subs: seq<u32>)
    ensures ParseSubs(ws) == Some(subs) <==> SubsSay(ws, subs)
  {
    hide Value;
    if ws != [] && subs != [] {
      SubsAreRead(ws[1..], subs[1..]);
      assert subs == [subs[0]] + subs[1..];
      assert forall i :: 0 <= i < |ws| - 1 ==> ws[1..][i] == ws[i + 1];
      assert forall i :: 0 <= i < |subs| - 1 ==> subs[1..][i] == subs[i + 1];
    }
  }

  lemma {:induction false} PiecesHoldNone<T>(s: seq<T>, sep: T)
    ensures forall i :: 0 <= i < |Split(s, sep)| ==> sep !in Split(s, sep)[i]
  {
    if s != [] {
      PiecesHoldNone(s[1..], sep);
    }
  }

  /** A text denotes the SID it spells, and nothing if it spells none. */
  lemma DenotedIsSpelled(text: string, s: SID)
    ensures Denoted(text) == Some(s) <==> Spells(text, s)
  {
    hide Value, AuthoritySays, SubsSay, Authority, SubAuthorities, Dashed;
    if Denoted(text) == Some(s) {
      SpelledBy(text, s);
    }
    if Spells(text, s) {
      var a, ws :| text == "S-1-" + a + Dashed(ws) && NoDash([a] + ws)
                   && AuthoritySays(a, Authority(s)) && SubsSay(ws, SubAuthorities(s));
      SpelledIsDenoted(a, ws, s);
    }
  }

  lemma SpelledBy(text: string, s: SID)
    requires Denoted(text) == Some(s)
    ensures Spells(text, s)
  {
    hide Value, AuthoritySays, SubsSay, Authority, SubAuthorities, Dashed, Make;
    var parts := Split(text, '-');
    var a, ws := parts[2], parts[3..];
    JoinOfSplit(text, '-');
    PiecesHoldNone(text, '-');
    assert parts == ["S", "1", a] + ws;
    TextIsJoin(a, ws);
    var authority, subs := ParseAuthority(a).value, ParseSubs(ws).value;
    AuthorityIsRead(a, authority);
    SubsAreRead(ws, subs);
    MadeOf(authority, subs);
    hide Split, ParseAuthority, ParseSubs;
    forall i | 0 <= i < |[a] + ws|
      ensures '-' !in ([a] + ws)[i]
    {
      assert ([a] + ws)[i] == parts[i + 2];
    }
  }

  lemma SpelledIsDenoted(a: string, ws: seq<string>, s: SID)
    requires IsValid(s) && NoDash([a] + ws) && AuthoritySays(a, Authority(s)) && SubsSay(ws, SubAuthorities(s))
    ensures Denoted("S-1-" + a + Dashed(ws)) == Some(s)
  {
    var parts := ["S", "1", a] + ws;
    assert parts == ["S", "1"] + ([a] + ws) && "-" == ['-'];
    TextIsJoin(a, ws);
    forall p | p in parts
      ensures '-' !in p
    {
      assert p == "S" || p == "1" || p in [a] + ws;
    }
    SplitOfJoin(parts, '-');
    AuthorityIsRead(a, Authority(s));
    SubsAreRead(ws, SubAuthorities(s));
    MakeOfComponents(s);
    assert parts[3..] == ws;
    hide AuthoritySays, SubsSay, Authority, SubAuthorities, Dashed, Make, Split, ParseAuthority, ParseSubs, Join;
  }

  /** A numeral as it is written: lower case, and no zero in front of another digit. */
  predicate Shortest(text: string, base: nat) {
    && (if base == 10 then Decimal(text) else Hex(text))
    && (text != "" && text[0] == '0' ==> text == "0")
  }

  /** The text a SID is printed as: the authority in decimal below 2^32 and in hex from there, the rest in decimal. */
  ghost predicate Canonically(text: string, s: SID) {
    IsValid(s) && exists a, ws :: text == "S-1-" + a + Dashed(ws)
                                  && AuthoritySays(a, Authority(s)) && SubsSay(ws, SubAuthorities(s))
                                  && (forall i :: 0 <= i < |ws| ==> Shortest(ws[i], 10))
                                  && if Authority(s) < 0x1_0000_0000 then Shortest(a, 10)
                                     else |a| > 2 && a[..2] == "0x" && Shortest(a[2..], 16)
  }

  lemma PrintedIsCanonical(s: SID)
    requires IsValid(s)
    ensures Canonically(Printed(s), s)
  {
    hide Digits, Value, Authority, SubAuthorities, Dashed;
    var n, subs := Authority(s), SubAuthorities(s);
    var a, ws := AuthorityText(n), SubTexts(subs);
    AuthorityPrinted(n);
    forall i | 0 <= i < |ws|
      ensures SubSays(ws[i], subs[i]) && Shortest(ws[i], 10)
    {
      ValueOfDigits(subs[i] as int, 10);
    }
    hide AuthoritySays, SubSays, Shortest, AuthorityText;
    assert Printed(s) == "S-1-" + a + Dashed(ws);
  }

  lemma AuthorityPrinted(n: nat)
    ensures var a := AuthorityText(n);
            && AuthoritySays(a, n)
            && if n < 0x1_0000_0000 then Shortest(a, 10) else |a| > 2 && a[..2] == "0x" && Shortest(a[2..], 16)
  {
    if n < 0x1_0000_0000 {
      ValueOfDigits(n, 10);
    } else {
      ValueOfDigits(n, 16);
      var a := AuthorityText(n);
      assert a[2..] == Digits(n, 16) && a[..2] == "0x";
    }
    hide Digits, Value;
  }

  // --- aliases ---------------------------------------------------------

  /** What a row of the table stands for: its SID, or one more sub-authority under the domain or the machine. */
  predicate Stands(e: Entry, o: Options, s: SID) {
    match e
    case Absolute(sid) => s == sid
    case InDomain(rid) => Under(o.domain, rid, s)
    case OnMachine(rid) => Under(o.machine, rid, s)
  }

  predicate Under(base: SID, rid: u32, s: SID) {
    && IsValid(base) && Count(base) < 15 && IsValid(s)
    && Authority(s) == Authority(base) && SubAuthorities(s) == SubAuthorities(base) + [rid]
  }

  lemma ChildIsUnder(base: SID, rid: u32, s: SID)
    ensures Child(base, rid) == Some(s) && IsValid(base) <==> Under(base, rid, s)
  {
    if Under(base, rid, s) {
      var c := Child(base, rid).value;
      MakeOfComponents(s);
      MakeOfComponents(c);
    }
    hide Authority, SubAuthorities;
  }

  /** A token that is no literal is a name of the table, and the SID its row stands for. */
  lemma AliasIsRow(o: Options, name: string, s: SID)
    requires WellFormed(o.aliases)
    ensures ResolveAlias(o, name) == Some(s)
       <==> exists i :: 0 <= i < |o.aliases| && o.aliases[i].name == name && Stands(o.aliases[i].entry, o, s)
  {
    hide Child, Under;
    var t := o.aliases;
    forall i | 0 <= i < |t| && t[i].name == name
      ensures Lookup(t, name) == Some(t[i].entry)
      ensures Relative(t[i].entry, o) == Some(s) <==> Stands(t[i].entry, o, s)
    {
      LookupOfRow(t, i);
      match t[i].entry
      case Absolute(_) =>
      case InDomain(rid) => ChildIsUnder(o.domain, rid, s);
      case OnMachine(rid) => ChildIsUnder(o.machine, rid, s);
    }
  }

  /** Of the aliases fixed to a SID the alphabetically first is shown. */
  lemma {:induction false} FirstAlias(t: seq<Alias>, s: SID, i: nat)
    requires WellFormed(t) && i < |t| && t[i].entry == Absolute(s)
    ensures AbsoluteAlias(t, s).Some? && !Before(t[i].name, AbsoluteAlias(t, s).value)
  {
    assert WellFormed(t[1..]);
    if i > 0 {
      FirstAlias(t[1..], s, i - 1);
    }
  }

  /** Fixed rows come before those under the domain, and those before the machine's. */
  function Order(e: Entry): nat {
    match e case Absolute(_) => 0 case InDomain(_) => 1 case OnMachine(_) => 2
  }

  lemma StandsIsRelative(e: Entry, o: Options, s: SID)
    ensures Relative(e, o) == Some(s) <==> Stands(e, o, s)
  {
    match e
    case Absolute(_) =>
    case InDomain(rid) => ChildIsUnder(o.domain, rid, s);
    case OnMachine(rid) => ChildIsUnder(o.machine, rid, s);
  }

  /** The rows under one base are searched to the end. */
  lemma {:induction false} RelativeFound(t: seq<Alias>, o: Options, s: SID, domain: bool)
    ensures match RelativeAlias(t, o, s, domain)
            case None => forall i :: 0 <= i < |t| && Order(t[i].entry) == (if domain then 1 else 2) ==> !Stands(t[i].entry, o, s)
            case Some(name) => exists i :: 0 <= i < |t| && t[i].name == name && Order(t[i].entry) == (if domain then 1 else 2)
                                           && Stands(t[i].entry, o, s)
  {
    hide Stands, Relative;
    if t != [] {
      StandsIsRelative(t[0].entry, o, s);
      RelativeFound(t[1..], o, s, domain);
      assert forall i :: 0 <= i < |t| - 1 ==> t[1..][i] == t[i + 1];
    }
  }

  /** Some row of rank `k` with this name stands for `s`. */
  ghost predicate Row(o: Options, name: string, s: SID, k: nat) {
    exists i :: 0 <= i < |o.aliases| && o.aliases[i].name == name && Order(o.aliases[i].entry) == k
                && Stands(o.aliases[i].entry, o, s)
  }

  /** No row of rank `k` stands for `s`. */
  ghost predicate NoRow(o: Options, s: SID, k: nat) {
    forall i :: 0 <= i < |o.aliases| && Order(o.aliases[i].entry) == k ==> !Stands(o.aliases[i].entry, o, s)
  }

  lemma FixedFound(o: Options, s: SID)
    ensures match AbsoluteAlias(o.aliases, s) case None => NoRow(o, s, 0) case Some(name) => Row(o, name, s, 0)
  {
    hide Under;
  }

  /** Under one base, which is there if any row under it stands for something. */
  lemma UnderFound(o: Options, s: SID, domain: bool)
    ensures match if IsValid(if domain then o.domain else o.machine) then RelativeAlias(o.aliases, o, s, domain) else None
            case None => NoRow(o, s, if domain then 1 else 2)
            case Some(name) => Row(o, name, s, if domain then 1 else 2)
  {
    RelativeFound(o.aliases, o, s, domain);
    NoBase(o, s);
    hide RelativeAlias, Stands;
  }

  /** A SID is shown as an alias exactly when some row stands for it: a fixed one, else the domain's, else the machine's. */
  lemma AliasIsChosen(o: Options, s: SID)
    ensures var text := FormatSid(o, s);
            || (NoRow(o, s, 0) && NoRow(o, s, 1) && NoRow(o, s, 2) && text == Printed(s))
            || Row(o, text, s, 0)
            || (NoRow(o, s, 0) && Row(o, text, s, 1))
            || (NoRow(o, s, 0) && NoRow(o, s, 1) && Row(o, text, s, 2))
  {
    hide Printed;
    hide RelativeAlias, AbsoluteAlias, Row, NoRow;
    FixedFound(o, s);
    UnderFound(o, s, true);
    UnderFound(o, s, false);
  }

  /** Without a domain, or a machine, no row under it stands for anything. */
  lemma NoBase(o: Options, s: SID)
    ensures !IsValid(o.domain) ==> forall e: Entry :: Order(e) == 1 ==> !Stands(e, o, s)
    ensures !IsValid(o.machine) ==> forall e: Entry :: Order(e) == 2 ==> !Stands(e, o, s)
  {
  }
}
