/** Whole descriptors: Parse of Format is the identity on everything Parse produces, when its text is readable. */
module SddlTheorems {
  import opened Wrappers
  import opened Sid
  import opened Aliases
  import opened SddlTables
  import opened SddlText
  import opened SddlScanning
  import opened SddlRoundTrip
  import ConditionLexer

  // --- lists -----------------------------------------------------------

  ghost predicate AllWritable(aces: seq<TextAce>) {
    forall i :: 0 <= i < |aces| ==> WritableAce(aces[i])
  }

  lemma {:induction false} AcesScan(aces: seq<TextAce>, rest: string, o: Options)
    requires WellFormed(o.aliases) && AllWritable(aces) && (rest == "" || rest[0] != '(')
    ensures ScanAces(AcesText(aces, o) + rest, o) == if AcesSafe(aces, o) then Some((aces, rest)) else None
    ensures aces == [] || (AcesText(aces, o) != "" && AcesText(aces, o)[0] == '(')
  {
    hide ScanAce, AceText, WritableAce, AceSafe, WellFormed;
    if aces == [] {
      assert AcesText(aces, o) + rest == rest;
    } else {
      var first, more := AceText(aces[0], o), AcesText(aces[1..], o);
      assert WritableAce(aces[0]);
      AcesScan(aces[1..], rest, o);
      AceScans(aces[0], more + rest, o);
      assert AcesText(aces, o) + rest == first + (more + rest);
      SafeSplit(aces, o);
      assert aces == [aces[0]] + aces[1..];
      hide AcesSafe;
    }
  }

  lemma SafeSplit(aces: seq<TextAce>, o: Options)
    requires aces != []
    ensures AcesSafe(aces, o) <==> AceSafe(aces[0], o) && AcesSafe(aces[1..], o)
  {
    hide AceSafe;
    if AcesSafe(aces[1..], o) && AceSafe(aces[0], o) {
      forall i | 0 <= i < |aces| ensures AceSafe(aces[i], o) {
        assert i > 0 ==> aces[i] == aces[1..][i - 1];
      }
    }
  }

  /** What may follow an ACL in rendered text. */
  predicate EndsAcl(rest: string) {
    rest == "" || (|rest| > 1 && rest[0] == 'S' && rest[1] == ':')
  }

  lemma AclScans(l: TextAcl, rest: string, o: Options)
    requires WellFormed(o.aliases) && WritableAcl(l) && EndsAcl(rest)
    ensures ScanAcl(AclBody(l, o) + rest, o) == if AclSafe(l, o) then Some((l, rest)) else None
  {
    hide FlagRun, ReadAclFlags, Raised, ScanAces, Run, AcesText, WritableAce, AcesSafe, WellFormed, NullWord;
    var isNull := l.aces.None?;
    var run := Run(l.protected, l.requested, l.inherited, isNull);
    var tail := if isNull then rest else AcesText(l.aces.value, o) + rest;
    if !isNull {
      AcesScan(l.aces.value, rest, o);
      NoAcesText(o);
    }
    RunStops(tail);
    RunScans(l.protected, l.requested, l.inherited, isNull, tail);
    SectionLayout(l, rest, o);
    assert (run + tail)[|run|..] == tail;
  }

  lemma NoAcesText(o: Options)
    ensures AcesText([], o) == ""
  {
  }

  lemma SectionLayout(l: TextAcl, rest: string, o: Options)
    ensures AclBody(l, o) + rest
         == Run(l.protected, l.requested, l.inherited, l.aces.None?) + (if l.aces.None? then rest else AcesText(l.aces.value, o) + rest)
  {
    hide AcesText, AclFlagsText, NullWord;
    var flags := AclFlagsText(l.protected, l.requested, l.inherited);
    match l.aces {
      case None =>
      case Some(aces) =>
        assert flags + "" == flags;
        assert flags + AcesText(aces, o) + rest == flags + (AcesText(aces, o) + rest);
    }
  }

  lemma RunStops(tail: string)
    requires EndsAcl(tail) || tail[0] == '('
    ensures FlagRun(tail) == Some(0) && (tail == "" || tail[0] != ':')
  {
  }

  // --- components ------------------------------------------------------

  lemma OwnerScans(sid: SID, rest: string, t: Tree, seen: Seen, o: Options)
    requires WellFormed(o.aliases) && IsValid(sid) && EndsSid(rest) && !seen.owner
    requires !(HexEnded(sid) && AliasOf(o, sid).None? && rest != "" && rest[0] == 'D')
    ensures ScanParts(SidPart('O', sid, o) + rest, o, t, seen) == ScanParts(rest, o, t.(owner := sid), seen.(owner := true))
  {
    hide ScanSid, FormatSid, AliasOf, WellFormed;
    SidScans(sid, o, rest);
    TagLayout('O', FormatSid(o, sid), rest);
  }

  lemma GroupScans(sid: SID, rest: string, t: Tree, seen: Seen, o: Options)
    requires WellFormed(o.aliases) && IsValid(sid) && EndsSid(rest) && !seen.group
    requires !(HexEnded(sid) && AliasOf(o, sid).None? && rest != "" && rest[0] == 'D')
    ensures ScanParts(SidPart('G', sid, o) + rest, o, t, seen) == ScanParts(rest, o, t.(group := sid), seen.(group := true))
  {
    hide ScanSid, FormatSid, AliasOf, WellFormed;
    SidScans(sid, o, rest);
    TagLayout('G', FormatSid(o, sid), rest);
  }

  lemma TagLayout(tag: char, body: string, rest: string)
    ensures var s := [tag, ':'] + body + rest; |s| >= 2 && s[0] == tag && s[1] == ':' && s[2..] == body + rest
  {
  }

  lemma DaclScans(l: TextAcl, rest: string, t: Tree, seen: Seen, o: Options)
    requires WellFormed(o.aliases) && WritableAcl(l) && EndsAcl(rest) && !seen.dacl
    ensures ScanParts(['D', ':'] + AclBody(l, o) + rest, o, t, seen)
         == if AclSafe(l, o) then ScanParts(rest, o, t.(dacl := l), seen.(dacl := true)) else None
  {
    hide ScanAcl, AclBody, WritableAcl, AclSafe, WellFormed;
    AclScans(l, rest, o);
    TagLayout('D', AclBody(l, o), rest);
  }

  lemma SaclScans(l: TextAcl, t: Tree, seen: Seen, o: Options)
    requires WellFormed(o.aliases) && WritableAcl(l) && !seen.sacl
    ensures ScanParts(['S', ':'] + AclBody(l, o), o, t, seen) == if AclSafe(l, o) then Some(t.(sacl := l)) else None
  {
    hide ScanAcl, AclBody, WritableAcl, AclSafe, WellFormed;
    var s := ['S', ':'] + AclBody(l, o);
    AclScans(l, "", o);
    assert AclBody(l, o) + "" == AclBody(l, o) && s[2..] == AclBody(l, o);
  }

  /** The two list sections. */
  function Lists(t: Tree, o: Options): string { SectionText('D', t.dacl, o) + SectionText('S', t.sacl, o) }

  lemma ListsStart(t: Tree, o: Options)
    ensures Lists(t, o) == "" <==> t.dacl == NULL_ACL && t.sacl == NULL_ACL
    ensures t.dacl != NULL_ACL ==> Lists(t, o)[0] == 'D'
    ensures t.dacl == NULL_ACL && t.sacl != NULL_ACL ==> Lists(t, o)[0] == 'S'
  {
    hide AclBody;
  }

  /** The list sections are read back, after whatever has been read of the rest. */
  lemma ListsScan(t: Tree, seen: Seen, o: Options)
    requires WellFormed(o.aliases) && Writable(t) && !seen.dacl && !seen.sacl
    ensures ScanParts(Lists(t, o), o, t.(dacl := NULL_ACL, sacl := NULL_ACL), seen) == if TreeSafe(t, o) then Some(t) else None
  {
    NullIsSafe(o);
    hide ScanParts, AclBody, WritableAcl, AclSafe, WellFormed;
    var start := t.(dacl := NULL_ACL, sacl := NULL_ACL);
    var mid, seenMid := start.(dacl := t.dacl), if t.dacl == NULL_ACL then seen else seen.(dacl := true);
    var s := SectionText('S', t.sacl, o);
    if t.dacl != NULL_ACL {
      DaclScans(t.dacl, s, start, seen, o);
    } else {
      assert "" + s == s;
    }
    if t.sacl != NULL_ACL {
      SaclScans(t.sacl, mid, seenMid, o);
    } else {
      NothingLeft(mid, seenMid, o);
    }
  }

  lemma NullIsSafe(o: Options)
    ensures AclSafe(NULL_ACL, o)
  {
  }

  lemma NothingLeft(t: Tree, seen: Seen, o: Options)
    ensures ScanParts("", o, t, seen) == Some(t)
  {
  }

  // --- the exception ---------------------------------------------------

  /** The last SID before the list sections. */
  function LastSid(t: Tree): SID { if IsValid(t.group) then t.group else t.owner }

  /**
   Whether the scanner takes the D of a D: section for a digit: the SID before it is written as a bare hex number,
   that is, it has no alias, no sub-authorities and an authority of more than 32 bits.
   */
  predicate Swallowed(t: Tree, o: Options) {
    t.dacl != NULL_ACL && HexEnded(LastSid(t)) && AliasOf(o, LastSid(t)).None?
  }

  lemma BadTail(rest: string, t: Tree, seen: Seen, o: Options)
    requires rest != "" && (|rest| < 2 || rest[1] != ':')
    ensures ScanParts(rest, o, t, seen) == None
  {
  }

  lemma BodyStart(l: TextAcl, o: Options)
    ensures var b := AclBody(l, o); b == "" || b[0] != ':'
  {
    hide NullWord, AceText;
    if l.aces.Some? && l.aces.value != [] {
      ClauseStart(l.aces.value[0], o);
    }
  }

  lemma ClauseStart(a: TextAce, o: Options)
    ensures AceText(a, o) != "" && AceText(a, o)[0] == '('
  {
    hide FlagsText, MaskText, GuidFieldText, FormatSid, CondText, TagText;
    ClauseLayout(TagText(a.kind), a.flags, a.mask, a.objectType, a.inheritedType, FormatSid(o, a.sid), CondText(a.cond, o));
  }

  /** After the swallowed D a colon is at the front, and no component starts like that. */
  lemma AfterSwallow(t: Tree, o: Options)
    requires t.dacl != NULL_ACL
    ensures var rest := Lists(t, o)[1..]; Lists(t, o) == "D" + rest && rest[0] == ':' && (|rest| < 2 || rest[1] != ':')
  {
    hide AclBody;
    BodyStart(t.dacl, o);
    var d, s := AclBody(t.dacl, o), SectionText('S', t.sacl, o);
    assert Lists(t, o)[1..] == ":" + (d + s);
  }

  lemma SwallowScan(sid: SID, rest: string, o: Options)
    requires HexEnded(sid) && AliasOf(o, sid).None? && rest != "" && rest[0] == ':'
    ensures var r := ScanSid(FormatSid(o, sid) + "D" + rest, o); r.Some? ==> r.value.1 == rest
  {
    HexSwallows(sid, o, rest);
    SwallowedSplit(FormatSid(o, sid), rest);
    hide FormatSid, AliasOf, HexEnded, SidSize, ParseSidText;
  }

  lemma SwallowFails(tag: char, sid: SID, tree: Tree, t: Tree, seen: Seen, o: Options)
    requires tag == 'O' || tag == 'G'
    requires HexEnded(sid) && AliasOf(o, sid).None? && tree.dacl != NULL_ACL
    ensures ScanParts(SidPart(tag, sid, o) + Lists(tree, o), o, t, seen) == None
  {
    AfterSwallow(tree, o);
    var text, rest := FormatSid(o, sid), Lists(tree, o)[1..];
    SwallowScan(sid, rest, o);
    hide Lists, FormatSid, AliasOf, HexEnded, ScanSid, ScanParts;
    TagLayout(tag, text, Lists(tree, o));
    assert text + Lists(tree, o) == text + "D" + rest;
    SwallowedPart(SidPart(tag, sid, o) + Lists(tree, o), text + "D" + rest, rest, t, seen, o);
  }

  lemma SwallowedPart(whole: string, s: string, rest: string, t: Tree, seen: Seen, o: Options)
    requires |whole| >= 2 && (whole[0] == 'O' || whole[0] == 'G') && whole[1] == ':' && whole[2..] == s
    requires rest != "" && (|rest| < 2 || rest[1] != ':') && (ScanSid(s, o).Some? ==> ScanSid(s, o).value.1 == rest)
    ensures ScanParts(whole, o, t, seen) == None
  {
    hide ScanSid;
    if ScanSid(s, o).Some? {
      var got := ScanSid(s, o).value.0;
      BadTail(rest, t.(owner := got), seen.(owner := true), o);
      BadTail(rest, t.(group := got), seen.(group := true), o);
    }
  }

  lemma SwallowedSplit(text: string, rest: string)
    ensures (text + "D" + rest)[|text| + 1..] == rest
  {
  }

  // --- whole texts -----------------------------------------------------

  /** The parts of a text, before an empty one is replaced. */
  function PartsText(t: Tree, o: Options): string {
    SidPart('O', t.owner, o) + (SidPart('G', t.group, o) + Lists(t, o))
  }

  /** The condition under which rendered text is read back. */
  predicate Readable(t: Tree, o: Options) { TreeSafe(t, o) && !Swallowed(t, o) }

  /** Rendered components are read back as the tree they came from, or not at all. */
  lemma PartsScan(t: Tree, o: Options)
    requires WellFormed(o.aliases) && Writable(t)
    ensures ScanParts(PartsText(t, o), o, EMPTY, NOTHING) == if Readable(t, o) then Some(t) else None
  {
    hide ScanParts, Lists, Writable, TreeSafe, WellFormed, AliasOf, HexEnded;
    ListsStart(t, o);
    var lists := Lists(t, o);
    var own := EMPTY.(owner := t.owner);
    var seenOwn := NOTHING.(owner := IsValid(t.owner));
    var tail := SidPart('G', t.group, o) + lists;
    OwnerPart(t, o);
    if IsValid(t.group) {
      if Swallowed(t, o) {
        SwallowFails('G', t.group, t, own, seenOwn, o);
      } else {
        GroupScans(t.group, lists, own, seenOwn, o);
        ListsScan(t, seenOwn.(group := true), o);
      }
    } else if !Swallowed(t, o) {
      assert t.group == NO_SID && tail == lists;
      ListsScan(t, seenOwn, o);
    }
  }

  /** The owner: gone when its D is swallowed, else read. */
  lemma OwnerPart(t: Tree, o: Options)
    requires WellFormed(o.aliases)
    ensures var tail := SidPart('G', t.group, o) + Lists(t, o);
            ScanParts(PartsText(t, o), o, EMPTY, NOTHING)
            == if IsValid(t.owner) && !IsValid(t.group) && Swallowed(t, o) then None
               else ScanParts(tail, o, EMPTY.(owner := t.owner), NOTHING.(owner := IsValid(t.owner)))
  {
    hide ScanParts, Lists, WellFormed, AliasOf, HexEnded, FormatSid;
    ListsStart(t, o);
    var tail := SidPart('G', t.group, o) + Lists(t, o);
    if !IsValid(t.owner) {
      assert t.owner == NO_SID;
      assert "" + tail == tail;
    } else if !IsValid(t.group) && Swallowed(t, o) {
      assert tail == Lists(t, o);
      SwallowFails('O', t.owner, t, EMPTY, NOTHING, o);
    } else {
      if !IsValid(t.group) {
        assert tail == Lists(t, o);
      }
      OwnerScans(t.owner, tail, EMPTY, NOTHING, o);
    }
  }

  // --- white space -----------------------------------------------------

  /** Text that does not end in white space. */
  predicate Solid(s: string) { s != "" && !IsSpace(s[|s| - 1]) }

  lemma SolidEnd(a: string, b: string)
    requires Solid(b)
    ensures Solid(a + b)
  {
    assert (a + b)[|a + b| - 1] == b[|b| - 1];
  }

  lemma RunIsSolid(run: string)
    requires run != "" && ConditionLexer.All(run, RaisedChar)
    ensures Solid(run)
  {
  }

  lemma {:induction false} AcesAreSolid(aces: seq<TextAce>, o: Options)
    requires aces != []
    ensures Solid(AcesText(aces, o))
  {
    hide AceText, Solid;
    AceIsSolid(aces[0], o);
    if |aces| == 1 {
      NoAcesText(o);
      assert AceText(aces[0], o) + "" == AceText(aces[0], o);
    } else {
      AcesAreSolid(aces[1..], o);
      SolidEnd(AceText(aces[0], o), AcesText(aces[1..], o));
    }
  }

  lemma AceIsSolid(a: TextAce, o: Options)
    ensures Solid(AceText(a, o))
  {
    hide FlagsText, MaskText, GuidFieldText, FormatSid, CondText, TagText, ClauseBody;
    ClauseLayout(TagText(a.kind), a.flags, a.mask, a.objectType, a.inheritedType, FormatSid(o, a.sid), CondText(a.cond, o));
    Closed(ClauseBody(TagText(a.kind), FlagsText(a.flags), MaskText(a.mask), GuidFieldText(a.objectType),
                      GuidFieldText(a.inheritedType), FormatSid(o, a.sid)) + CondText(a.cond, o));
  }

  lemma Closed(s: string)
    ensures Solid("(" + s + ")")
  {
    var t := "(" + s + ")";
    assert t[|t| - 1] == ')';
  }

  lemma SectionIsSolid(tag: char, l: TextAcl, o: Options)
    requires l != NULL_ACL
    ensures Solid(SectionText(tag, l, o))
  {
    hide Solid, Run, AcesText, NullWord;
    var run := Run(l.protected, l.requested, l.inherited, l.aces.None?);
    RunIsRaised(l.protected, l.requested, l.inherited, l.aces.None?);
    SectionLayout(l, "", o);
    assert AclBody(l, o) + "" == AclBody(l, o);
    if l.aces.Some? && l.aces.value != [] {
      AcesAreSolid(l.aces.value, o);
      assert AcesText(l.aces.value, o) + "" == AcesText(l.aces.value, o);
      SolidEnd(run, AcesText(l.aces.value, o));
      SolidEnd([tag, ':'], AclBody(l, o));
    } else {
      NoAcesText(o);
      assert AclBody(l, o) == run;
      if run == "" {
        Colon(tag);
      } else {
        RunIsSolid(run);
        SolidEnd([tag, ':'], run);
      }
    }
  }

  lemma Colon(tag: char)
    ensures Solid([tag, ':'] + "")
  {
    assert [tag, ':'] + "" == [tag, ':'];
  }

  lemma SidIsSolid(tag: char, sid: SID, o: Options)
    requires WellFormed(o.aliases) && IsValid(sid)
    ensures Solid(SidPart(tag, sid, o))
  {
    FormatIsSidText(o, sid);
    SidIsPlain(sid, o);
    hide FormatSid;
    assert Solid(FormatSid(o, sid));
    SolidEnd([tag, ':'], FormatSid(o, sid));
  }

  lemma ListsAreSolid(t: Tree, o: Options)
    requires Lists(t, o) != ""
    ensures Solid(Lists(t, o))
  {
    hide AclBody, Solid;
    if t.sacl != NULL_ACL {
      SectionIsSolid('S', t.sacl, o);
      SolidEnd(SectionText('D', t.dacl, o), SectionText('S', t.sacl, o));
    } else {
      SectionIsSolid('D', t.dacl, o);
      assert SectionText('D', t.dacl, o) + "" == SectionText('D', t.dacl, o);
    }
  }

  /** Rendered text has no white space at its ends. */
  lemma PartsAreTrim(t: Tree, o: Options)
    requires WellFormed(o.aliases) && PartsText(t, o) != ""
    ensures Solid(PartsText(t, o)) && !IsSpace(PartsText(t, o)[0])
  {
    hide Lists, Solid, FormatSid, WellFormed;
    ListsStart(t, o);
    var lists := Lists(t, o);
    var g := SidPart('G', t.group, o) + lists;
    if lists != "" {
      ListsAreSolid(t, o);
      SolidEnd(SidPart('G', t.group, o), lists);
      SolidEnd(SidPart('O', t.owner, o), g);
    } else if IsValid(t.group) {
      SidIsSolid('G', t.group, o);
      assert g == SidPart('G', t.group, o);
      SolidEnd(SidPart('O', t.owner, o), g);
    } else {
      SidIsSolid('O', t.owner, o);
      assert PartsText(t, o) == SidPart('O', t.owner, o);
    }
  }

  lemma TrimOfSolid(s: string)
    requires Solid(s) && !IsSpace(s[0])
    ensures TrimRight(TrimLeft(s)) == s
  {
  }

  // --- the round trip --------------------------------------------------

  lemma PartsRegroup(t: Tree, o: Options)
    ensures TreeText(t, o) == OrNull(PartsText(t, o))
  {
    hide SectionText, FormatSid, OrNull;
    Regroup(SidPart('O', t.owner, o), SidPart('G', t.group, o), SectionText('D', t.dacl, o), SectionText('S', t.sacl, o));
  }

  lemma Regroup(a: string, b: string, c: string, d: string)
    ensures a + b + c + d == a + (b + (c + d))
  {
  }

  /** The text of the empty tree names the NULL DACL, and reads as the empty tree. */
  lemma NullReads(o: Options)
    ensures TreeOf("D:" + NullWord(), o) == Some(EMPTY)
  {
    hide NullWord, FlagRun, ReadAclFlags, Raised, Run, ScanAces;
    var s := "D:" + NullWord();
    RunStops("");
    RunScans(false, false, false, true, "");
    assert Run(false, false, false, true) == NullWord() by { NullRun(); }
    assert NullWord() + "" == NullWord() && s[2..] == NullWord();
    assert ScanAcl(NullWord(), o) == Some((NULL_ACL, ""));
    NothingLeft(EMPTY, NOTHING.(dacl := true), o);
    assert TrimRight(TrimLeft(s)) == s by {
      assert s[|s| - 1] == NullWord()[16];
      TrimOfSolid(s);
    }
  }

  lemma NullRun()
    ensures Run(false, false, false, true) == NullWord()
  {
    hide NullWord;
    assert "" + NullWord() == NullWord();
  }

  /** A rendered tree is read back as itself, or not at all. */
  lemma TreeReadsBack(t: Tree, o: Options)
    requires WellFormed(o.aliases) && Writable(t)
    ensures TreeOf(TreeText(t, o), o) == if Readable(t, o) then Some(t) else None
  {
    hide ScanParts, PartsText, TreeText, Readable, Writable, WellFormed, Solid, NullWord;
    PartsRegroup(t, o);
    PartsScan(t, o);
    if PartsText(t, o) == "" {
      NothingToWrite(t, o);
      EmptyIsReadable(o);
      NullReads(o);
    } else {
      PartsAreTrim(t, o);
      TrimOfSolid(PartsText(t, o));
    }
  }

  lemma EmptyIsReadable(o: Options)
    ensures Readable(EMPTY, o)
  {
  }

  lemma NothingToWrite(t: Tree, o: Options)
    requires PartsText(t, o) == ""
    ensures t == EMPTY
  {
    ListsStart(t, o);
  }
}
