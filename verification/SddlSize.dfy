/** The round trip of descriptors through text needs no more than an input of under 2^28 characters. */
module SddlSize {
  import opened Wrappers
  import opened Bytes
  import opened Aliases
  import opened SddlTables
  import opened SddlText
  import opened SddlRoundTrip
  import opened SddlTheorems
  import opened SddlDescriptors
  import ConditionParser
  import ConditionRoundTrip
  import ConditionSize
  import Conditions

  const SHORT := 0x1000_0000

  lemma {:induction false} FieldsAreShort(s: string, depth: int)
    ensures forall i :: 0 <= i < |Fields(s, depth)| ==> |Fields(s, depth)[i]| <= |s|
  {
    if s != "" {
      FieldsAreShort(s[1..], depth + Nesting(s[0]));
    }
  }

  lemma ShortConditionTextFits(s: string, o: Options)
    requires WellFormed(o.aliases) && |s| < SHORT && ConditionParser.ParseConditionText(s, o).Some?
    ensures Conditions.ConditionFits(ConditionParser.ParseConditionText(s, o).value)
  {
    hide ConditionParser.ParseConditionText, WellFormed, Conditions.ConditionFits, Conditions.Code, ConditionRoundTrip.PrintableCondition;
    ConditionSize.CompiledSize(s, o);
    ConditionRoundTrip.ParsedTextIsPrintable(s, o);
    ConditionSize.ShortConditionFits(ConditionParser.ParseConditionText(s, o).value);
  }

  lemma FieldsFit(kind: byte, fs: seq<string>, o: Options)
    requires WellFormed(o.aliases) && |fs| == (if IsCallback(kind) then 7 else 6) && AceOfFields(kind, fs, o).Some?
    requires IsCallback(kind) ==> |fs[6]| < SHORT
    ensures AceFits(AceOfFields(kind, fs, o).value)
  {
    hide FlagsOfText, MaskOfText, GuidField, ParseSidText, ConditionParser.ParseConditionText, WellFormed, Conditions.ConditionFits;
    if IsCallback(kind) {
      ShortConditionTextFits(fs[6], o);
    }
  }

  lemma ShortBodyFits(body: string, o: Options)
    requires WellFormed(o.aliases) && |body| < SHORT && ParseAce(body, o).Some?
    ensures AceFits(ParseAce(body, o).value)
  {
    hide Fields, TypeOfTag, AceOfFields, AceFits, WellFormed;
    var fs := Fields(body, 0);
    FieldsAreShort(body, 0);
    FieldsFit(TypeOfTag(fs[0]).value, fs, o);
  }

  lemma ShortAceFits(s: string, o: Options)
    requires WellFormed(o.aliases) && |s| < SHORT && s != "" && s[0] == '(' && ScanAce(s, o).Some?
    ensures AceFits(ScanAce(s, o).value.0)
  {
    hide ParseAce, AceFits, WellFormed;
    ShortBodyFits(s[1..CloseAt(s, 0).value], o);
  }

  lemma {:induction false} ShortAcesFit(s: string, o: Options)
    requires WellFormed(o.aliases) && |s| < SHORT && ScanAces(s, o).Some?
    ensures forall i :: 0 <= i < |ScanAces(s, o).value.0| ==> AceFits(ScanAces(s, o).value.0[i])
    decreases |s|
  {
    hide ScanAce, AceFits, WellFormed;
    if s != "" && s[0] == '(' {
      ShortAceFits(s, o);
      ShortAcesFit(ScanAce(s, o).value.1, o);
    }
  }

  lemma ShortAclFits(s: string, o: Options)
    requires WellFormed(o.aliases) && |s| < SHORT && ScanAcl(s, o).Some?
    ensures AclFits(ScanAcl(s, o).value.0)
  {
    hide FlagRun, ReadAclFlags, Raised, ScanAces, AceFits, WellFormed;
    var n := FlagRun(s).value;
    if ScanAces(s[n..], o).Some? {
      ShortAcesFit(s[n..], o);
    }
  }

  lemma {:induction false} ShortPartsFit(s: string, o: Options, t: Tree, seen: Seen)
    requires WellFormed(o.aliases) && |s| < SHORT && TreeFits(t) && ScanParts(s, o, t, seen).Some?
    ensures TreeFits(ScanParts(s, o, t, seen).value)
    decreases |s|
  {
    hide ScanSid, ScanAcl, AclFits, WellFormed;
    if s != "" {
      if s[0] == 'O' {
        var (sid, rest) := ScanSid(s[2..], o).value;
        ShortPartsFit(rest, o, t.(owner := sid), seen.(owner := true));
      } else if s[0] == 'G' {
        var (sid, rest) := ScanSid(s[2..], o).value;
        ShortPartsFit(rest, o, t.(group := sid), seen.(group := true));
      } else if s[0] == 'D' {
        var (acl, rest) := ScanAcl(s[2..], o).value;
        ShortAclFits(s[2..], o);
        ShortPartsFit(rest, o, t.(dacl := acl), seen.(dacl := true));
      } else {
        var (acl, rest) := ScanAcl(s[2..], o).value;
        ShortAclFits(s[2..], o);
        ShortPartsFit(rest, o, t.(sacl := acl), seen.(sacl := true));
      }
    }
  }

  lemma {:induction false} TrimShortens(s: string)
    ensures |TrimLeft(s)| <= |s| && |TrimRight(s)| <= |s|
    decreases |s|
  {
    if s != "" {
      TrimShortens(s[1..]);
      TrimShortens(s[..|s| - 1]);
    }
  }

  /** Every condition in a short text fits. */
  lemma ShortTextFits(s: string, o: Options)
    requires WellFormed(o.aliases) && |s| < SHORT && TreeOf(s, o).Some?
    ensures TreeFits(TreeOf(s, o).value)
  {
    hide ScanParts, TrimLeft, TrimRight, WellFormed;
    TrimShortens(s);
    TrimShortens(TrimLeft(s));
    ShortPartsFit(TrimRight(TrimLeft(s)), o, EMPTY, NOTHING);
  }

  /** The round trip of descriptors, for every accepted text of under 2^28 characters. */
  lemma ShortTextRoundTrip(s: string, o: Options)
    requires WellFormed(o.aliases) && |s| < SHORT && SddlText.Parse(s, o).Some?
    ensures var d, text := SddlText.Parse(s, o).value, Format(SddlText.Parse(s, o).value, o);
            && text.Some?
            && (SddlText.Parse(text.value, o) == Some(d) <==> Readable(TreeOf(s, o).value, o))
            && (SddlText.Parse(text.value, o).Some? ==> SddlText.Parse(text.value, o) == Some(d))
  {
    hide TreeOf, Format, Build, TreeText, Readable, TreeFits, WellFormed;
    ShortTextFits(s, o);
    ParseFormatParse(s, o);
  }
}
