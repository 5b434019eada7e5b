/**
 The grammar of SDDL text, apart from any scanner (sddl/parse.go; section 2.5.1.1 of MS-DTYP): components in any order
 and none twice, flag words in any order and either case, ACEs between matching parentheses, fields between the
 semicolons outside them. Parse accepts exactly the texts of the grammar, and gives what their parts say.
 */
module SddlGrammar {
  import opened Wrappers
  import opened Bytes
  import opened Sid
  import opened Aliases
  import opened SddlTables
  import opened SddlText
  import opened SddlScanning
  import ConditionLexer
  import ConditionParser

  // --- flag words ------------------------------------------------------

  datatype FlagWord = Protected | Requested | Inherited | NoAccessControl

  function Spelling(w: FlagWord): string {
    match w
    case Protected => "P"
    case Requested => "AR"
    case Inherited => "AI"
    case NoAccessControl => NullWord()
  }

  function Spellings(ws: seq<FlagWord>): string {
    if ws == [] then "" else Spelling(ws[0]) + Spellings(ws[1..])
  }

  /** At most one word of a run is the NULL ACL. */
  predicate NullOnce(ws: seq<FlagWord>) {
    forall i, j :: 0 <= i < j < |ws| && ws[i] == NoAccessControl ==> ws[j] != NoAccessControl
  }

  function Adding(f: AclFlags, ws: seq<FlagWord>): AclFlags {
    AclFlags(f.protected || Protected in ws, f.requested || Requested in ws, f.inherited || Inherited in ws,
             f.isNull || NoAccessControl in ws)
  }

  lemma NextWord(f: AclFlags, w: FlagWord, rest: string)
    requires f.isNull ==> w != NoAccessControl
    ensures ReadAclFlags(f, Spelling(w) + rest) == ReadAclFlags(Adding(f, [w]), rest)
  {
    var s := Spelling(w) + rest;
    match w
    case Protected =>
      NotNull('P', rest);
      assert s[1..] == rest;
    case Requested =>
      NotNull('A', ['R'] + rest);
      assert s == ['A'] + (['R'] + rest) && s[2..] == rest;
    case Inherited =>
      NotNull('A', ['I'] + rest);
      assert s == ['A'] + (['I'] + rest) && s[2..] == rest;
    case NoAccessControl =>
      assert NullWord() <= s && s[17..] == rest;
  }

  lemma NullTwice(f: AclFlags, rest: string)
    requires f.isNull
    ensures ReadAclFlags(f, NullWord() + rest) == None
  {
    assert NullWord() <= NullWord() + rest;
  }

  /** What a run of words comes to, after flags `f`. */
  function Raising(f: AclFlags, ws: seq<FlagWord>): Option<AclFlags> {
    if NullOnce(ws) && !(f.isNull && NoAccessControl in ws) then Some(Adding(f, ws)) else None
  }

  lemma RaisingNext(f: AclFlags, ws: seq<FlagWord>)
    requires ws != []
    ensures Raising(f, ws)
         == if f.isNull && ws[0] == NoAccessControl then None else Raising(Adding(f, [ws[0]]), ws[1..])
  {
    var w, more := ws[0], ws[1..];
    assert ws == [w] + more;
    assert forall v :: v in ws <==> v == w || v in more;
    assert NullOnce(ws) <==> NullOnce(more) && !(w == NoAccessControl && NoAccessControl in more) by {
      if NullOnce(ws) {
        assert forall i, j :: 0 <= i < j < |more| ==> ws[i + 1] == more[i] && ws[j + 1] == more[j];
      }
    }
  }

  /** A run of words raises the flags it names, whatever their order; the NULL ACL can be named once only. */
  lemma {:induction false} WordsAreRead(f: AclFlags, ws: seq<FlagWord>)
    ensures ReadAclFlags(f, Spellings(ws)) == Raising(f, ws)
    decreases ws
  {
    hide ReadAclFlags, Spelling, Raising, Adding;
    if ws == [] {
      NoWords(f);
    } else {
      RaisingNext(f, ws);
      if f.isNull && ws[0] == NoAccessControl {
        NullSpelling();
        NullTwice(f, Spellings(ws[1..]));
      } else {
        NextWord(f, ws[0], Spellings(ws[1..]));
        WordsAreRead(Adding(f, [ws[0]]), ws[1..]);
      }
    }
  }

  lemma NullSpelling()
    ensures Spelling(NoAccessControl) == NullWord()
  {
  }

  lemma NoWords(f: AclFlags)
    ensures ReadAclFlags(f, "") == Raising(f, [])
  {
  }

  lemma OneWord(f: AclFlags, s: string) returns (w: FlagWord, rest: string)
    requires s != "" && ReadAclFlags(f, s).Some?
    ensures s == Spelling(w) + rest && ReadAclFlags(f, s) == ReadAclFlags(Adding(f, [w]), rest)
  {
    if NullWord() <= s {
      w, rest := NoAccessControl, s[17..];
    } else if s[0] == 'P' {
      w, rest := Protected, s[1..];
    } else if s[1] == 'I' {
      w, rest := Inherited, s[2..];
    } else {
      w, rest := Requested, s[2..];
    }
  }

  /** And nothing but such words is read. */
  lemma {:induction false} ReadIsWords(f: AclFlags, s: string) returns (ws: seq<FlagWord>)
    requires ReadAclFlags(f, s).Some?
    ensures s == Spellings(ws)
    decreases |s|
  {
    hide ReadAclFlags, Adding;
    ws := [];
    if s != "" {
      var w, rest := OneWord(f, s);
      var more := ReadIsWords(Adding(f, [w]), rest);
      ws := [w] + more;
    }
  }

  // Letters in either case.

  predicate SameLetter(c: char, upper: char) {
    c == upper || ('A' <= upper <= 'Z' && c == upper - 'A' + 'a')
  }

  /** `run` is `words`, in any mixture of cases. */
  predicate SameLetters(run: string, words: string) {
    |run| == |words| && forall i :: 0 <= i < |run| ==> SameLetter(run[i], words[i])
  }

  lemma {:induction false} RaisedLetters(run: string, words: string)
    requires ConditionLexer.All(words, RaisedChar)
    ensures SameLetters(run, words) ==> Raised(run) == words && ConditionLexer.All(run, FlagChar)
    ensures ConditionLexer.All(run, FlagChar) && Raised(run) == words ==> SameLetters(run, words)
  {
    if run != "" && words != "" {
      RaisedLetters(run[1..], words[1..]);
      assert words == [words[0]] + words[1..];
    }
  }

  lemma {:induction false} SpellingsAreRaised(ws: seq<FlagWord>)
    ensures ConditionLexer.All(Spellings(ws), RaisedChar)
  {
    if ws != [] {
      SpellingsAreRaised(ws[1..]);
    }
  }

  // --- parentheses -----------------------------------------------------

  /** How many parentheses `s` leaves open. */
  function Open(s: string): int { multiset(s)['('] as int - multiset(s)[')'] as int }

  lemma OpenOfJoin(a: string, b: string)
    ensures Open(a + b) == Open(a) + Open(b)
  {
    assert multiset(a + b) == multiset(a) + multiset(b);
  }

  lemma OpenOfFirst(s: string)
    requires s != ""
    ensures Open(s) == Nesting(s[0]) + Open(s[1..])
  {
    assert s == [s[0]] + s[1..];
    OpenOfJoin([s[0]], s[1..]);
  }

  /** Every parenthesis in `s` matches another one in it. */
  ghost predicate Matched(s: string) {
    Open(s) == 0 && forall i :: 0 <= i <= |s| ==> Open(s[..i]) >= 0
  }

  /** `s` closes none of the `depth` parentheses open before it all the way. */
  ghost predicate StaysOpen(s: string, depth: int) {
    forall i :: 0 <= i <= |s| ==> depth + Open(s[..i]) > 0
  }

  lemma StaysOpenNext(s: string, depth: int)
    requires s != "" && depth > 0
    ensures StaysOpen(s, depth) <==> StaysOpen(s[1..], depth + Nesting(s[0]))
  {
    var t, next := s[1..], depth + Nesting(s[0]);
    forall i | 0 <= i <= |t|
      ensures next + Open(t[..i]) == depth + Open(s[..i + 1])
    {
      OpenOfFirst(s[..i + 1]);
      assert s[..i + 1][1..] == t[..i];
    }
    assert s[..0] == "";
    if StaysOpen(t, next) {
      forall i | 0 <= i <= |s|
        ensures depth + Open(s[..i]) > 0
      {
        if i > 0 {
          assert next + Open(t[..i - 1]) > 0;
        }
      }
    }
  }

  /** A parenthesis is closed at the first place where as many are closed as were opened. */
  lemma {:induction false} ClosesAfter(s: string, rest: string, depth: int)
    requires depth > 0
    ensures CloseAt(s + [')'] + rest, depth) == Some(|s|) <==> StaysOpen(s, depth) && depth + Open(s) == 1
  {
    hide StaysOpen;
    var text := s + [')'] + rest;
    if s == "" {
      NothingOpen(depth);
      assert text[0] == ')';
    } else {
      assert text[1..] == s[1..] + [')'] + rest && text[0] == s[0];
      OpenOfFirst(s);
      var next := depth + Nesting(s[0]);
      hide Open;
      if next > 0 {
        ClosesAfter(s[1..], rest, next);
        StaysOpenNext(s, depth);
      } else {
        ClosedAtOnce(s, depth);
      }
    }
  }

  lemma NothingOpen(depth: int)
    requires depth > 0
    ensures StaysOpen("", depth) && Open("") == 0
  {
  }

  lemma ClosedAtOnce(s: string, depth: int)
    requires s != "" && depth > 0 && depth + Nesting(s[0]) <= 0
    ensures !StaysOpen(s, depth) && s[0] == ')' && depth == 1
  {
    OpenOfFirst(s[..1]);
    assert s[..1][1..] == "" && Open("") == 0;
    assert depth + Open(s[..1]) <= 0;
  }

  /** An ACE's text ends where its parentheses match. */
  lemma AceCloses(body: string, rest: string)
    ensures CloseAt("(" + body + ")" + rest, 0) == Some(1 + |body|) <==> Matched(body)
  {
    var text := "(" + body + ")" + rest;
    assert text[1..] == body + [')'] + rest && text[0] == '(';
    ClosesAfter(body, rest, 1);
    assert body[..|body|] == body;
  }

  // --- fields ----------------------------------------------------------

  /** `f` holds no semicolon outside its parentheses, `depth` of which are open before it. */
  ghost predicate Unsplit(f: string, depth: int) {
    forall i :: 0 <= i < |f| && f[i] == ';' ==> depth + Open(f[..i]) != 0
  }

  /** `fs` with semicolons between them. */
  function WithSemicolons(fs: seq<string>): string
    requires fs != []
  {
    if |fs| == 1 then fs[0] else fs[0] + ";" + WithSemicolons(fs[1..])
  }

  /** The fields of a text: it is cut at every semicolon outside parentheses, and nowhere else. */
  ghost predicate IsCut(s: string, fs: seq<string>, depth: int) {
    && fs != [] && s == WithSemicolons(fs)
    && Unsplit(fs[0], depth) && (|fs| > 1 ==> depth + Open(fs[0]) == 0)
    && (forall k :: 0 < k < |fs| ==> Unsplit(fs[k], 0))
    && (forall k :: 0 < k < |fs| - 1 ==> Open(fs[k]) == 0)
  }

  lemma UnsplitNext(f: string, depth: int)
    requires f != ""
    ensures Unsplit(f, depth) <==> !(f[0] == ';' && depth == 0) && Unsplit(f[1..], depth + Nesting(f[0]))
  {
    var t, next := f[1..], depth + Nesting(f[0]);
    forall i | 0 <= i < |t|
      ensures next + Open(t[..i]) == depth + Open(f[..i + 1]) && t[i] == f[i + 1]
    {
      OpenOfFirst(f[..i + 1]);
      assert f[..i + 1][1..] == t[..i];
    }
    assert f[..0] == "" && Open("") == 0;
    if Unsplit(f, depth) {
      if f[0] == ';' {
        assert depth + Open(f[..0]) != 0;
      }
    } else {
      var i :| 0 <= i < |f| && f[i] == ';' && depth + Open(f[..i]) == 0;
      if i > 0 {
        assert next + Open(t[..i - 1]) == 0;
      }
    }
  }

  /** The head of a cut moves one character to the left. */
  lemma CutOfMore(c: char, s: string, fs: seq<string>, depth: int)
    requires fs != [] && !(c == ';' && depth == 0)
    ensures IsCut([c] + s, [[c] + fs[0]] + fs[1..], depth) <==> IsCut(s, fs, depth + Nesting(c))
  {
    var f := [c] + fs[0];
    var gs := [f] + fs[1..];
    assert f[1..] == fs[0] && gs[1..] == fs[1..];
    UnsplitNext(f, depth);
    OpenOfFirst(f);
    MoreText(c, fs);
    assert ([c] + s)[1..] == s && ([c] + WithSemicolons(fs))[1..] == WithSemicolons(fs);
    hide WithSemicolons, Unsplit, Open;
  }

  lemma MoreText(c: char, fs: seq<string>)
    requires fs != []
    ensures WithSemicolons([[c] + fs[0]] + fs[1..]) == [c] + WithSemicolons(fs)
  {
    assert ([[c] + fs[0]] + fs[1..])[1..] == fs[1..];
  }

  lemma CutHere(s: string, fs: seq<string>)
    requires fs != []
    ensures IsCut(";" + s, [""] + fs, 0) <==> IsCut(s, fs, 0)
  {
    var gs := [""] + fs;
    assert gs[1..] == fs && Open("") == 0;
    assert WithSemicolons(gs) == ";" + WithSemicolons(fs) by { assert "" + ";" == ";"; }
    assert (";" + s)[1..] == s && (";" + WithSemicolons(fs))[1..] == WithSemicolons(fs);
    assert forall k :: 0 <= k < |fs| ==> gs[k + 1] == fs[k];
    if IsCut(";" + s, gs, 0) {
      assert Unsplit(gs[1], 0);
    }
    if IsCut(s, fs, 0) {
      forall k | 0 < k < |gs|
        ensures Unsplit(gs[k], 0) && (k < |gs| - 1 ==> Open(gs[k]) == 0)
      {
        assert gs[k] == fs[k - 1];
      }
    }
  }

  /** Splitting finds the cut. */
  lemma {:induction false} FieldsCut(s: string, depth: int)
    ensures IsCut(s, Fields(s, depth), depth)
  {
    hide IsCut;
    if s == "" {
      OnlyField(depth);
    } else if s[0] == ';' && depth == 0 {
      FieldsCut(s[1..], depth);
      CutHere(s[1..], Fields(s[1..], depth));
      assert s == ";" + s[1..];
    } else {
      FieldsCut(s[1..], depth + Nesting(s[0]));
      CutOfMore(s[0], s[1..], Fields(s[1..], depth + Nesting(s[0])), depth);
      assert s == [s[0]] + s[1..];
    }
  }

  lemma OnlyField(depth: int)
    ensures IsCut("", [""], depth)
  {
  }

  lemma CutOfNothing(fs: seq<string>, depth: int)
    requires IsCut("", fs, depth)
    ensures fs == [""]
  {
    assert |fs| == 1;
  }

  /** A cut text starts with its first field, or with a semicolon when that field is empty. */
  lemma CutHead(s: string, fs: seq<string>, depth: int)
    requires s != "" && IsCut(s, fs, depth)
    ensures fs != []
    ensures fs[0] == "" ==> depth == 0 && s[0] == ';' && |fs| > 1
    ensures fs[0] != "" ==> s[0] == fs[0][0] && !(s[0] == ';' && depth == 0)
  {
    if fs[0] == "" {
      assert Open("") == 0;
      if |fs| > 1 {
        assert s == "" + ";" + WithSemicolons(fs[1..]);
      }
    } else {
      UnsplitNext(fs[0], depth);
    }
  }

  /** And there is only one. */
  lemma {:induction false} CutIsFields(s: string, fs: seq<string>, depth: int)
    requires IsCut(s, fs, depth)
    ensures fs == Fields(s, depth)
  {
    hide IsCut, WithSemicolons;
    if s == "" {
      CutOfNothing(fs, depth);
    } else {
      CutHead(s, fs, depth);
      assert s == [s[0]] + s[1..];
      if fs[0] == "" {
        assert fs == [""] + fs[1..] && s == ";" + s[1..];
        CutHere(s[1..], fs[1..]);
        CutIsFields(s[1..], fs[1..], 0);
      } else {
        var gs := [fs[0][1..]] + fs[1..];
        assert fs[0] == [s[0]] + gs[0] && gs[1..] == fs[1..] && fs == [[s[0]] + gs[0]] + gs[1..];
        CutOfMore(s[0], s[1..], gs, depth);
        CutIsFields(s[1..], gs, depth + Nesting(s[0]));
      }
    }
  }

  // --- ACEs ------------------------------------------------------------

  /** A GUID field: empty when there is none. */
  predicate GuidSays(field: string, g: Option<Guid>) {
    if field == "" then g == None else g == GuidOfText(field) && g.Some?
  }

  /** What the fields of an ACE say: type; flags; mask; object type; inherited object type; trustee; and a condition. */
  predicate FieldsSay(fs: seq<string>, a: TextAce, o: Options) {
    && |fs| == (if a.cond.Some? then 7 else 6)
    && TypeOfTag(fs[0]) == Some(a.kind) && IsSupported(a.kind) && a.cond.Some? == IsCallback(a.kind)
    && FlagsOfText(fs[1]) == Some(a.flags)
    && MaskOfText(fs[2]) == Some(a.mask)
    && GuidSays(fs[3], a.objectType) && GuidSays(fs[4], a.inheritedType)
    && (a.kind in {0x05, 0x06, 0x07, 0x08, 0x0b} || (fs[3] == "" && fs[4] == ""))
    && fs[5] != "" && ParseSidText(o, fs[5]) == Some(a.sid)
    && (a.cond.Some? ==> ConditionParser.ParseConditionText(fs[6], o) == a.cond)
  }

  lemma AceOfFieldsSays(kind: byte, fs: seq<string>, a: TextAce, o: Options)
    requires |fs| == if IsCallback(kind) then 7 else 6
    requires TypeOfTag(fs[0]) == Some(kind) && IsSupported(kind)
    ensures AceOfFields(kind, fs, o) == Some(a) <==> FieldsSay(fs, a, o)
  {
    hide TypeOfTag, FlagsOfText, MaskOfText, GuidOfText, ParseSidText, ConditionParser.ParseConditionText;
  }

  /** An ACE's body denotes exactly what its fields say. */
  lemma BodyIsFields(body: string, fs: seq<string>, a: TextAce, o: Options)
    requires IsCut(body, fs, 0)
    ensures ParseAce(body, o) == Some(a) <==> FieldsSay(fs, a, o)
  {
    CutIsFields(body, fs, 0);
    hide Fields, IsCut, TypeOfTag, AceOfFields, FlagsOfText, MaskOfText, GuidOfText, ParseSidText;
    hide ConditionParser.ParseConditionText;
    if |fs| >= 6 && TypeOfTag(fs[0]).Some? {
      var kind := TypeOfTag(fs[0]).value;
      if IsSupported(kind) && |fs| == if IsCallback(kind) then 7 else 6 {
        AceOfFieldsSays(kind, fs, a, o);
      }
    }
  }

  // --- SIDs ------------------------------------------------------------

  predicate HexForm(w: string) { |w| > 2 && w[0] == '0' && (w[1] == 'x' || w[1] == 'X') }

  /** A number of a SID: digits, or 0x and hex digits. */
  predicate NumberForm(w: string) {
    if HexForm(w) then ConditionLexer.All(w[2..], ConditionLexer.HexChar) else w != "" && ConditionLexer.All(w, Digit)
  }

  /** A SID in a text: two characters, or S-1 and numbers. */
  datatype SidWord = Short(name: string) | Literal(numbers: seq<string>)

  function SidText(w: SidWord): string {
    match w case Short(name) => name case Literal(numbers) => "S-1" + Dashed(numbers)
  }

  predicate GoodSid(w: SidWord) {
    match w
    case Short(name) => |name| == 2 && name != "S-"
    case Literal(numbers) => numbers != [] && forall i :: 0 <= i < |numbers| ==> NumberForm(numbers[i])
  }

  /** Whether the last number is in hex, so that a D after it would be one of its digits. */
  predicate EndsInHex(w: SidWord) {
    w.Literal? && w.numbers != [] && HexForm(w.numbers[|w.numbers| - 1])
  }

  /** The longest number a text starts with. */
  predicate StopsNumber(w: string, rest: string) {
    if HexForm(w) then EndsHex(rest) else EndsNumber(rest)
  }

  lemma NumberTaken(w: string, rest: string)
    requires NumberForm(w) && StopsNumber(w, rest)
    ensures NumberSize(w + rest) == Some(|w|)
  {
    var s := w + rest;
    if HexForm(w) {
      assert s[2..] == w[2..] + rest;
      ConditionLexer.SpanOfRun(w[2..], rest, ConditionLexer.HexChar);
    } else {
      ConditionLexer.SpanOfRun(w, rest, Digit);
      if |s| >= 2 && |w| >= 2 {
        assert s[1] == w[1];
      }
    }
  }

  lemma NumberIsForm(s: string)
    requires NumberSize(s).Some?
    ensures var k := NumberSize(s).value; NumberForm(s[..k]) && (HexForm(s[..k]) ==> EndsHex(s[k..]))
  {
    var k := NumberSize(s).value;
    if |s| >= 2 && s[0] == '0' && (s[1] == 'x' || s[1] == 'X') {
      assert s[..k][2..] == s[2..][..k - 2];
    }
  }

  /** What follows a SID in a text: nothing, or another component. */
  predicate EndsWord(rest: string) { rest == "" || ComponentTag(rest[0]) }

  lemma {:induction false} NumbersTaken(numbers: seq<string>, rest: string)
    requires EndsWord(rest) && (forall i :: 0 <= i < |numbers| ==> NumberForm(numbers[i]))
    requires numbers != [] && HexForm(numbers[|numbers| - 1]) ==> EndsHex(rest)
    ensures SubsPrefix(Dashed(numbers), rest)
  {
    hide NumberSize, SubsPrefix, HexForm, NumberForm;
    if numbers == [] {
      NoSubs(rest);
    } else {
      var first, more := numbers[0], Dashed(numbers[1..]);
      NumbersTaken(numbers[1..], rest);
      NumberStops(first, numbers[1..], rest);
      NumberTaken(first, more + rest);
      NextSub(first, more, rest);
    }
  }

  lemma NumberStops(w: string, numbers: seq<string>, rest: string)
    requires EndsWord(rest) && (numbers == [] && HexForm(w) ==> EndsHex(rest))
    ensures StopsNumber(w, Dashed(numbers) + rest)
  {
    if numbers == [] {
      assert Dashed(numbers) + rest == rest;
    } else {
      assert (Dashed(numbers) + rest)[0] == '-';
    }
  }

  lemma {:induction false} SubsAreNumbers(s: string) returns (numbers: seq<string>)
    requires SubsSize(s).Some?
    ensures s[..SubsSize(s).value] == Dashed(numbers) && forall i :: 0 <= i < |numbers| ==> NumberForm(numbers[i])
    ensures numbers != [] && HexForm(numbers[|numbers| - 1]) ==> EndsHex(s[SubsSize(s).value..])
    ensures s != "" && s[0] == '-' ==> numbers != []
    decreases |s|
  {
    hide NumberSize, HexForm, NumberForm, EndsHex;
    numbers := [];
    if s != "" && s[0] == '-' {
      var k := NumberSize(s[1..]).value;
      var rest := s[1 + k..];
      var more := SubsAreNumbers(rest);
      NumberIsForm(s[1..]);
      assert s[1..][..k] == s[1..1 + k] && s[1..][k..] == rest;
      numbers := [s[1..1 + k]] + more;
      assert numbers[1..] == more;
      NextNumber(s, k, SubsSize(rest).value);
      if more == [] {
        assert Dashed(more) == "" && SubsSize(rest).value == 0 && rest[0..] == rest;
      }
    }
  }

  lemma NextNumber(s: string, k: nat, n: nat)
    requires 1 + k + n <= |s| && s[0] == '-'
    ensures s[..1 + k + n] == "-" + s[1..1 + k] + s[1 + k..][..n] && s[1 + k + n..] == s[1 + k..][n..]
  {
  }

  lemma FirstSub(s: string, k: nat)
    requires s != "" && s[0] == '-' && NumberSize(s[1..]) == Some(k)
    ensures SubsSize(s) == match SubsSize(s[1 + k..]) case None => None case Some(n) => Some(1 + k + n)
  {
    hide NumberSize;
  }

  lemma NoFirstSub(s: string)
    requires s != "" && s[0] == '-' && NumberSize(s[1..]) == None
    ensures SubsSize(s) == None
  {
    hide NumberSize;
  }

  lemma Fourth(s: string)
    requires "S-1-" <= s
    ensures |s| > 3 && s[3] == '-' && s[3..][1..] == s[4..]
  {
  }

  lemma FromFourth(s: string, k: nat)
    requires 4 + k <= |s|
    ensures s[3..][1 + k..] == s[4 + k..]
  {
  }

  /** The numbers of a literal, from its first dash. */
  lemma LiteralNumbers(s: string)
    requires "S-" <= s
    ensures SidSize(s) == if "S-1-" <= s then (match SubsSize(s[3..]) case None => None case Some(n) => Some(3 + n)) else None
  {
    hide NumberSize, SubsSize;
    if "S-1-" <= s {
      Fourth(s);
      if NumberSize(s[4..]).Some? {
        FirstSub(s[3..], NumberSize(s[4..]).value);
        FromFourth(s, NumberSize(s[4..]).value);
      } else {
        NoFirstSub(s[3..]);
      }
    }
  }

  lemma SidTaken(w: SidWord, rest: string)
    requires GoodSid(w) && EndsWord(rest) && !(EndsInHex(w) && rest != "" && rest[0] == 'D')
    ensures SidSize(SidText(w) + rest) == Some(|SidText(w)|)
  {
    hide SubsSize, NumberSize, HexForm, NumberForm;
    match w {
      case Short(name) =>
        assert (name + rest)[..2] == name;
      case Literal(numbers) =>
        NumbersTaken(numbers, rest);
        var s := SidText(w) + rest;
        assert s[3..] == Dashed(numbers) + rest && s[..3] == "S-1" && s[3] == '-';
        LiteralNumbers(s);
    }
  }

  lemma SidIsWord(s: string) returns (w: SidWord)
    requires SidSize(s).Some?
    ensures GoodSid(w) && s[..SidSize(s).value] == SidText(w)
    ensures EndsInHex(w) ==> EndsHex(s[SidSize(s).value..])
  {
    hide SubsSize, NumberSize, HexForm, NumberForm;
    if "S-" <= s {
      LiteralNumbers(s);
      var numbers := SubsAreNumbers(s[3..]);
      w := Literal(numbers);
      var n := SubsSize(s[3..]).value;
      assert s[..3 + n] == "S-1" + s[3..][..n] && s[3 + n..] == s[3..][n..];
    } else {
      w := Short(s[..2]);
      assert s[0] != 'S' || s[1] != '-';
    }
  }

  // --- ACLs ------------------------------------------------------------

  function Bodies(bs: seq<string>): string {
    if bs == [] then "" else "(" + bs[0] + ")" + Bodies(bs[1..])
  }

  /** What the text between the parentheses of an ACE says. */
  ghost predicate BodySays(body: string, a: TextAce, o: Options) {
    Matched(body) && exists fs :: IsCut(body, fs, 0) && FieldsSay(fs, a, o)
  }

  /** What the words and ACEs of a D: or S: component say. */
  ghost predicate AclSays(words: seq<FlagWord>, bodies: seq<string>, l: TextAcl, o: Options) {
    && (l.protected <==> Protected in words)
    && (l.requested <==> Requested in words)
    && (l.inherited <==> Inherited in words)
    && match l.aces
       case None => NoAccessControl in words && bodies == []
       case Some(aces) => NoAccessControl !in words && AcesSay(bodies, aces, o)
  }

  ghost predicate AcesSay(bodies: seq<string>, aces: seq<TextAce>, o: Options) {
    |aces| == |bodies| && forall i :: 0 <= i < |bodies| ==> BodySays(bodies[i], aces[i], o)
  }

  lemma BodyIsParsed(body: string, a: TextAce, o: Options)
    ensures Matched(body) ==> (BodySays(body, a, o) <==> ParseAce(body, o) == Some(a))
  {
    FieldsCut(body, 0);
    BodyIsFields(body, Fields(body, 0), a, o);
    hide FieldsSay, IsCut, Matched, ParseAce;
    if BodySays(body, a, o) {
      var fs :| IsCut(body, fs, 0) && FieldsSay(fs, a, o);
      CutIsFields(body, fs, 0);
    }
  }

  lemma AceTaken(body: string, a: TextAce, rest: string, o: Options)
    requires BodySays(body, a, o)
    ensures var s := "(" + body + ")" + rest; ScanAce(s, o) == Some((a, rest))
  {
    hide CloseAt, ParseAce, Matched, IsCut, FieldsSay;
    BodyIsParsed(body, a, o);
    AceCloses(body, rest);
    InAce(body, rest);
  }

  lemma InAce(body: string, rest: string)
    ensures var s := "(" + body + ")" + rest; s[0] == '(' && s[1..1 + |body|] == body && s[1 + |body| + 1..] == rest
  {
  }

  lemma ScannedIsBody(s: string, o: Options) returns (body: string)
    requires s != "" && s[0] == '(' && ScanAce(s, o).Some?
    ensures s == "(" + body + ")" + ScanAce(s, o).value.1 && BodySays(body, ScanAce(s, o).value.0, o)
  {
    hide CloseAt, ParseAce, Matched, BodySays;
    var end, a := CloseAt(s, 0).value, ScanAce(s, o).value.0;
    ClosesAtParenthesis(s, 0);
    NotAtOnce(s);
    body := s[1..end];
    AceParts(s, end);
    AceCloses(body, s[end + 1..]);
    BodyIsParsed(body, a, o);
  }

  lemma NotAtOnce(s: string)
    requires s != "" && s[0] == '(' && CloseAt(s, 0).Some?
    ensures CloseAt(s, 0).value > 0
  {
  }

  lemma AceParts(s: string, end: nat)
    requires 0 < end < |s| && s[0] == '(' && s[end] == ')'
    ensures s == "(" + s[1..end] + ")" + s[end + 1..]
  {
  }

  lemma {:induction false} ClosesAtParenthesis(s: string, depth: int)
    requires CloseAt(s, depth).Some?
    ensures s[CloseAt(s, depth).value] == ')'
  {
    var next := depth + Nesting(s[0]);
    if !(s[0] == ')' && next == 0) {
      ClosesAtParenthesis(s[1..], next);
    }
  }

  lemma {:induction false} AcesTaken(bodies: seq<string>, aces: seq<TextAce>, rest: string, o: Options)
    requires AcesSay(bodies, aces, o) && (rest == "" || rest[0] != '(')
    ensures ScanAces(Bodies(bodies) + rest, o) == Some((aces, rest))
  {
    hide BodySays, ScanAce;
    if bodies == [] {
      assert Bodies(bodies) + rest == rest && aces == [];
    } else {
      var more := Bodies(bodies[1..]) + rest;
      AcesTaken(bodies[1..], aces[1..], rest, o);
      AceTaken(bodies[0], aces[0], more, o);
      assert Bodies(bodies) + rest == "(" + bodies[0] + ")" + more;
      assert aces == [aces[0]] + aces[1..];
    }
  }

  lemma {:induction false} ScannedAreBodies(s: string, o: Options) returns (bodies: seq<string>)
    requires ScanAces(s, o).Some?
    ensures var (aces, rest) := ScanAces(s, o).value;
            AcesSay(bodies, aces, o) && s == Bodies(bodies) + rest && (rest == "" || rest[0] != '(')
    decreases |s|
  {
    hide BodySays, ScanAce;
    bodies := [];
    if s != "" && s[0] == '(' {
      var body := ScannedIsBody(s, o);
      var (a, rest) := ScanAce(s, o).value;
      var more := ScannedAreBodies(rest, o);
      bodies := [body] + more;
      var (others, after) := ScanAces(rest, o).value;
      MoreBodies(body, more, a, others, rest, after, o);
    }
  }

  lemma MoreBodies(body: string, more: seq<string>, a: TextAce, others: seq<TextAce>, rest: string, after: string, o: Options)
    requires BodySays(body, a, o) && AcesSay(more, others, o) && rest == Bodies(more) + after
    ensures AcesSay([body] + more, [a] + others, o)
    ensures "(" + body + ")" + rest == Bodies([body] + more) + after
  {
    hide BodySays;
    assert ([body] + more)[1..] == more;
    assert "(" + body + ")" + (Bodies(more) + after) == "(" + body + ")" + Bodies(more) + after;
  }

  /** What follows a component: nothing, or the tag of another. */
  predicate EndsPart(rest: string) {
    rest == "" || (|rest| > 1 && rest[1] == ':' && ComponentTag(rest[0]))
  }

  lemma RunTaken(run: string, words: seq<FlagWord>, rest: string)
    requires SameLetters(run, Spellings(words)) && NullOnce(words)
    requires (rest != "" && rest[0] == '(') || EndsPart(rest)
    ensures FlagRun(run + rest) == Some(|run|)
    ensures ReadAclFlags(NO_ACL_FLAGS, Raised((run + rest)[..|run|])) == Some(Adding(NO_ACL_FLAGS, words))
  {
    hide ReadAclFlags, Spellings, NullWord, SameLetters;
    SpellingsAreRaised(words);
    RaisedLetters(run, Spellings(words));
    WordsAreRead(NO_ACL_FLAGS, words);
    hide Adding;
    FlagRunEnds(run, rest);
    assert (run + rest)[..|run|] == run;
  }

  lemma {:induction false} RunStops(s: string)
    requires FlagRun(s).Some?
    ensures ConditionLexer.All(s[..FlagRun(s).value], FlagChar)
  {
    if FlagRun(s).value > 0 {
      RunStops(s[1..]);
      assert s[..FlagRun(s).value] == [s[0]] + s[1..][..FlagRun(s[1..]).value];
    }
  }

  lemma RunIsWords(s: string) returns (words: seq<FlagWord>)
    requires FlagRun(s).Some? && ReadAclFlags(NO_ACL_FLAGS, Raised(s[..FlagRun(s).value])).Some?
    ensures var run := s[..FlagRun(s).value];
            SameLetters(run, Spellings(words)) && NullOnce(words)
            && ReadAclFlags(NO_ACL_FLAGS, Raised(run)) == Some(Adding(NO_ACL_FLAGS, words))
  {
    hide ReadAclFlags, Spellings, SameLetters, NullWord, FlagRun;
    var run := s[..FlagRun(s).value];
    RunStops(s);
    words := ReadIsWords(NO_ACL_FLAGS, Raised(run));
    WordsAreRead(NO_ACL_FLAGS, words);
    SpellingsAreRaised(words);
    RaisedLetters(run, Spellings(words));
    hide Adding;
  }

  function AclText(run: string, bodies: seq<string>): string { run + Bodies(bodies) }

  /** The same by the flags that were read. */
  ghost predicate AclFits(f: AclFlags, bodies: seq<string>, l: TextAcl, o: Options) {
    && l.protected == f.protected && l.requested == f.requested && l.inherited == f.inherited
    && l.aces.None? == f.isNull
    && match l.aces case None => bodies == [] case Some(aces) => AcesSay(bodies, aces, o)
  }

  lemma SaysIsFits(words: seq<FlagWord>, bodies: seq<string>, l: TextAcl, o: Options)
    ensures AclSays(words, bodies, l, o) <==> AclFits(Adding(NO_ACL_FLAGS, words), bodies, l, o)
  {
    hide AcesSay;
  }

  lemma AclTaken(run: string, words: seq<FlagWord>, bodies: seq<string>, l: TextAcl, rest: string, o: Options)
    requires SameLetters(run, Spellings(words)) && NullOnce(words) && AclSays(words, bodies, l, o) && EndsPart(rest)
    ensures ScanAcl(AclText(run, bodies) + rest, o) == Some((l, rest))
  {
    SaysIsFits(words, bodies, l, o);
    hide AclSays, Adding, SameLetters, NullOnce, Spellings, FlagRun, ReadAclFlags, Raised, ScanAces, AcesSay, ScanAcl;
    var tail := Bodies(bodies) + rest;
    assert bodies == [] ==> tail == rest;
    assert AclText(run, bodies) + rest == run + tail && (run + tail)[|run|..] == tail;
    RunTaken(run, words, tail);
    if l.aces.Some? {
      AcesTaken(bodies, l.aces.value, rest, o);
    }
    hide Bodies, AclText;
    FlagsThenAces(run + tail, |run|, Adding(NO_ACL_FLAGS, words), o);
  }

  lemma FlagsThenAces(s: string, n: nat, f: AclFlags, o: Options)
    requires FlagRun(s) == Some(n) && n <= |s| && ReadAclFlags(NO_ACL_FLAGS, Raised(s[..n])) == Some(f)
    ensures ScanAcl(s, o)
         == if f.isNull then
              if n < |s| && s[n] == '(' then None else Some((TextAcl(f.protected, f.requested, f.inherited, None), s[n..]))
            else
              match ScanAces(s[n..], o)
              case None => None
              case Some((aces, rest)) => Some((TextAcl(f.protected, f.requested, f.inherited, Some(aces)), rest))
  {
    hide FlagRun, ReadAclFlags, Raised, ScanAces;
  }

  lemma ScannedIsAcl(s: string, o: Options) returns (run: string, words: seq<FlagWord>, bodies: seq<string>)
    requires ScanAcl(s, o).Some?
    ensures SameLetters(run, Spellings(words)) && NullOnce(words) && AclSays(words, bodies, ScanAcl(s, o).value.0, o)
    ensures s == AclText(run, bodies) + ScanAcl(s, o).value.1
  {
    hide FlagRun, ReadAclFlags, Raised, Spellings, ScanAces, AcesSay, SameLetters, NullOnce, Adding, AclSays, Bodies;
    words := RunIsWords(s);
    var n, f := FlagRun(s).value, Adding(NO_ACL_FLAGS, words);
    run, bodies := s[..n], [];
    FlagsThenAces(s, n, f, o);
    if !f.isNull {
      bodies := ScannedAreBodies(s[n..], o);
    }
    var (l, rest) := ScanAcl(s, o).value;
    hide ScanAcl;
    SaysIsFits(words, bodies, l, o);
    NoBodies();
    FlagsAndBodies(s, n, bodies, rest);
  }

  lemma NoBodies()
    ensures Bodies([]) == ""
  {
  }

  lemma FlagsAndBodies(s: string, n: nat, bodies: seq<string>, rest: string)
    requires n <= |s| && s[n..] == Bodies(bodies) + rest
    ensures s == AclText(s[..n], bodies) + rest
  {
    hide Bodies;
    assert s == s[..n] + s[n..];
    assert s[..n] + (Bodies(bodies) + rest) == s[..n] + Bodies(bodies) + rest;
  }

  // --- whole texts -----------------------------------------------------

  /** A component: its tag, and a SID or an ACL. */
  datatype Part =
    | SidPart(tag: char, word: SidWord)
    | AclPart(tag: char, run: string, words: seq<FlagWord>, bodies: seq<string>)

  function PartText(p: Part): string {
    [p.tag, ':'] + match p case SidPart(_, word) => SidText(word) case AclPart(_, run, _, bodies) => AclText(run, bodies)
  }

  function PartsText(parts: seq<Part>): string {
    if parts == [] then "" else PartText(parts[0]) + PartsText(parts[1..])
  }

  predicate GoodPart(p: Part) {
    match p
    case SidPart(tag, word) => (tag == 'O' || tag == 'G') && GoodSid(word)
    case AclPart(tag, run, words, _) => (tag == 'D' || tag == 'S') && SameLetters(run, Spellings(words)) && NullOnce(words)
  }

  /** Components in any order, none twice; no D: right after a hex number, whose digit its D would be. */
  ghost predicate Grammatical(parts: seq<Part>) {
    && (forall i :: 0 <= i < |parts| ==> GoodPart(parts[i]))
    && (forall i, j :: 0 <= i < j < |parts| ==> parts[i].tag != parts[j].tag)
    && (forall i :: 0 <= i < |parts| - 1 && parts[i].SidPart? && EndsInHex(parts[i].word) ==> parts[i + 1].tag != 'D')
  }

  /** What one component says of a tree. */
  ghost predicate PartSays(p: Part, t: Tree, o: Options) {
    match p
    case SidPart(tag, word) => ParseSidText(o, SidText(word)) == Some(if tag == 'O' then t.owner else t.group)
    case AclPart(tag, _, words, bodies) => AclSays(words, bodies, if tag == 'D' then t.dacl else t.sacl, o)
  }

  predicate Tagged(parts: seq<Part>, tag: char) {
    exists i :: 0 <= i < |parts| && parts[i].tag == tag
  }

  /** What a text says: what its components say, and for the others what was there before. */
  ghost predicate PartsSay(parts: seq<Part>, from: Tree, t: Tree, o: Options) {
    && (forall i :: 0 <= i < |parts| ==> PartSays(parts[i], t, o))
    && (Tagged(parts, 'O') || t.owner == from.owner)
    && (Tagged(parts, 'G') || t.group == from.group)
    && (Tagged(parts, 'D') || t.dacl == from.dacl)
    && (Tagged(parts, 'S') || t.sacl == from.sacl)
  }

  /** `from` with the component `tag` of `t`. */
  function Updated(tag: char, from: Tree, t: Tree): Tree {
    if tag == 'O' then from.(owner := t.owner) else if tag == 'G' then from.(group := t.group)
    else if tag == 'D' then from.(dacl := t.dacl) else from.(sacl := t.sacl)
  }

  predicate Met(seen: Seen, tag: char) {
    if tag == 'O' then seen.owner else if tag == 'G' then seen.group else if tag == 'D' then seen.dacl else seen.sacl
  }

  function Meeting(seen: Seen, tag: char): Seen {
    if tag == 'O' then seen.(owner := true) else if tag == 'G' then seen.(group := true)
    else if tag == 'D' then seen.(dacl := true) else seen.(sacl := true)
  }

  lemma SidPartTaken(p: Part, rest: string, t: Tree, from: Tree, seen: Seen, o: Options)
    requires p.SidPart? && GoodPart(p) && PartSays(p, t, o) && !Met(seen, p.tag) && EndsPart(rest)
    requires !(EndsInHex(p.word) && rest != "" && rest[0] == 'D')
    ensures ScanParts(PartText(p) + rest, o, from, seen) == ScanParts(rest, o, Updated(p.tag, from, t), Meeting(seen, p.tag))
  {
    hide GoodSid, EndsInHex, SidSize, ParseSidText;
    var text := SidText(p.word) + rest;
    var s := PartText(p) + rest;
    assert s[2..] == text && s[0] == p.tag && s[1] == ':';
    SidTaken(p.word, rest);
    assert text[..|SidText(p.word)|] == SidText(p.word) && text[|SidText(p.word)|..] == rest;
    hide SidText;
  }

  lemma AclPartTaken(p: Part, rest: string, t: Tree, from: Tree, seen: Seen, o: Options)
    requires p.AclPart? && GoodPart(p) && PartSays(p, t, o) && !Met(seen, p.tag) && EndsPart(rest)
    ensures ScanParts(PartText(p) + rest, o, from, seen) == ScanParts(rest, o, Updated(p.tag, from, t), Meeting(seen, p.tag))
  {
    hide SameLetters, NullOnce, Spellings, AclSays, AclText, ScanAcl;
    var text := AclText(p.run, p.bodies) + rest;
    var s := PartText(p) + rest;
    assert s[2..] == text && s[0] == p.tag && s[1] == ':';
    AclTaken(p.run, p.words, p.bodies, if p.tag == 'D' then t.dacl else t.sacl, rest, o);
  }

  lemma PartsEnd(parts: seq<Part>)
    requires forall i :: 0 <= i < |parts| ==> GoodPart(parts[i])
    ensures EndsPart(PartsText(parts))
    ensures PartsText(parts) != "" ==> parts != [] && PartsText(parts)[0] == parts[0].tag
  {
    hide GoodPart;
    if parts != [] {
      OneTagKnown(parts[0]);
      TextIsLonger(parts[0]);
      hide PartText;
      assert PartsText(parts) == PartText(parts[0]) + PartsText(parts[1..]);
    }
  }

  /** What the components after the first say. */
  lemma MorePartsSay(parts: seq<Part>, from: Tree, t: Tree, o: Options)
    requires parts != [] && GoodPart(parts[0])
    ensures PartsSay(parts, from, t, o)
       <==> PartSays(parts[0], t, o) && PartsSay(parts[1..], Updated(parts[0].tag, from, t), t, o)
  {
    hide PartSays;
    var p, more := parts[0], parts[1..];
    assert parts == [p] + more;
    TaggedMore(parts, 'O');
    TaggedMore(parts, 'G');
    TaggedMore(parts, 'D');
    TaggedMore(parts, 'S');
    hide Tagged;
    assert forall i :: 0 <= i < |more| ==> more[i] == parts[i + 1];
  }

  lemma TaggedMore(parts: seq<Part>, tag: char)
    requires parts != []
    ensures Tagged(parts, tag) <==> parts[0].tag == tag || Tagged(parts[1..], tag)
  {
    if Tagged(parts, tag) {
      var i :| 0 <= i < |parts| && parts[i].tag == tag;
      assert i > 0 ==> parts[1..][i - 1].tag == tag;
    }
    if Tagged(parts[1..], tag) {
      var i :| 0 <= i < |parts| - 1 && parts[1..][i].tag == tag;
      assert parts[i + 1].tag == tag;
    }
  }

  lemma GrammaticalMore(parts: seq<Part>)
    requires parts != []
    ensures Grammatical(parts)
       <==> && GoodPart(parts[0]) && Grammatical(parts[1..]) && !Tagged(parts[1..], parts[0].tag)
            && (|parts| > 1 && parts[0].SidPart? && EndsInHex(parts[0].word) ==> parts[1].tag != 'D')
  {
    hide GoodPart, EndsInHex;
    var more := parts[1..];
    assert parts == [parts[0]] + more;
    assert forall i :: 0 <= i < |more| ==> more[i] == parts[i + 1];
  }

  /** None of the components has been met. */
  predicate Unmet(parts: seq<Part>, seen: Seen) {
    forall i :: 0 <= i < |parts| ==> !Met(seen, parts[i].tag)
  }

  lemma UnmetMore(parts: seq<Part>, seen: Seen)
    requires parts != [] && (forall i :: 0 <= i < |parts| ==> parts[i].tag in "OGDS")
    ensures Unmet(parts, seen) && !Tagged(parts[1..], parts[0].tag)
       <==> !Met(seen, parts[0].tag) && Unmet(parts[1..], Meeting(seen, parts[0].tag))
  {
    var more, next := parts[1..], Meeting(seen, parts[0].tag);
    assert forall i :: 0 <= i < |more| ==> more[i] == parts[i + 1];
    forall i | 0 <= i < |more|
      ensures Met(next, more[i].tag) <==> Met(seen, more[i].tag) || more[i].tag == parts[0].tag
    {
      assert parts[0].tag in "OGDS" && parts[i + 1].tag in "OGDS";
    }
  }

  /** The components of a grammatical text are taken one after another. */
  lemma {:induction false} PartsTaken(parts: seq<Part>, t: Tree, from: Tree, seen: Seen, o: Options)
    requires Grammatical(parts) && PartsSay(parts, from, t, o) && Unmet(parts, seen)
    ensures ScanParts(PartsText(parts), o, from, seen) == Some(t)
    decreases parts
  {
    if parts == [] {
      NoParts(from, t, seen, o);
    } else {
      GrammaticalMore(parts);
      MorePartsSay(parts, from, t, o);
      TagsKnown(parts);
      UnmetMore(parts, seen);
      PartsEndAfter(parts);
      hide Grammatical, PartsSay, Unmet, ScanParts, PartSays, GoodPart, EndsInHex, Met, Meeting, Updated, PartText;
      var p, more := parts[0], parts[1..];
      if p.SidPart? {
        SidPartTaken(p, PartsText(more), t, from, seen, o);
      } else {
        AclPartTaken(p, PartsText(more), t, from, seen, o);
      }
      PartsTaken(more, t, Updated(p.tag, from, t), Meeting(seen, p.tag), o);
    }
  }

  lemma NoParts(from: Tree, t: Tree, seen: Seen, o: Options)
    requires PartsSay([], from, t, o)
    ensures ScanParts("", o, from, seen) == Some(t)
  {
    assert !Tagged([], 'O') && !Tagged([], 'G') && !Tagged([], 'D') && !Tagged([], 'S');
  }

  lemma TagsKnown(parts: seq<Part>)
    requires Grammatical(parts)
    ensures forall i :: 0 <= i < |parts| ==> parts[i].tag in "OGDS"
  {
    hide GoodSid, SameLetters, NullOnce, Spellings;
    forall i | 0 <= i < |parts|
      ensures parts[i].tag in "OGDS"
    {
      assert GoodPart(parts[i]);
    }
  }

  /** What follows the first component ends it, and does not run on from its hex number. */
  lemma PartsEndAfter(parts: seq<Part>)
    requires Grammatical(parts) && parts != []
    ensures var rest := PartsText(parts[1..]);
            EndsPart(rest) && (parts[0].SidPart? && EndsInHex(parts[0].word) ==> rest == "" || rest[0] != 'D')
  {
    hide GoodPart, EndsInHex, PartsText, PartText;
    assert forall i :: 0 <= i < |parts| - 1 ==> parts[1..][i] == parts[i + 1];
    PartsEnd(parts[1..]);
  }

  lemma SidPartScanned(s: string, from: Tree, seen: Seen, o: Options) returns (p: Part, rest: string, u: Tree)
    requires |s| >= 2 && s[1] == ':' && s[0] in "OG" && ScanParts(s, o, from, seen).Some?
    ensures p.SidPart? && p.tag == s[0] && GoodPart(p) && s == PartText(p) + rest && !Met(seen, p.tag)
    ensures EndsInHex(p.word) ==> EndsHex(rest)
    ensures u == Updated(p.tag, from, u) && PartSays(p, u, o)
    ensures ScanParts(s, o, from, seen) == ScanParts(rest, o, u, Meeting(seen, p.tag))
  {
    hide GoodSid, EndsInHex, SidSize, ParseSidText, SidText, ScanAcl;
    var word := SidIsWord(s[2..]);
    var n := SidSize(s[2..]).value;
    p, rest := SidPart(s[0], word), s[2..][n..];
    var sid := ParseSidText(o, s[2..][..n]).value;
    u := if s[0] == 'O' then from.(owner := sid) else from.(group := sid);
    assert s == [s[0], ':'] + s[2..] && s[2..] == s[2..][..n] + rest;
    assert [s[0], ':'] + (s[2..][..n] + rest) == [s[0], ':'] + s[2..][..n] + rest;
  }

  lemma AclPartScanned(s: string, from: Tree, seen: Seen, o: Options) returns (p: Part, rest: string, u: Tree)
    requires |s| >= 2 && s[1] == ':' && s[0] in "DS" && ScanParts(s, o, from, seen).Some?
    ensures p.AclPart? && p.tag == s[0] && GoodPart(p) && s == PartText(p) + rest && !Met(seen, p.tag)
    ensures u == Updated(p.tag, from, u) && PartSays(p, u, o)
    ensures ScanParts(s, o, from, seen) == ScanParts(rest, o, u, Meeting(seen, p.tag))
  {
    hide ScanAcl, ScanSid, SameLetters, NullOnce, Spellings, AclSays, AclText;
    var run, words, bodies := ScannedIsAcl(s[2..], o);
    p, rest := AclPart(s[0], run, words, bodies), ScanAcl(s[2..], o).value.1;
    var l := ScanAcl(s[2..], o).value.0;
    u := if s[0] == 'D' then from.(dacl := l) else from.(sacl := l);
    assert s == [s[0], ':'] + s[2..];
    assert [s[0], ':'] + (AclText(run, bodies) + rest) == [s[0], ':'] + AclText(run, bodies) + rest;
  }

  lemma TagScanned(s: string, from: Tree, seen: Seen, o: Options)
    requires s != "" && ScanParts(s, o, from, seen).Some?
    ensures |s| >= 2 && s[1] == ':' && s[0] in "OGDS"
  {
    hide ScanAcl, ScanSid;
  }

  /** And whatever is scanned is such a text. */
  lemma {:induction false} ScannedIsParts(s: string, from: Tree, seen: Seen, o: Options) returns (parts: seq<Part>)
    requires ScanParts(s, o, from, seen).Some?
    ensures PartsText(parts) == s && Grammatical(parts) && Unmet(parts, seen)
    ensures PartsSay(parts, from, ScanParts(s, o, from, seen).value, o)
    decreases |s|
  {
    parts := [];
    if s != "" {
      TagScanned(s, from, seen, o);
      var p: Part, rest: string, u: Tree;
      if s[0] == 'O' || s[0] == 'G' {
        p, rest, u := SidPartScanned(s, from, seen, o);
      } else {
        p, rest, u := AclPartScanned(s, from, seen, o);
      }
      hide ScanParts, GoodPart, PartSays, Met, Meeting, Updated, Grammatical, PartsSay, Unmet, EndsInHex;
      TextIsLonger(p);
      var t := ScanParts(s, o, from, seen).value;
      var more := ScannedIsParts(rest, u, Meeting(seen, p.tag), o);
      parts := [p] + more;
      assert parts[1..] == more;
      Prepended(p, more, rest, from, u, t, seen, o);
    }
  }

  lemma TextIsLonger(p: Part)
    ensures |PartText(p)| >= 2 && PartText(p)[0] == p.tag && PartText(p)[1] == ':'
  {
    hide SidText, AclText;
  }

  lemma Prepended(p: Part, more: seq<Part>, rest: string, from: Tree, u: Tree, t: Tree, seen: Seen, o: Options)
    requires GoodPart(p) && !Met(seen, p.tag) && u == Updated(p.tag, from, u) && PartSays(p, u, o)
    requires p.SidPart? && EndsInHex(p.word) ==> EndsHex(rest)
    requires PartsText(more) == rest && Grammatical(more) && Unmet(more, Meeting(seen, p.tag)) && PartsSay(more, u, t, o)
    ensures Grammatical([p] + more) && Unmet([p] + more, seen) && PartsSay([p] + more, from, t, o)
  {
    hide *;
    var parts := [p] + more;
    assert parts[1..] == more && parts[0] == p;
    TagsKnown(more);
    OneTagKnown(p);
    UnmetMore(parts, seen);
    NotAgain(p, more, from, u, t, o);
    MorePartsSay(parts, from, t, o);
    NoDigitFollows(more);
    GrammaticalMore(parts);
  }

  lemma NoDigitFollows(more: seq<Part>)
    ensures EndsHex(PartsText(more)) && more != [] ==> more[0].tag != 'D'
  {
    hide PartText;
    if more != [] {
      TextIsLonger(more[0]);
    }
  }

  lemma OneTagKnown(p: Part)
    requires GoodPart(p)
    ensures p.tag in "OGDS" && (p.SidPart? <==> p.tag in "OG")
  {
    hide GoodSid, SameLetters, NullOnce, Spellings;
  }

  /** What a component said stays said when none of the later ones has its tag. */
  lemma NotAgain(p: Part, more: seq<Part>, from: Tree, u: Tree, t: Tree, o: Options)
    requires GoodPart(p) && u == Updated(p.tag, from, u) && PartSays(p, u, o) && PartsSay(more, u, t, o)
    ensures !Tagged(more, p.tag) ==> PartSays(p, t, o) && Updated(p.tag, from, t) == u
  {
    hide GoodPart, AclSays, ParseSidText, SidText, Tagged;
    OneTagKnown(p);
  }

  // --- the theorem -----------------------------------------------------

  /** A text without the white space around it. */
  function Trimmed(s: string): string { TrimRight(TrimLeft(s)) }

  predicate White(s: string) { ConditionLexer.All(s, IsSpace) }

  /** Some grammatical text says `t`. */
  ghost predicate Says(text: string, t: Tree, o: Options) {
    exists parts :: PartsText(parts) == text && Grammatical(parts) && PartsSay(parts, EMPTY, t, o)
  }

  /** A text denotes exactly what the grammar says, and nothing when it is not of the grammar. */
  lemma TextIsGrammar(s: string, t: Tree, o: Options)
    ensures TreeOf(s, o) == Some(t) <==> Says(Trimmed(s), t, o)
  {
    hide ScanParts, PartsSay, Grammatical;
    var text := Trimmed(s);
    if TreeOf(s, o) == Some(t) {
      var parts := ScannedIsParts(text, EMPTY, NOTHING, o);
    }
    if Says(text, t, o) {
      var parts :| PartsText(parts) == text && Grammatical(parts) && PartsSay(parts, EMPTY, t, o);
      NothingMet(parts);
      PartsTaken(parts, t, EMPTY, NOTHING, o);
    }
  }

  lemma NothingMet(parts: seq<Part>)
    ensures Unmet(parts, NOTHING)
  {
  }

  /** White space around a text means nothing. */
  lemma TrimmedIsInner(a: string, s: string, b: string)
    requires White(a) && White(b) && (s == "" || (!IsSpace(s[0]) && !IsSpace(s[|s| - 1])))
    ensures Trimmed(a + s + b) == s
  {
    hide IsSpace;
    LeftTrimmed(a, s + b);
    assert a + s + b == a + (s + b);
    if s == "" {
      assert s + b == b;
      LeftTrimmed(b, "");
      assert b + "" == b;
    } else {
      assert TrimLeft(s + b) == s + b;
      RightTrimmed(s, b);
    }
  }

  lemma {:induction false} LeftTrimmed(a: string, s: string)
    requires White(a)
    ensures TrimLeft(a + s) == TrimLeft(s)
  {
    hide IsSpace;
    if a == "" {
      assert a + s == s;
    } else {
      assert (a + s)[1..] == a[1..] + s;
      LeftTrimmed(a[1..], s);
    }
  }

  lemma {:induction false} RightTrimmed(s: string, b: string)
    requires White(b) && (s == "" || !IsSpace(s[|s| - 1]))
    ensures TrimRight(s + b) == s
  {
    hide IsSpace;
    if b == "" {
      assert s + b == s;
    } else {
      assert (s + b)[..|s + b| - 1] == s + b[..|b| - 1];
      RightTrimmed(s, b[..|b| - 1]);
    }
  }
}
