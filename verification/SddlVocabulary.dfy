/**
 What the words and numerals of SDDL text mean, against the standard rather than against what Format writes: every
 mask and integer there is, the bits of each right, the type of each tag, the flag of each code, octets and GUIDs
 (sections 2.4.3, 2.4.4.1 and 2.5.1.1 of MS-DTYP, section 4 of RFC 4122).
 */
module SddlVocabulary {
  import opened Wrappers
  import opened Bytes
  import opened Numerals
  import opened Aces
  import opened SddlTables

  // --- numerals --------------------------------------------------------

  const LOWER := "0123456789abcdef"
  const UPPER := "0123456789ABCDEF"

  /** Whether a character is the digit of value `d`. */
  predicate Spells(c: char, d: nat) {
    d < 16 && (c == LOWER[d] || c == UPPER[d])
  }

  lemma DigitIsSpelled(c: char, d: nat)
    requires d < 16
    ensures DigitValue(c) == Some(d) <==> Spells(c, d)
  {
    if d < 10 {
      assert LOWER[d] == UPPER[d] == '0' + d as char by { DecimalDigits(d); }
    } else {
      LetterDigits(d);
    }
  }

  lemma DecimalDigits(d: nat)
    requires d < 10
    ensures LOWER[d] == UPPER[d] == '0' + d as char
  {
  }

  lemma LetterDigits(d: nat)
    requires 10 <= d < 16
    ensures LOWER[d] == 'a' + (d - 10) as char && UPPER[d] == 'A' + (d - 10) as char
  {
  }

  function Power(base: nat, n: nat): nat {
    if n == 0 then 1 else base * Power(base, n - 1)
  }

  /** The number of which `ds` are the digits, each counting for its place. */
  function Sum(ds: seq<nat>, base: nat): nat {
    if ds == [] then 0 else ds[0] * Power(base, |ds| - 1) + Sum(ds[1..], base)
  }

  lemma {:induction false} SumOfMore(ds: seq<nat>, d: nat, base: nat)
    ensures Sum(ds + [d], base) == Sum(ds, base) * base + d
  {
    if ds == [] {
      assert [] + [d] == [d] && [d][1..] == [];
      assert Power(base, 0) == 1;
    } else {
      SumOfMore(ds[1..], d, base);
      assert (ds + [d])[1..] == ds[1..] + [d];
      var p := Power(base, |ds| - 1);
      assert Power(base, |ds|) == base * p;
      assert ds[0] * (base * p) == (ds[0] * p) * base;
      Distribute(ds[0] * p, Sum(ds[1..], base), base);
    }
  }

  lemma Distribute(a: nat, b: nat, c: nat)
    ensures (a + b) * c == a * c + b * c
  {
  }

  predicate Spelled(s: string, ds: seq<nat>, base: nat) {
    |s| == |ds| && forall i :: 0 <= i < |s| ==> ds[i] < base && Spells(s[i], ds[i])
  }

  /** A run of digits, in either case, denotes their sum by places. */
  lemma {:induction false} ValueIsSum(s: string, ds: seq<nat>, base: nat)
    requires base <= 16 && Spelled(s, ds, base)
    ensures Value(s, base) == Some(Sum(ds, base))
  {
    hide Spells;
    if s != "" {
      var n := |s| - 1;
      ValueIsSum(s[..n], ds[..n], base);
      DigitIsSpelled(s[n], ds[n]);
      SumOfMore(ds[..n], ds[n], base);
      assert ds == ds[..n] + [ds[n]];
    }
  }

  /** And nothing else is a number. */
  lemma {:induction false} ValueIsSpelled(s: string, base: nat) returns (ds: seq<nat>)
    requires base <= 16 && Value(s, base).Some?
    ensures Spelled(s, ds, base)
  {
    hide Spells;
    ds := [];
    if s != "" {
      var n := |s| - 1;
      ds := ValueIsSpelled(s[..n], base);
      DigitIsSpelled(s[n], DigitValue(s[n]).value);
      ds := ds + [DigitValue(s[n]).value];
    }
  }

  predicate IsSign(sign: string) { sign == "" || sign == "+" || sign == "-" }

  /** A digit is no sign and no prefix letter; only zero is spelled as zero. */
  lemma DigitOfBase(c: char, d: nat, base: nat)
    requires base in {2, 8, 10, 16} && d < base && Spells(c, d)
    ensures c != '-' && c != '+'
    ensures d != 0 ==> c != '0'
    ensures base <= 10 ==> '0' <= c <= '9'
  {
    DigitIsSpelled(c, d);
    hide Spells;
  }

  function Bounded(sign: string, v: Option<nat>): Option<int> {
    match v
    case None => None
    case Some(n) =>
      var i := if sign == "-" then -(n as int) else n;
      if -TWO_63 <= i < TWO_63 then Some(i) else None
  }

  lemma Signed(sign: string, s: string)
    requires IsSign(sign) && s != "" && s[0] != '-' && s[0] != '+'
    ensures ParseInt0(sign + s) == Bounded(sign, ParseUint0(s))
  {
    hide ParseUint0;
    if sign == "" {
      assert sign + s == s;
    } else {
      assert (sign + s)[1..] == s && (sign + s)[0] == sign[0];
    }
  }

  /** The base a prefix stands for. */
  function BaseOf(prefix: string): nat {
    if prefix == "" then 10 else if prefix == "0" then 8
    else if |prefix| == 2 && prefix[0] == '0' then
      var c := Lower(prefix[1]);
      if c == 'x' then 16 else if c == 'o' then 8 else if c == 'b' then 2 else 0
    else 0
  }

  /** Which digits may follow a prefix: some, unless it is itself a zero; in decimal, not a zero first. */
  predicate MayFollow(prefix: string, digits: string) {
    && BaseOf(prefix) != 0 && (prefix != "0" ==> digits != "")
    && (prefix == "" ==> digits[0] != '0' && digits[0] != '+' && digits[0] != '-')
  }

  /** A sign or none, a prefix or none, and digits: an integer if 64 bits hold it. */
  ghost predicate IntegerSays(s: string, i: int) {
    exists sign, prefix, digits :: s == sign + (prefix + digits) && IsSign(sign) && MayFollow(prefix, digits)
                                   && Bounded(sign, Value(digits, BaseOf(prefix))) == Some(i)
  }

  lemma NumeralIsRead(prefix: string, digits: string)
    requires MayFollow(prefix, digits) && Value(digits, BaseOf(prefix)).Some?
    ensures ParseUint0(prefix + digits) == Value(digits, BaseOf(prefix))
    ensures var s := prefix + digits; s != "" && s[0] != '-' && s[0] != '+'
  {
    var s := prefix + digits;
    if prefix == "" {
      assert s == digits;
      hide Value;
    } else if prefix == "0" {
      assert s[1..] == digits;
      if digits != "" {
        FirstDigit(digits, 8);
        assert s[1] == digits[0];
      }
      hide Value;
    } else {
      assert s[2..] == digits && s[1] == prefix[1];
      hide Value;
    }
  }

  lemma FirstDigit(digits: string, base: nat)
    requires digits != "" && base <= 16 && Value(digits, base).Some?
    ensures '0' <= digits[0] <= '9' || 'a' <= Lower(digits[0]) <= 'f'
    ensures base <= 10 ==> '0' <= digits[0] <= '9'
  {
    var ds := ValueIsSpelled(digits, base);
    DigitIsSpelled(digits[0], ds[0]);
    hide Value, Spells;
  }

  lemma ReadIsNumeral(s: string) returns (prefix: string, digits: string)
    requires s != "" && s[0] != '-' && s[0] != '+' && ParseUint0(s).Some?
    ensures s == prefix + digits && MayFollow(prefix, digits) && Value(digits, BaseOf(prefix)) == ParseUint0(s)
  {
    hide Value;
    prefix, digits := "", s;
    if s[0] == '0' {
      if |s| >= 3 && Lower(s[1]) in "box" {
        prefix, digits := s[..2], s[2..];
      } else {
        prefix, digits := "0", s[1..];
      }
    }
  }

  /** An integer token denotes the integer its numeral says, and nothing if it is no such numeral. */
  lemma IntegerIsNumeral(s: string, i: int)
    ensures ParseInt0(s) == Some(i) <==> IntegerSays(s, i)
  {
    hide Value, BaseOf, MayFollow, ParseUint0;
    if ParseInt0(s) == Some(i) {
      var sign := if s[0] == '-' || s[0] == '+' then s[..1] else "";
      var rest := s[|sign|..];
      assert s == sign + rest;
      SignedRest(s, sign, rest);
      var prefix, digits := ReadIsNumeral(rest);
      assert Bounded(sign, Value(digits, BaseOf(prefix))) == Some(i);
    }
    if IntegerSays(s, i) {
      var sign, prefix, digits :| s == sign + (prefix + digits) && IsSign(sign) && MayFollow(prefix, digits)
                                  && Bounded(sign, Value(digits, BaseOf(prefix))) == Some(i);
      NumeralIsRead(prefix, digits);
      Signed(sign, prefix + digits);
    }
  }

  /** In particular the hex digits of a number behind 0x, in either case, are that number. */
  lemma HexadecimalInteger(sign: string, x: char, s: string, ds: seq<nat>)
    requires IsSign(sign) && Lower(x) == 'x' && s != "" && Spelled(s, ds, 16)
    ensures ParseInt0(sign + (['0', x] + s)) == Bounded(sign, Some(Sum(ds, 16)))
  {
    ValueIsSum(s, ds, 16);
    hide ParseInt0, ParseUint0, Value, Spells, Sum, Bounded;
    NumeralIsRead(['0', x], s);
    Signed(sign, ['0', x] + s);
  }

  /** Only one sign is taken: what follows it opens no other. */
  lemma SignedRest(s: string, sign: string, rest: string)
    requires ParseInt0(s).Some? && s == sign + rest
    requires sign == if s[0] == '-' || s[0] == '+' then s[..1] else ""
    ensures rest != "" && rest[0] != '-' && rest[0] != '+' && ParseUint0(rest).Some?
    ensures ParseInt0(s) == Bounded(sign, ParseUint0(rest)) && IsSign(sign)
  {
    assert ParseUint0(rest).Some? by {
      if sign == "" {
        assert rest == s;
      } else {
        assert s[1..] == rest;
      }
    }
    if rest != "" && rest[0] != '0' {
      FirstDigit(rest, 10);
    }
    hide Value, ParseUint0;
    Signed(sign, rest);
  }

  // --- masks -----------------------------------------------------------

  /** A mask in decimal, leading zeros and all: its value, if 32 bits hold it. */
  lemma DecimalMask(s: string, ds: seq<nat>)
    requires s != "" && Spelled(s, ds, 10)
    ensures MaskOfText(s) == if Sum(ds, 10) < TWO_32 then Some(Sum(ds, 10) as u32) else None
  {
    ValueIsSum(s, ds, 10);
    forall i | 0 <= i < |s|
      ensures '0' <= s[i] <= '9'
    {
      DigitOfBase(s[i], ds[i], 10);
    }
    hide Value, Spells, Rights, Sum;
  }

  /** In particular the numeral of a number: in range it is the mask, beyond 32 bits it is none. */
  lemma NumeralMask(n: nat)
    ensures MaskOfText(Digits(n, 10)) == if n < TWO_32 then Some(n as u32) else None
  {
    ValueOfDigits(n, 10);
    hide Value, Digits, Rights;
  }

  // --- rights ----------------------------------------------------------

  /** Bit `k` of a number. */
  predicate BitOf(n: nat, k: nat) {
    if k == 0 then n % 2 == 1 else BitOf(n / 2, k - 1)
  }

  /** A union of masks has exactly the bits of either. */
  lemma {:induction false} UnionBits(a: nat, b: nat, k: nat)
    ensures BitOf(Union(a, b), k) <==> BitOf(a, k) || BitOf(b, k)
    decreases k
  {
    UnionHalves(a, b);
    if k == 0 {
      hide Union;
    } else {
      UnionBits(a / 2, b / 2, k - 1);
      hide Union;
    }
  }

  // The bits of an access mask: generic, standard, and specific to files.
  const GENERIC_READ: u32 := 0x8000_0000
  const GENERIC_WRITE: u32 := 0x4000_0000
  const GENERIC_EXECUTE: u32 := 0x2000_0000
  const GENERIC_ALL: u32 := 0x1000_0000
  const SYNCHRONIZE: u32 := 0x10_0000
  const WRITE_OWNER: u32 := 0x8_0000
  const WRITE_DAC: u32 := 0x4_0000
  const DELETE: u32 := 0x1_0000
  const READ_DATA: u32 := 0x1
  const WRITE_DATA: u32 := 0x2
  const APPEND_DATA: u32 := 0x4
  const READ_EA: u32 := 0x8
  const WRITE_EA: u32 := 0x10
  const EXECUTE: u32 := 0x20
  const DELETE_CHILD: u32 := 0x40
  const READ_ATTRIBUTES: u32 := 0x80
  const WRITE_ATTRIBUTES: u32 := 0x100

  /** One code by itself. */
  function Right(a: char, b: char): Option<u32> { MaskOfText([a, b]) }

  lemma RightIsCode(a: char, b: char)
    requires RightBits(a, b).Some?
    ensures Right(a, b) == RightBits(a, b)
  {
    var s := [a, b];
    assert s[2..] == "" && s[0] == a && s[1] == b;
    assert !('0' <= s[0] <= '9');
    NoBits(RightBits(a, b));
    hide Or, Union;
  }

  lemma StandardRights()
    ensures Right('G', 'R') == Some(GENERIC_READ) && Right('G', 'W') == Some(GENERIC_WRITE)
    ensures Right('G', 'X') == Some(GENERIC_EXECUTE) && Right('G', 'A') == Some(GENERIC_ALL)
    ensures Right('W', 'O') == Some(WRITE_OWNER) && Right('W', 'D') == Some(WRITE_DAC)
    ensures Right('R', 'C') == Some(READ_CONTROL) && Right('S', 'D') == Some(DELETE)
  {
    hide Right;
    RightIsCode('G', 'R'); RightIsCode('G', 'W'); RightIsCode('G', 'X'); RightIsCode('G', 'A');
    RightIsCode('W', 'O'); RightIsCode('W', 'D'); RightIsCode('R', 'C'); RightIsCode('S', 'D');
  }

  /** A file right is the standard and file-specific bits it stands for. */
  lemma FileRights()
    ensures Right('F', 'R') == Some(READ_CONTROL + SYNCHRONIZE + READ_DATA + READ_EA + READ_ATTRIBUTES)
    ensures Right('F', 'W') == Some(READ_CONTROL + SYNCHRONIZE + WRITE_DATA + APPEND_DATA + WRITE_EA + WRITE_ATTRIBUTES)
    ensures Right('F', 'X') == Some(READ_CONTROL + SYNCHRONIZE + EXECUTE + READ_ATTRIBUTES)
    ensures Right('F', 'A') == Some(DELETE + READ_CONTROL + WRITE_DAC + WRITE_OWNER + SYNCHRONIZE + READ_DATA + WRITE_DATA
                                    + APPEND_DATA + READ_EA + WRITE_EA + EXECUTE + DELETE_CHILD + READ_ATTRIBUTES
                                    + WRITE_ATTRIBUTES)
  {
    hide Right;
    RightIsCode('F', 'R'); RightIsCode('F', 'W'); RightIsCode('F', 'X'); RightIsCode('F', 'A');
  }

  /** The rights of a directory service, and the policy of a mandatory label: bit by bit from the lowest. */
  lemma ServiceRights()
    ensures Right('C', 'C') == Some(0x1) && Right('D', 'C') == Some(0x2) && Right('L', 'C') == Some(0x4)
    ensures Right('S', 'W') == Some(0x8) && Right('R', 'P') == Some(0x10) && Right('W', 'P') == Some(0x20)
    ensures Right('D', 'T') == Some(0x40) && Right('L', 'O') == Some(0x80) && Right('C', 'R') == Some(0x100)
    ensures Right('N', 'W') == Some(0x1) && Right('N', 'R') == Some(0x2) && Right('N', 'X') == Some(0x4)
  {
    hide Right;
    RightIsCode('C', 'C'); RightIsCode('D', 'C'); RightIsCode('L', 'C');
    RightIsCode('S', 'W'); RightIsCode('R', 'P'); RightIsCode('W', 'P');
    RightIsCode('D', 'T'); RightIsCode('L', 'O'); RightIsCode('C', 'R');
    RightIsCode('N', 'W'); RightIsCode('N', 'R'); RightIsCode('N', 'X');
  }

  /** The two-letter rights: each letter with the letters that may follow it. */
  function SecondLetters(a: char): string {
    match a
    case 'G' => "ARWX" case 'F' => "ARWX" case 'N' => "WRX" case 'W' => "DOP" case 'R' => "CP"
    case 'S' => "DW" case 'D' => "CT" case 'L' => "CO" case 'C' => "CR" case _ => ""
  }

  /** There are no others. */
  lemma OnlyRights(a: char, b: char)
    ensures RightBits(a, b).Some? <==> b in SecondLetters(a)
  {
  }

  /** A hex literal and the mask it denotes. */
  predicate HexLiteral(s: string, m: u32) {
    |s| > 2 && s[0] == '0' && (s[1] == 'x' || s[1] == 'X') && Value(s[2..], 16) == Some(m as nat)
  }

  /** Rights, and a hex literal after them or nothing: the union of what they name. */
  ghost predicate RightsSay(s: string, m: u32) {
    exists codes, tail, bits: u32 ::
      && s == codes + tail && Codewise(codes)
      && (if tail == "" then bits == 0 else HexLiteral(tail, bits))
      && Some(m) == Both(Rights(codes), Some(bits))
  }

  /** A mask is a decimal number of 32 bits, or rights; nothing else. */
  lemma MaskIsGrammar(s: string, m: u32)
    ensures MaskOfText(s) == Some(m)
       <==> if s != "" && Decimal(s) then Value(s, 10) == Some(m as nat) else RightsSay(s, m)
  {
    hide Rights, Value, RightsSay;
    if !(s != "" && Decimal(s)) {
      if Rights(s) == Some(m) {
        RightsAreCut(s, m);
      }
      if RightsSay(s, m) {
        CutIsRead(s, m);
      }
    }
  }

  lemma HexIsLiteral(s: string, m: u32)
    requires HexPrefix(s)
    ensures HexMask(s) == Some(m) <==> HexLiteral(s, m)
  {
    hide Value;
  }

  lemma CutIsRead(s: string, m: u32)
    requires RightsSay(s, m)
    ensures Rights(s) == Some(m)
  {
    hide Value, Both, Or, HexLiteral;
    var codes, tail, bits: u32 :| s == codes + tail && Codewise(codes)
                                  && (if tail == "" then bits == 0 else HexLiteral(tail, bits))
                                  && Some(m) == Both(Rights(codes), Some(bits));
    RightsUnite(codes, tail);
    TailRights(tail, bits);
  }

  lemma TailRights(tail: string, bits: u32)
    requires if tail == "" then bits == 0 else HexLiteral(tail, bits)
    ensures Rights(tail) == Some(bits)
  {
    if tail != "" {
      HexIsLiteral(tail, bits);
    }
    hide Value;
  }

  lemma {:induction false} RightsAreCut(s: string, m: u32)
    requires Rights(s) == Some(m)
    ensures RightsSay(s, m)
    decreases |s|
  {
    hide Value, RightBits, HexLiteral;
    if s == "" {
      NoBits(Rights(""));
      Witness(s, "", "", 0, m);
    } else if HexPrefix(s) {
      HexIsLiteral(s, m);
      NoBits(Some(m));
      Witness(s, "", s, m, m);
    } else {
      OneRight(s);
      var first, more := RightBits(s[0], s[1]).value, Rights(s[2..]).value;
      RightsAreCut(s[2..], more);
      var codes, tail, bits: u32 :| s[2..] == codes + tail && Codewise(codes)
                                    && (if tail == "" then bits == 0 else HexLiteral(tail, bits))
                                    && Some(more) == Both(Rights(codes), Some(bits));
      MoreCodes(s, codes, tail, bits, first, more);
      Witness(s, s[..2] + codes, tail, bits, m);
    }
  }

  lemma OneRight(s: string)
    requires s != "" && !HexPrefix(s) && Rights(s).Some?
    ensures |s| >= 2 && RightBits(s[0], s[1]).Some? && Rights(s[2..]).Some?
    ensures Rights(s) == Some(Or(RightBits(s[0], s[1]).value, Rights(s[2..]).value))
  {
    hide RightBits, Or, HexMask;
  }

  lemma MoreCodes(s: string, codes: string, tail: string, bits: u32, first: u32, more: u32)
    requires |s| >= 2 && RightBits(s[0], s[1]) == Some(first) && s[2..] == codes + tail && Codewise(codes)
    requires Some(more) == Both(Rights(codes), Some(bits))
    ensures var all := s[..2] + codes;
            s == all + tail && Codewise(all) && Both(Rights(all), Some(bits)) == Some(Or(first, more))
  {
    var all := s[..2] + codes;
    assert all[0] == s[0] && all[1] == s[1] && all[2..] == codes;
    CodeIsNoHex(all);
    hide RightBits, Or, HexMask;
    OrAssociates(first, Rights(codes).value, bits);
  }

  lemma Witness(s: string, codes: string, tail: string, bits: u32, m: u32)
    requires s == codes + tail && Codewise(codes) && (if tail == "" then bits == 0 else HexLiteral(tail, bits))
    requires Some(m) == Both(Rights(codes), Some(bits))
    ensures RightsSay(s, m)
  {
  }

  // --- types and flags -------------------------------------------------

  /** The types of section 2.4.4.1 that the tags name. */
  lemma TagsNameTypes()
    ensures TypeOfTag(['A']) == Some(ALLOWED) && TypeOfTag(['D']) == Some(DENIED)
    ensures TypeOfTag(['A', 'U']) == Some(AUDIT) && TypeOfTag(['A', 'L']) == Some(ALARM)
    ensures TypeOfTag(['O', 'A']) == Some(ALLOWED_OBJECT) && TypeOfTag(['O', 'D']) == Some(0x06)
    ensures TypeOfTag(['O', 'U']) == Some(0x07) && TypeOfTag(['O', 'L']) == Some(ALARM_OBJECT)
    ensures TypeOfTag(['X', 'A']) == Some(ALLOWED_CALLBACK) && TypeOfTag(['X', 'D']) == Some(DENIED_CALLBACK)
    ensures TypeOfTag(['Z', 'A']) == Some(ALLOWED_CALLBACK_OBJECT) && TypeOfTag(['X', 'U']) == Some(AUDIT_CALLBACK)
    ensures TypeOfTag(['M', 'L']) == Some(MANDATORY_LABEL)
  {
  }

  /** The flag bits of section 2.4.4.1, code by code, lowest bit first. */
  lemma CodesNameFlags()
    ensures Coded('O', 'I', 0x01) && Coded('C', 'I', 0x02) && Coded('N', 'P', 0x04) && Coded('I', 'O', 0x08)
    ensures Coded('I', 'D', 0x10) && Coded('S', 'A', 0x40) && Coded('F', 'A', 0x80)
  {
    hide WithFlags;
    OneCode('O', 'I'); OneCode('C', 'I'); OneCode('N', 'P'); OneCode('I', 'O');
    OneCode('I', 'D'); OneCode('S', 'A'); OneCode('F', 'A');
  }

  /** A code by itself is the flags byte with that bit. */
  predicate Coded(a: char, b: char, bit: byte) {
    match FlagsOfText([a, b]) case None => false case Some(f) => FlagsByte(f) == bit
  }

  lemma OneCode(a: char, b: char)
    requires Flagged(NO_FLAGS, a, b).Some?
    ensures FlagsOfText([a, b]) == Flagged(NO_FLAGS, a, b)
  {
    hide Flagged;
    var s := [a, b];
    assert s[2..] == "" && s[0] == a && s[1] == b;
    assert WithFlags(NO_FLAGS, s) == match Flagged(NO_FLAGS, a, b) case None => None case Some(g) => WithFlags(g, "");
  }

  type FlagPair = (char, char)

  /** Flag codes one after another. */
  function FlagCodes(codes: seq<FlagPair>): string {
    if codes == [] then "" else [codes[0].0, codes[0].1] + FlagCodes(codes[1..])
  }

  predicate KnownFlag(c: FlagPair) {
    || c == ('O', 'I') || c == ('C', 'I') || c == ('N', 'P') || c == ('I', 'O')
    || c == ('I', 'D') || c == ('S', 'A') || c == ('F', 'A')
  }

  predicate KnownFlags(codes: seq<FlagPair>) { forall i :: 0 <= i < |codes| ==> KnownFlag(codes[i]) }

  /** `f` with the flags whose codes are among `codes`. */
  function Raised(f: Flags, codes: seq<FlagPair>): Flags {
    f.(oi := f.oi || ('O', 'I') in codes, ci := f.ci || ('C', 'I') in codes, np := f.np || ('N', 'P') in codes,
       io := f.io || ('I', 'O') in codes, inherited := f.inherited || ('I', 'D') in codes,
       success := f.success || ('S', 'A') in codes, failure := f.failure || ('F', 'A') in codes)
  }

  lemma RaisedMore(f: Flags, codes: seq<FlagPair>)
    requires codes != []
    ensures Raised(f, codes) == Raised(Raised(f, [codes[0]]), codes[1..])
  {
    assert codes == [codes[0]] + codes[1..];
  }

  lemma OneFlag(f: Flags, a: char, b: char)
    ensures Flagged(f, a, b) == if KnownFlag((a, b)) then Some(Raised(f, [(a, b)])) else None
  {
  }

  lemma {:induction false} CodesRaise(f: Flags, codes: seq<FlagPair>)
    requires KnownFlags(codes)
    ensures WithFlags(f, FlagCodes(codes)) == Some(Raised(f, codes))
    decreases codes
  {
    hide KnownFlag, Raised, Flagged;
    if codes == [] {
      NoneRaised(f);
    } else {
      var (a, b) := codes[0];
      var s, g := FlagCodes(codes), Raised(f, [codes[0]]);
      assert s[0] == a && s[1] == b && s[2..] == FlagCodes(codes[1..]);
      OneFlag(f, a, b);
      RaisedMore(f, codes);
      CodesRaise(g, codes[1..]);
    }
  }

  lemma NoneRaised(f: Flags)
    ensures Raised(f, []) == f
  {
  }

  lemma {:induction false} RaisedByCodes(f: Flags, s: string) returns (codes: seq<FlagPair>)
    requires WithFlags(f, s).Some?
    ensures KnownFlags(codes) && s == FlagCodes(codes)
    decreases |s|
  {
    hide KnownFlag, Flagged;
    codes := [];
    if s != "" {
      OneFlag(f, s[0], s[1]);
      var more := RaisedByCodes(Flagged(f, s[0], s[1]).value, s[2..]);
      codes := [(s[0], s[1])] + more;
      assert codes[1..] == more && s == [s[0], s[1]] + s[2..];
    }
  }

  /** A run of known codes and nothing else is flags: those it names, in any order and however often. */
  lemma FlagsAreCodes(s: string, f: Flags)
    ensures FlagsOfText(s) == Some(f)
       <==> exists codes :: KnownFlags(codes) && s == FlagCodes(codes) && f == Raised(NO_FLAGS, codes)
  {
    hide WithFlags, Raised;
    if FlagsOfText(s) == Some(f) {
      var codes := RaisedByCodes(NO_FLAGS, s);
      CodesRaise(NO_FLAGS, codes);
    }
    if codes :| KnownFlags(codes) && s == FlagCodes(codes) && f == Raised(NO_FLAGS, codes) {
      CodesRaise(NO_FLAGS, codes);
    }
  }

  // --- octets ----------------------------------------------------------

  /** Octets in hex: two digits for each, in either case, the high one first. */
  predicate OctetsSay(s: string, data: seq<byte>) {
    |s| == 2 * |data| && forall i :: 0 <= i < |data| ==> Value(s[2 * i..2 * i + 2], 16) == Some(data[i] as nat)
  }

  lemma PairValue(s: string, b: byte)
    requires |s| == 2
    ensures Value(s, 16) == Some(b as nat)
       <==> HexDigit(s[0]).Some? && HexDigit(s[1]).Some? && b as nat == 16 * HexDigit(s[0]).value + HexDigit(s[1]).value
  {
    var one := s[..1];
    assert one[..0] == "" && Value("", 16) == Some(0);
    assert Value(one, 16) == match HexDigit(s[0]) case None => None case Some(d) => Some(d);
  }

  lemma {:induction false} OctetsAreHex(s: string, data: seq<byte>)
    ensures HexDecode(s) == Some(data) <==> OctetsSay(s, data)
    decreases |s|
  {
    if |s| >= 2 && data != [] {
      PairValue(s[..2], data[0]);
      OctetsAreHex(s[2..], data[1..]);
      OctetsSayMore(s, data);
      hide Value, HexDigit, OctetsSay;
      assert data == [data[0]] + data[1..];
    }
  }

  lemma OctetsSayMore(s: string, data: seq<byte>)
    requires |s| >= 2 && data != []
    ensures OctetsSay(s, data) <==> Value(s[..2], 16) == Some(data[0] as nat) && OctetsSay(s[2..], data[1..])
  {
    hide Value;
    assert s[0..2] == s[..2];
    forall i | 0 <= i < |data| - 1 && |s| == 2 * |data|
      ensures s[2..][2 * i..2 * i + 2] == s[2 * (i + 1)..2 * (i + 1) + 2] && data[1..][i] == data[i + 1]
    {
    }
    if OctetsSay(s[2..], data[1..]) && Value(s[..2], 16) == Some(data[0] as nat) {
      forall i | 0 <= i < |data|
        ensures Value(s[2 * i..2 * i + 2], 16) == Some(data[i] as nat)
      {
        if i > 0 {
          assert Value(s[2..][2 * (i - 1)..2 * (i - 1) + 2], 16) == Some(data[1..][i - 1] as nat);
        }
      }
    }
    if OctetsSay(s, data) {
      assert Value(s[2 * 0..2 * 0 + 2], 16) == Some(data[0] as nat);
      forall i | 0 <= i < |data| - 1
        ensures Value(s[2..][2 * i..2 * i + 2], 16) == Some(data[1..][i] as nat)
      {
        assert Value(s[2 * (i + 1)..2 * (i + 1) + 2], 16) == Some(data[i + 1] as nat);
      }
    }
  }

  // --- GUIDs -----------------------------------------------------------

  /** The text of a GUID shows its first three fields as numbers and the other eight bytes in order. */
  lemma GuidFields(g: Guid)
    ensures var s := GuidText(g);
            && Value(s[..8], 16) == Some(Word32(g)) && Value(s[9..13], 16) == Some(Word16(g[4..]))
            && Value(s[14..18], 16) == Some(Word16(g[6..]))
            && s[19..23] + s[24..] == HexEncode(g[8..])
  {
    GuidSlices(g);
    hide HexEncode, Value, GuidText;
    ValueOfFour(g[3], g[2], g[1], g[0]);
    ValueOfTwo(g[5], g[4]);
    ValueOfTwo(g[7], g[6]);
  }

  /** A GUID in text: groups of 8, 4, 4, 4 and 12 digits in either case, the first three fields high byte first. */
  predicate GuidSays(s: string, g: Guid) {
    && |s| == 36 && s[8] == s[13] == s[18] == s[23] == '-'
    && OctetsSay(s[..8] + s[9..13] + s[14..18] + s[19..23] + s[24..],
                 [g[3], g[2], g[1], g[0], g[5], g[4], g[7], g[6]] + g[8..])
  }

  /** A text is a GUID exactly if it is so grouped. */
  lemma GuidIsRead(s: string, g: Guid)
    ensures GuidOfText(s) == Some(g) <==> GuidSays(s, g)
  {
    hide OctetsSay, HexDecode;
    if Undashed(s).Some? {
      var h := Undashed(s).value;
      OctetsAreHex(h, Shown(g));
      ShownTwice(g);
      if HexDecode(h).Some? && |HexDecode(h).value| == 16 {
        ShownTwice(HexDecode(h).value);
      }
    }
  }

  lemma GuidSlices(g: Guid)
    ensures var s := GuidText(g);
            && s[..8] == HexEncode([g[3], g[2], g[1], g[0]]) && s[9..13] == HexEncode([g[5], g[4]])
            && s[14..18] == HexEncode([g[7], g[6]]) && s[19..23] + s[24..] == HexEncode(g[8..])
  {
    hide HexEncode;
    var b := Shown(g);
    TextSlices(HexEncode(b));
    HexSlice(b, 0, 4);
    HexSlice(b, 4, 6);
    HexSlice(b, 6, 8);
    HexSlice(b, 8, 16);
    ShownParts(g);
  }

  lemma ShownParts(g: Guid)
    ensures var b := Shown(g);
            b[0..4] == [g[3], g[2], g[1], g[0]] && b[4..6] == [g[5], g[4]] && b[6..8] == [g[7], g[6]] && b[8..16] == g[8..]
  {
  }

  lemma TextSlices(h: string)
    requires |h| == 32
    ensures var s := h[..8] + "-" + h[8..12] + "-" + h[12..16] + "-" + h[16..20] + "-" + h[20..];
            && |s| == 36 && s[..8] == h[0..8] && s[9..13] == h[8..12] && s[14..18] == h[12..16]
            && s[19..23] + s[24..] == h[16..32]
  {
    var s := h[..8] + "-" + h[8..12] + "-" + h[12..16] + "-" + h[16..20] + "-" + h[20..];
    assert s[19..23] == h[16..20] && s[24..] == h[20..];
  }

  lemma HexSlice(b: seq<byte>, i: nat, j: nat)
    requires i <= j <= |b|
    ensures HexEncode(b)[2 * i..2 * j] == HexEncode(b[i..j])
  {
    hide HexEncode;
    CutInThree(b, i, j);
    HexOfJoin(b[..i], b[i..j] + b[j..]);
    HexOfJoin(b[i..j], b[j..]);
    MiddleOf(HexEncode(b[..i]), HexEncode(b[i..j]), HexEncode(b[j..]));
  }

  lemma CutInThree(b: seq<byte>, i: nat, j: nat)
    requires i <= j <= |b|
    ensures b == b[..i] + (b[i..j] + b[j..])
  {
  }

  lemma MiddleOf(x: string, y: string, z: string)
    ensures (x + (y + z))[|x|..|x| + |y|] == y
  {
  }

  function HexByte(x: byte): (s: string)
    ensures |s| == 2
  {
    [DigitChar(x as int / 16), DigitChar(x as int % 16)]
  }

  lemma HexFirst(b: seq<byte>)
    requires b != []
    ensures HexEncode(b) == HexByte(b[0]) + HexEncode(b[1..])
  {
    hide DigitChar;
  }

  lemma {:induction false} HexOfJoin(a: seq<byte>, b: seq<byte>)
    ensures HexEncode(a + b) == HexEncode(a) + HexEncode(b)
  {
    if a == [] {
      assert a + b == b;
    } else {
      hide HexEncode, HexByte;
      HexOfJoin(a[1..], b);
      assert (a + b)[1..] == a[1..] + b;
      HexFirst(a);
      HexFirst(a + b);
      JoinThree(HexByte(a[0]), HexEncode(a[1..]), HexEncode(b));
    }
  }

  lemma JoinThree(x: string, y: string, z: string)
    ensures x + (y + z) == x + y + z
  {
  }

  /** Two hex digits more. */
  lemma ValueOfByte(b: seq<byte>, v: nat, x: byte)
    requires Value(HexEncode(b), 16) == Some(v)
    ensures Value(HexEncode(b + [x]), 16) == Some(v * 256 + x as int)
  {
    HexOfJoin(b, [x]);
    HexFirst([x]);
    assert [x][1..] == [] && HexEncode([]) == "" && HexByte(x) + "" == HexByte(x);
    var s := HexEncode(b);
    hide HexEncode;
    ValueOfPair(s, v, x as int / 16, x as int % 16);
    assert HexByte(x) == [DigitChar(x as int / 16), DigitChar(x as int % 16)];
  }

  lemma ValueOfPair(s: string, v: nat, hi: nat, lo: nat)
    requires Value(s, 16) == Some(v) && hi < 16 && lo < 16
    ensures Value(s + [DigitChar(hi), DigitChar(lo)], 16) == Some((v * 16 + hi) * 16 + lo)
  {
    var h, l := DigitChar(hi), DigitChar(lo);
    var t := s + [h];
    assert t[..|s|] == s;
    assert Value(t, 16) == Some(v * 16 + hi);
    assert s + [h, l] == t + [l] && (t + [l])[..|t|] == t;
  }

  lemma ValueOfTwo(a: byte, b: byte)
    ensures Value(HexEncode([a, b]), 16) == Some(a as int * 256 + b as int)
  {
    assert HexEncode([]) == "" && Value("", 16) == Some(0);
    hide HexEncode, Value;
    ValueOfByte([], 0, a);
    assert [] + [a] == [a];
    ValueOfByte([a], a as int, b);
    assert [a] + [b] == [a, b];
  }

  lemma ValueOfFour(a: byte, b: byte, c: byte, d: byte)
    ensures Value(HexEncode([a, b, c, d]), 16) == Some(((a as int * 256 + b as int) * 256 + c as int) * 256 + d as int)
  {
    hide HexEncode, Value;
    ValueOfTwo(a, b);
    ValueOfByte([a, b], a as int * 256 + b as int, c);
    assert [a, b] + [c] == [a, b, c];
    ValueOfByte([a, b, c], (a as int * 256 + b as int) * 256 + c as int, d);
    assert [a, b, c] + [d] == [a, b, c, d];
  }
}
