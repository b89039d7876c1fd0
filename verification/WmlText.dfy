/** What text in a WML source means: character entities and white space
    (decode_entities and make_text of src/wap_gateway/wbxml.c), told apart from how
    the reader goes about it. */
module WmlText {
  import opened Ascii
  import opened WmlParser
  import opened WmlForm

  // ---- Numbers ---------------------------------------------------------------------------------

  /** The value of a digit in either case; 16 for any other character. */
  function Rank(c: char): nat { Find("0123456789abcdef", 0, Lower(c)) }

  predicate Numeric(d: string, radix: nat) { d != "" && forall i :: 0 <= i < |d| ==> Rank(d[i]) < radix }

  /** Positional notation: the last digit counts once, the ones before it ten or sixteen times. */
  function ValueOf(d: string, radix: nat): nat {
    if d == "" then 0
    else
      var v := ValueOf(d[..|d| - 1], radix);
      (if radix == 16 then v * 16 else v * 10) + Rank(d[|d| - 1])
  }

  /** What strtoul passes over in front of the digits. */
  predicate IsLead(p: string, radix: nat) {
    exists i :: 0 <= i <= |p| && (forall j :: 0 <= j < i ==> IsSpace(p[j])) && IsSign(p[i..], radix)
  }

  predicate IsSign(p: string, radix: nat) { p in ["", "+"] || (radix == 16 && p in ["0x", "0X", "+0x", "+0X"]) }

  /** The string is the number v. */
  ghost predicate Numeral(s: string, radix: nat, v: nat) {
    exists k :: 0 <= k <= |s| && IsLead(s[..k], radix) && Numeric(s[k..], radix) && ValueOf(s[k..], radix) == v
  }

  lemma DigitIs(c: char, radix: nat)
    requires radix <= 16
    ensures DigitIn(c, radix) == if Rank(c) < radix then Rank(c) else -1
  {
    hide Rank;
    if IsDigit(c) {
      RankOfDigit(c);
    } else if 'a' <= Lower(c) <= 'f' {
      RankOfLetter(c);
    } else {
      RankOfOther(c);
    }
  }

  lemma RankOfDigit(c: char)
    requires IsDigit(c)
    ensures Rank(c) == c as int - '0' as int
  {
    var hex := "0123456789abcdef";
    assert hex[c as int - '0' as int] == c;
    FindIs(hex, c, c as int - '0' as int);
  }

  lemma RankOfLetter(c: char)
    requires 'a' <= Lower(c) <= 'f'
    ensures Rank(c) == Lower(c) as int - 'a' as int + 10
  {
    var hex, l := "0123456789abcdef", Lower(c);
    assert hex[l as int - 'a' as int + 10] == l;
    FindIs(hex, l, l as int - 'a' as int + 10);
  }

  lemma RankOfOther(c: char)
    requires !IsDigit(c) && !('a' <= Lower(c) <= 'f')
    ensures Rank(c) == 16
  {
    FindIs("0123456789abcdef", Lower(c), 16);
  }

  lemma {:induction false} LastDigit(s: string, radix: nat, acc: nat)
    requires (radix == 10 || radix == 16) && Numeric(s, radix)
    ensures DigitsValue(s[..|s| - 1], radix, acc) >= 0
    ensures DigitsValue(s, radix, acc) == DigitsValue(s[..|s| - 1], radix, acc) * radix + Rank(s[|s| - 1])
  {
    hide Rank, DigitIn;
    DigitIs(s[0], radix);
    var d := Rank(s[0]);
    if |s| == 1 {
      assert s[1..] == "" && s[..0] == "";
    } else {
      LastDigit(s[1..], radix, acc * radix + d);
      assert s[..|s| - 1][1..] == s[1..][..|s| - 2];
    }
  }

  lemma {:induction false} DigitsAre(s: string, radix: nat)
    requires (radix == 10 || radix == 16) && Numeric(s, radix)
    ensures DigitsValue(s, radix, 0) == ValueOf(s, radix)
    decreases |s|
  {
    hide Rank, DigitIn;
    LastDigit(s, radix, 0);
    if |s| > 1 {
      DigitsAre(s[..|s| - 1], radix);
    } else {
      assert s[..0] == "";
    }
  }

  lemma {:induction false} OnlyDigits(s: string, radix: nat, acc: nat)
    requires radix <= 16 && DigitsValue(s, radix, acc) >= 0
    ensures forall i :: 0 <= i < |s| ==> Rank(s[i]) < radix
  {
    hide Rank, DigitIn;
    if s != "" {
      DigitIs(s[0], radix);
      OnlyDigits(s[1..], radix, acc * radix + DigitIn(s[0], radix));
    }
  }

  lemma {:induction false} BlanksSkipped(s: string, i: nat)
    requires i <= |s| && (forall j :: 0 <= j < i ==> IsSpace(s[j])) && (i < |s| ==> !IsSpace(s[i]))
    ensures SkipBlanks(s) == s[i..]
  {
    if i > 0 {
      BlanksSkipped(s[1..], i - 1);
      assert s[1..][i - 1..] == s[i..];
    }
  }

  lemma {:induction false} BlanksBefore(s: string) returns (i: nat)
    ensures i <= |s| && (forall j :: 0 <= j < i ==> IsSpace(s[j])) && SkipBlanks(s) == s[i..]
    ensures i < |s| ==> !IsSpace(s[i])
  {
    i := 0;
    if s != "" && IsSpace(s[0]) {
      i := BlanksBefore(s[1..]);
      assert s[1..][i..] == s[i + 1..];
      i := i + 1;
    }
  }

  /** What strtoul takes for the sign and the "0x", given where the blanks end. */
  function SignLen(t: string, radix: nat): nat {
    var n := if At(t, 0) == '+' then 1 else 0;
    if radix == 16 && At(t, n) == '0' && At(t, n + 1) in "xX" && DigitIn(At(t, n + 2), 16) >= 0 then n + 2 else n
  }

  lemma SignSkipped(s: string, radix: nat)
    requires radix <= 16
    ensures var t := SkipBlanks(s);
            SignLen(t, radix) <= |t| &&
            Strtoul(s, radix) == if At(t, 0) == '-' then -1 else DigitsValue(t[SignLen(t, radix)..], radix, 0)
  {
    hide DigitsValue, DigitIn, SkipBlanks;
    DigitIs(NUL, 16);
    FindIs("0123456789abcdef", NUL, 16);
    var t := SkipBlanks(s);
    if At(t, 0) == '+' {
      var u := t[1..];
      assert At(u, 0) == At(t, 1) && At(u, 1) == At(t, 2) && At(u, 2) == At(t, 3);
      if |u| >= 2 { assert u[2..] == t[3..]; }
    }
  }

  lemma SignForm(t: string, radix: nat)
    requires SignLen(t, radix) <= |t|
    ensures IsSign(t[..SignLen(t, radix)], radix)
  {
    hide DigitIn;
    var n := SignLen(t, radix);
    var p := t[..n];
    if n == 1 { assert p == "+"; }
    if n == 2 { assert p == ['0', t[1]]; }
    if n == 3 { assert p == ['+', '0', t[2]]; }
  }

  /** strtoul reads a numeral as its value, and nothing else as a number above 0. */
  lemma StrtoulReads(s: string, radix: nat, v: nat)
    requires v > 0 && (radix == 10 || radix == 16)
    ensures Strtoul(s, radix) == v <==> Numeral(s, radix, v)
  {
    hide Strtoul, Numeral;
    if Strtoul(s, radix) == v { StrtoulNumeral(s, radix, v); }
    if Numeral(s, radix, v) { NumeralStrtoul(s, radix, v); }
  }

  lemma StrtoulNumeral(s: string, radix: nat, v: nat)
    requires v > 0 && (radix == 10 || radix == 16) && Strtoul(s, radix) == v
    ensures Numeral(s, radix, v)
  {
    hide Strtoul, DigitsValue, DigitIn, Rank, ValueOf, IsSign;
    SignSkipped(s, radix);
    var i := BlanksBefore(s);
    var t := s[i..];
    var n := SignLen(t, radix);
    var d := t[n..];
    NoDigits(radix);
    OnlyDigits(d, radix, 0);
    DigitsAre(d, radix);
    SignForm(t, radix);
    var k := i + n;
    assert s[k..] == d;
    var p := s[..k];
    assert p[i..] == t[..n];
    assert forall j :: 0 <= j < i ==> p[j] == s[j];
    assert IsLead(p, radix);
  }

  lemma NoDigits(radix: nat)
    ensures DigitsValue("", radix, 0) == 0
  {}

  lemma NumeralStrtoul(s: string, radix: nat, v: nat)
    requires v > 0 && (radix == 10 || radix == 16) && Numeral(s, radix, v)
    ensures Strtoul(s, radix) == v
  {
    hide Strtoul, DigitsValue, DigitIn, Rank, ValueOf, IsSign;
    var k :| 0 <= k <= |s| && IsLead(s[..k], radix) && Numeric(s[k..], radix) && ValueOf(s[k..], radix) == v;
    var p, d := s[..k], s[k..];
    var i :| 0 <= i <= |p| && (forall j :: 0 <= j < i ==> IsSpace(p[j])) && IsSign(p[i..], radix);
    var t := s[i..];
    assert t == p[i..] + d;
    SignRead(p[i..], d, radix);
    assert forall j :: 0 <= j < i ==> s[j] == p[j];
    BlanksSkipped(s, i);
    SignSkipped(s, radix);
    assert t[|p[i..]|..] == d;
    DigitsAre(d, radix);
  }

  /** A sign in front of digits is read as far as it goes. */
  lemma SignRead(p: string, d: string, radix: nat)
    requires IsSign(p, radix) && Numeric(d, radix) && (radix == 10 || radix == 16)
    ensures SignLen(p + d, radix) == |p| && !IsSpace((p + d)[0]) && (p + d)[0] != '-'
  {
    hide Rank, DigitIn;
    var t := p + d;
    DigitRange(d[0]);
    DigitIs(d[0], 16);
    if |d| > 1 { DigitRange(d[1]); }
    assert forall i :: 0 <= i < |p| ==> t[i] == p[i];
    assert At(t, |p|) == d[0] && At(t, |p| + 1) == At(d, 1);
  }

  lemma DigitRange(c: char)
    requires Rank(c) < 16
    ensures !IsSpace(c) && c !in "xX+-"
  {
    DigitIs(c, 16);
  }

  // ---- Entities --------------------------------------------------------------------------------

  /** The name of an entity and the code point it stands for: one of six names, or a
      number of a code point, hexadecimal after an x. */
  ghost predicate Denotes(name: string, cp: nat) {
    || (name == "amp" && cp == 0x26) || (name == "lt" && cp == 0x3C) || (name == "gt" && cp == 0x3E)
    || (name == "quot" && cp == 0x22) || (name == "apos" && cp == 0x27) || (name == "nbsp" && cp == 0xA0)
    || (0 < cp <= 0x10FFFF && |name| > 1 && name[0] == '#'
        && if name[1] in "xX" then Numeral(name[2..], 16, cp) else Numeral(name[1..], 10, cp))
  }

  lemma EntityMeans(name: string, cp: nat)
    requires Denotes(name, cp)
    ensures 0 < cp <= 0x10FFFF && EntityText(name) == Utf8(cp) && EntityText(name) != ""
  {
    hide Strtoul, Numeral, Utf8;
    Utf8Some(cp);
    Named();
    if |name| > 1 && name[0] == '#' {
      if name[1] in "xX" { StrtoulReads(name[2..], 16, cp); } else { StrtoulReads(name[1..], 10, cp); }
    }
  }

  lemma Named()
    ensures EntityText("amp") == Utf8(0x26) && EntityText("lt") == Utf8(0x3C) && EntityText("gt") == Utf8(0x3E)
    ensures EntityText("quot") == Utf8(0x22) && EntityText("apos") == Utf8(0x27) && EntityText("nbsp") == Utf8(0xA0)
  {}

  lemma Utf8Some(cp: nat)
    ensures cp <= 0x10FFFF ==> Utf8(cp) != ""
  {}

  lemma EntityKnown(name: string) returns (cp: nat)
    requires EntityText(name) != ""
    ensures Denotes(name, cp)
  {
    hide Strtoul, Numeral, Utf8;
    cp := match name
      case "amp" => 0x26
      case "lt" => 0x3C
      case "gt" => 0x3E
      case "quot" => 0x22
      case "apos" => 0x27
      case "nbsp" => 0xA0
      case _ => 1;
    if |name| > 1 && name[0] == '#' {
      var hex := name[1] in "xX";
      var digits := if hex then name[2..] else name[1..];
      cp := Strtoul(digits, if hex then 16 else 10);
      StrtoulReads(digits, if hex then 16 else 10, cp);
    }
  }

  /** The text opens with an entity of n characters between & and ;, the ; among the
      first twelve characters. */
  ghost predicate Opens(s: string, n: nat, cp: nat) {
    n <= 10 && n + 2 <= |s| && s[0] == '&' && s[n + 1] == ';' && ';' !in s[1..n + 1] && Denotes(s[1..n + 1], cp)
  }

  /** An entity is replaced by its character. */
  lemma EntityDecodes(s: string, n: nat, cp: nat)
    requires Opens(s, n, cp)
    ensures 0 < cp <= 0x10FFFF && DecodeEntities(s) == Utf8(cp) + DecodeEntities(s[n + 2..])
  {
    hide Denotes, EntityText, Utf8;
    EntityMeans(s[1..n + 1], cp);
    EndIs(s, n + 1);
  }

  lemma EndIs(s: string, e: nat)
    requires 1 <= e < |s| && e < ENTITY_WINDOW && s[0] == '&' && s[e] == ';' && ';' !in s[1..e]
    ensures EntityEnd(s) == e
  {
    var w := if |s| < ENTITY_WINDOW then s else s[..ENTITY_WINDOW];
    forall i | 0 <= i < e ensures w[i] != ';' {
      if i > 0 { assert s[1..e][i - 1] == s[i]; }
    }
    FindIs(w, ';', e);
  }

  /** Any other character is copied, an ampersand that opens no entity included. */
  lemma OtherCopied(s: string)
    requires s != "" && forall n, cp :: !Opens(s, n, cp)
    ensures DecodeEntities(s) == [s[0]] + DecodeEntities(s[1..])
  {
    hide Denotes, EntityText;
    if KnownEntity(s) {
      var n, cp := KnownOpens(s);
    }
  }

  lemma KnownOpens(s: string) returns (n: nat, cp: nat)
    requires KnownEntity(s)
    ensures Opens(s, n, cp)
  {
    hide Denotes, EntityText;
    EndFirst(s);
    n := EntityEnd(s) - 1;
    cp := EntityKnown(s[1..n + 1]);
  }

  lemma EndFirst(s: string)
    requires s != "" && s[0] == '&' && EntityEnd(s) < |s| && EntityEnd(s) < ENTITY_WINDOW
    ensures var e := EntityEnd(s); 1 <= e && s[e] == ';' && ';' !in s[1..e]
  {}

  // ---- UTF-8 -------------------------------------------------------------------------------------

  /** The first code point of a string and what follows it, as section 3 of RFC 3629
      reads them; -1 for a byte that opens none. */
  function ReadUtf8(s: string): (int, string) {
    var b := At(s, 0) as int;
    if s == "" then (-1, s)
    else if b < 0x80 then (b, s[1..])
    else if 0xC0 <= b < 0xE0 && |s| >= 2 then ((b - 0xC0) * 0x40 + Six(s[1]), s[2..])
    else if 0xE0 <= b < 0xF0 && |s| >= 3 then (((b - 0xE0) * 0x40 + Six(s[1])) * 0x40 + Six(s[2]), s[3..])
    else if 0xF0 <= b < 0xF8 && |s| >= 4
    then ((((b - 0xF0) * 0x40 + Six(s[1])) * 0x40 + Six(s[2])) * 0x40 + Six(s[3]), s[4..])
    else (-1, s)
  }

  function Six(c: char): int { c as int - 0x80 }

  /** The bytes written for a code point are read back as it. */
  lemma Utf8Reads(cp: nat, rest: string)
    requires cp <= 0x10FFFF
    ensures ReadUtf8(Utf8(cp) + rest) == (cp, rest)
  {
    hide ReadUtf8, Utf8;
    Sixes(cp);
    var d, c, b := cp % 64, cp / 64 % 64, cp / 4096 % 64;
    if cp < 0x80 {
      OneByte(cp, rest);
    } else if cp < 0x800 {
      TwoBytes(cp / 64, d, rest);
    } else if cp < 0x10000 {
      ThreeBytes(cp / 4096, c, d, rest);
    } else {
      FourBytes(cp / 262144, b, c, d, rest);
    }
  }

  lemma Sixes(cp: nat)
    requires cp <= 0x10FFFF
    ensures cp == cp / 64 * 64 + cp % 64 && cp / 64 == cp / 4096 * 64 + cp / 64 % 64
    ensures cp / 4096 == cp / 262144 * 64 + cp / 4096 % 64
  {
    assert cp / 64 / 64 == cp / 4096 && cp / 4096 / 64 == cp / 262144;
  }

  lemma OneByte(cp: nat, rest: string)
    requires cp < 0x80
    ensures Utf8(cp) == [cp as char] && ReadUtf8([cp as char] + rest) == (cp, rest)
  {
    assert ([cp as char] + rest)[1..] == rest;
  }

  lemma TwoBytes(a: nat, b: nat, rest: string)
    requires 2 <= a < 32 && b < 64
    ensures Utf8(a * 64 + b) == [(0xC0 + a) as char, (0x80 + b) as char]
    ensures ReadUtf8(Utf8(a * 64 + b) + rest) == (a * 64 + b, rest)
  {
    var cp := a * 64 + b;
    assert cp / 64 == a && cp % 64 == b;
    var s := [(0xC0 + a) as char, (0x80 + b) as char] + rest;
    assert s[2..] == rest;
  }

  lemma ThreeBytes(a: nat, b: nat, c: nat, rest: string)
    requires a < 16 && b < 64 && c < 64 && 0x800 <= (a * 64 + b) * 64 + c
    ensures ReadUtf8(Utf8((a * 64 + b) * 64 + c) + rest) == ((a * 64 + b) * 64 + c, rest)
  {
    var cp := (a * 64 + b) * 64 + c;
    assert cp / 64 == a * 64 + b && cp / 4096 == a && cp % 64 == c && cp / 64 % 64 == b;
    var s := [(0xE0 + a) as char, (0x80 + b) as char, (0x80 + c) as char] + rest;
    assert s[3..] == rest;
  }

  lemma FourBytes(a: nat, b: nat, c: nat, d: nat, rest: string)
    requires b < 64 && c < 64 && d < 64 && 0x10000 <= ((a * 64 + b) * 64 + c) * 64 + d <= 0x10FFFF
    ensures ReadUtf8(Utf8(((a * 64 + b) * 64 + c) * 64 + d) + rest) == (((a * 64 + b) * 64 + c) * 64 + d, rest)
  {
    var cp := ((a * 64 + b) * 64 + c) * 64 + d;
    assert cp / 64 == (a * 64 + b) * 64 + c && cp % 64 == d;
    assert cp / 4096 == a * 64 + b && cp / 64 % 64 == c;
    assert cp / 262144 == a && cp / 4096 % 64 == b;
    var s := [(0xF0 + a) as char, (0x80 + b) as char, (0x80 + c) as char, (0x80 + d) as char] + rest;
    assert s[4..] == rest;
  }

  // ---- Every character can be written ---------------------------------------------------------------

  const LOWER_HEX: string := "0123456789abcdef"
  const UPPER_HEX: string := "0123456789ABCDEF"

  function Printed(n: nat, radix: nat, digits: string): string
    requires |digits| >= 16
    decreases n
  {
    if radix == 16 then (if n < 16 then "" else Printed(n / 16, radix, digits)) + [digits[n % 16]]
    else (if n < 10 then "" else Printed(n / 10, radix, digits)) + [digits[n % 10]]
  }

  lemma {:induction false} PrintedValue(n: nat, radix: nat, digits: string)
    requires (radix == 10 || radix == 16) && (digits == LOWER_HEX || digits == UPPER_HEX)
    ensures Numeric(Printed(n, radix, digits), radix) && ValueOf(Printed(n, radix, digits), radix) == n
    decreases n
  {
    hide Rank, ValueOf, Numeric, LOWER_HEX, UPPER_HEX, Printed;
    HexTables();
    var q, d := if radix == 16 then n / 16 else n / 10, if radix == 16 then n % 16 else n % 10;
    DigitTable(d, digits);
    PrintedStep(n, radix, digits);
    if n >= radix {
      PrintedValue(q, radix, digits);
      DigitAfter(Printed(q, radix, digits), digits[d], radix);
    } else {
      DigitAfter("", digits[d], radix);
    }
  }

  lemma HexTables()
    ensures |LOWER_HEX| == 16 && |UPPER_HEX| == 16
  {}

  lemma PrintedStep(n: nat, radix: nat, digits: string)
    requires (radix == 10 || radix == 16) && |digits| >= 16
    ensures Printed(n, radix, digits) ==
            (if n < radix then "" else Printed(if radix == 16 then n / 16 else n / 10, radix, digits))
            + [digits[if radix == 16 then n % 16 else n % 10]]
  {}

  lemma DigitAfter(d: string, c: char, radix: nat)
    requires (radix == 10 || radix == 16) && (d == "" || Numeric(d, radix)) && Rank(c) < radix
    ensures Numeric(d + [c], radix)
    ensures var v := ValueOf(d, radix); ValueOf(d + [c], radix) == (if radix == 16 then v * 16 else v * 10) + Rank(c)
    ensures d == "" ==> ValueOf(d, radix) == 0
  {
    hide Rank;
    var e := d + [c];
    assert e[..|e| - 1] == d;
  }

  lemma DigitTable(d: nat, digits: string)
    requires d < 16 && (digits == LOWER_HEX || digits == UPPER_HEX)
    ensures Rank(digits[d]) == d
  {
    var hex := "0123456789abcdef";
    assert Lower(digits[d]) == hex[d];
    FindIs(hex, hex[d], d);
  }

  lemma {:induction false} PrintedShort(n: nat, radix: nat, digits: string, k: nat)
    requires (radix == 10 || radix == 16) && |digits| >= 16 && n < Power(radix, k) && k > 0
    ensures |Printed(n, radix, digits)| <= k
    decreases n
  {
    if n >= radix { PrintedShort(if radix == 16 then n / 16 else n / 10, radix, digits, k - 1); }
  }

  function Power(radix: nat, k: nat): nat {
    if k == 0 then 1 else if radix == 16 then 16 * Power(radix, k - 1) else 10 * Power(radix, k - 1)
  }

  lemma PlainNumeral(d: string, radix: nat, v: nat)
    requires Numeric(d, radix) && ValueOf(d, radix) == v
    ensures Numeral(d, radix, v)
  {
    hide ValueOf, Rank;
    assert d[..0] == "" && d[0..] == d;
    var p := d[..0];
    assert p[0..] == "" && IsSign("", radix);
    assert IsLead(p, radix);
  }

  /** Every code point written in decimal, or in hexadecimal of either case, is read as it. */
  lemma EveryCodePoint(cp: nat, digits: string, x: char, rest: string)
    requires 0 < cp <= 0x10FFFF && (digits == LOWER_HEX || digits == UPPER_HEX) && x in "xX"
    ensures DecodeEntities("&#" + Printed(cp, 10, digits) + ";" + rest) == Utf8(cp) + DecodeEntities(rest)
    ensures DecodeEntities("&#" + [x] + Printed(cp, 16, digits) + ";" + rest) == Utf8(cp) + DecodeEntities(rest)
  {
    hide DecodeEntities, Printed, Utf8, LOWER_HEX, UPPER_HEX;
    HexTables();
    var d, h := Printed(cp, 10, digits), Printed(cp, 16, digits);
    PrintedFits(cp, 10, digits);
    PrintedFits(cp, 16, digits);
    NumberOpens("#" + d, cp, d, rest);
    NumberOpens("#" + [x] + h, cp, h, rest);
    assert "&#" + d == "&" + ("#" + d) && "&#" + [x] + h == "&" + ("#" + [x] + h);
  }

  lemma PrintedFits(cp: nat, radix: nat, digits: string)
    requires 0 < cp <= 0x10FFFF && (radix == 10 || radix == 16) && (digits == LOWER_HEX || digits == UPPER_HEX)
    ensures var d := Printed(cp, radix, digits); |d| <= 7 && Numeric(d, radix) && Numeral(d, radix, cp)
  {
    hide Numeric, Numeral, ValueOf, Printed, Power, LOWER_HEX, UPPER_HEX;
    HexTables();
    PrintedValue(cp, radix, digits);
    PlainNumeral(Printed(cp, radix, digits), radix, cp);
    Powers();
    PrintedShort(cp, radix, digits, 7);
  }

  lemma Powers()
    ensures Power(10, 7) == 10000000 && Power(16, 7) == 268435456
  {
    assert Power(10, 4) == 10000 && Power(16, 4) == 65536;
  }

  lemma NumberOpens(name: string, cp: nat, d: string, rest: string)
    requires 0 < cp <= 0x10FFFF && |name| <= 10
    requires || (name == "#" + d && Numeral(d, 10, cp) && Numeric(d, 10))
             || (exists x :: x in "xX" && name == "#" + [x] + d && Numeral(d, 16, cp) && Numeric(d, 16))
    ensures DecodeEntities("&" + name + ";" + rest) == Utf8(cp) + DecodeEntities(rest)
  {
    hide DecodeEntities, Numeral, Utf8, Rank;
    var s := "&" + name + ";" + rest;
    var n := |name|;
    assert s[1..n + 1] == name && s[n + 1] == ';' && s[n + 2..] == rest;
    forall c | c in d ensures c !in ";xX" {
      var i :| 0 <= i < |d| && d[i] == c;
      NoSemicolon(c);
    }
    assert d != "" && d[0] in d;
    if name == "#" + d && Numeral(d, 10, cp) && Numeric(d, 10) {
      assert name[1] == d[0] && name[1..] == d;
    } else {
      assert name[2..] == d;
    }
    assert ';' !in name;
    assert Opens(s, n, cp);
    EntityDecodes(s, n, cp);
  }

  lemma NoSemicolon(c: char)
    requires Rank(c) < 16
    ensures c !in ";xX"
  {
    DigitIs(c, 16);
  }

  // ---- White space ------------------------------------------------------------------------------------

  /** The words of a text, white space between them, behind the part w of one. */
  function WordsOf(s: string, w: string): seq<string>
    decreases |s|
  {
    if s == "" then Word(w)
    else if IsBlank(s[0]) then Word(w) + WordsOf(s[1..], "")
    else WordsOf(s[1..], w + [s[0]])
  }

  function Word(w: string): seq<string> { if w == "" then [] else [w] }

  lemma {:induction false} CollapseWords(s: string, space: bool, w: string)
    ensures WordsOf(Collapse(s, space), w) == if space then Word(w) + WordsOf(s, "") else WordsOf(s, w)
    decreases |s|
  {
    hide Word;
    NoWord();
    if s == "" {
      assert " "[1..] == "";
    } else if IsBlank(s[0]) {
      CollapseWords(s[1..], true, w);
      assert [] + WordsOf(s[1..], "") == WordsOf(s[1..], "");
    } else {
      var c, r := s[0], Collapse(s[1..], false);
      CollapseWords(s[1..], false, if space then [c] else w + [c]);
      NextWord(c, r, w);
      assert "" + [c] == [c] && " " + [c] + r == [' '] + ([c] + r);
    }
  }

  lemma NoWord()
    ensures Word("") == []
  {}

  lemma NextWord(c: char, r: string, w: string)
    requires !IsBlank(c)
    ensures WordsOf([c] + r, w) == WordsOf(r, w + [c])
    ensures WordsOf([' '] + ([c] + r), w) == Word(w) + WordsOf(r, "" + [c])
  {
    hide Word;
    var t := [c] + r;
    assert t[1..] == r && ([' '] + t)[1..] == t;
  }

  lemma {:induction false} NoWords(s: string)
    requires AllBlank(s)
    ensures WordsOf(s, "") == []
    decreases |s|
  {
    if s != "" {
      assert forall i :: 0 <= i < |s| - 1 ==> s[1..][i] == s[i + 1];
      NoWords(s[1..]);
    }
  }

  lemma {:induction false} CollapseEdges(s: string, space: bool)
    requires !AllBlank(s)
    ensures var t := Collapse(s, space); t != "" && (t[0] == ' ' <==> space || IsBlank(s[0]))
    ensures var t := Collapse(s, space); t[|t| - 1] == ' ' <==> IsBlank(s[|s| - 1])
    decreases |s|
  {
    hide AllBlank;
    SomeLeft(s);
    if IsBlank(s[0]) {
      CollapseEdges(s[1..], true);
    } else if !AllBlank(s[1..]) {
      CollapseEdges(s[1..], false);
    } else {
      BlankCollapse(s[1..], false);
      if |s| > 1 { LastBlank(s); }
    }
  }

  lemma LastBlank(s: string)
    requires |s| > 1 && AllBlank(s[1..])
    ensures IsBlank(s[|s| - 1])
  {
    assert s[1..][|s| - 2] == s[|s| - 1];
  }

  lemma SomeLeft(s: string)
    requires !AllBlank(s)
    ensures s != "" && (IsBlank(s[0]) ==> !AllBlank(s[1..]))
  {
    if IsBlank(s[0]) { BlankTail(s); }
  }

  lemma {:induction false} BlankCollapse(s: string, space: bool)
    requires AllBlank(s)
    ensures Collapse(s, space) == if space || s != "" then " " else ""
    decreases |s|
  {
    if s != "" {
      assert forall i :: 0 <= i < |s| - 1 ==> s[1..][i] == s[i + 1];
      BlankCollapse(s[1..], true);
    }
  }

  /** Text keeps the words of its source, entities replaced, with single spaces between
      them, and one at either end exactly where the source has white space there. */
  lemma TextMeans(s: string)
    ensures var raw, t := DecodeEntities(s), MakeText(s);
            && WordsOf(t, "") == WordsOf(raw, "") && SingleSpaces(t)
            && (t == "" <==> WordsOf(raw, "") == [])
            && (t != "" ==> (t[0] == ' ' <==> IsBlank(raw[0])) && (t[|t| - 1] == ' ' <==> IsBlank(raw[|raw| - 1])))
  {
    hide DecodeEntities, Collapse, WordsOf, SingleSpaces, AllBlank;
    var raw := DecodeEntities(s);
    Nothing();
    if AllBlank(raw) {
      NoWords(raw);
    } else {
      CollapseForm(raw, false);
      CollapseWords(raw, false, "");
      CollapseEdges(raw, false);
      SomeWords(raw, "");
    }
  }

  lemma Nothing()
    ensures SingleSpaces("") && WordsOf("", "") == [] && AllBlank("")
  {}

  lemma {:induction false} SomeWords(s: string, w: string)
    requires !AllBlank(s) || w != ""
    ensures WordsOf(s, w) != []
    decreases |s|
  {
    if s != "" {
      if !IsBlank(s[0]) {
        SomeWords(s[1..], w + [s[0]]);
      } else if w == "" {
        BlankTail(s);
        SomeWords(s[1..], "");
      }
    }
  }
}
