/** The tolerant WML reader: decode_entities, make_text and parse_wml of
    src/wap_gateway/wbxml.c. */
module WmlParser {
  import opened Ascii
  import opened Wbxml
  import opened WmlString

  // ---- Entities -----------------------------------------------------------------------

  const ENTITY_WINDOW: nat := 12

  /** b_utf8: the UTF-8 form of a code point. */
  function Utf8(cp: nat): string
    requires cp <= 0x10FFFF
  {
    if cp < 0x80 then [cp as char]
    else if cp < 0x800 then [(0xC0 + cp / 64) as char, (0x80 + cp % 64) as char]
    else if cp < 0x10000 then
      [(0xE0 + cp / 4096) as char, (0x80 + cp / 64 % 64) as char, (0x80 + cp % 64) as char]
    else
      [(0xF0 + cp / 262144) as char, (0x80 + cp / 4096 % 64) as char,
       (0x80 + cp / 64 % 64) as char, (0x80 + cp % 64) as char]
  }

  function DigitIn(c: char, radix: nat): int {
    var d := if IsDigit(c) then c as int - '0' as int
             else if 'a' <= c <= 'f' then c as int - 'a' as int + 10
             else if 'A' <= c <= 'F' then c as int - 'A' as int + 10
             else 99;
    if d < radix then d else -1
  }

  /** The digits of a number, all of the string: -1 if some character is none. */
  function DigitsValue(s: string, radix: nat, acc: nat): int {
    if s == "" then acc
    else
      var d := DigitIn(s[0], radix);
      if d < 0 then -1 else DigitsValue(s[1..], radix, acc * radix + d)
  }

  function SkipBlanks(s: string): (r: string)
    ensures |r| <= |s|
  {
    if s != "" && IsSpace(s[0]) then SkipBlanks(s[1..]) else s
  }

  /** strtoul over the whole string: white space, a sign, "0x" in base 16, digits.
      A negative number wraps far beyond the last code point, so it reads as -1. */
  function Strtoul(s: string, radix: nat): int {
    var t := SkipBlanks(s);
    if At(t, 0) == '-' then -1
    else
      var u := if At(t, 0) == '+' then t[1..] else t;
      var v := if radix == 16 && At(u, 0) == '0' && At(u, 1) in "xX" && DigitIn(At(u, 2), 16) >= 0
               then u[2..] else u;
      DigitsValue(v, radix, 0)
  }

  /** What "&name;" stands for, "" if it is unknown. */
  function EntityText(name: string): string {
    if name == "amp" then "&"
    else if name == "lt" then "<"
    else if name == "gt" then ">"
    else if name == "quot" then "\""
    else if name == "apos" then "'"
    else if name == "nbsp" then Utf8(0xA0)
    else if |name| > 1 && name[0] == '#' then
      var cp := if name[1] == 'x' || name[1] == 'X' then Strtoul(name[2..], 16) else Strtoul(name[1..], 10);
      if 0 < cp <= 0x10FFFF then Utf8(cp) else ""
    else ""
  }

  /** Where the first ';' is; |s| or the window's end if there is none within the window. */
  function EntityEnd(s: string): (r: nat)
    ensures r <= |s|
    ensures s != "" && s[0] != ';' ==> r >= 1
  {
    var w := if |s| < ENTITY_WINDOW then s else s[..ENTITY_WINDOW];
    Find(w, 0, ';')
  }

  predicate KnownEntity(s: string) {
    && s != "" && s[0] == '&' && EntityEnd(s) < |s| && EntityEnd(s) < ENTITY_WINDOW
    && EntityText(s[1..EntityEnd(s)]) != ""
  }

  function DecodeEntities(s: string): string {
    if s == "" then ""
    else if KnownEntity(s) then EntityText(s[1..EntityEnd(s)]) + DecodeEntities(s[EntityEnd(s) + 1..])
    else [s[0]] + DecodeEntities(s[1..])
  }

  // ---- Text ------------------------------------------------------------------------------

  predicate IsBlank(c: char) { c == ' ' || c == '\t' || c == '\r' || c == '\n' }

  predicate AllBlank(s: string) { forall i :: 0 <= i < |s| ==> IsBlank(s[i]) }

  /** Every run of white space becomes one space; `space` says one is pending. */
  function Collapse(s: string, space: bool): string {
    var gap := if space then " " else "";
    if s == "" then gap
    else if IsBlank(s[0]) then Collapse(s[1..], true)
    else gap + [s[0]] + Collapse(s[1..], false)
  }

  /** Text content, "" when it is all blank. */
  function MakeText(s: string): string {
    var raw := DecodeEntities(s);
    if AllBlank(raw) then "" else Collapse(raw, false)
  }

  // ---- Names and attributes ---------------------------------------------------------------

  predicate IsNameChar(c: char) { IsAlnum(c) || c == ':' || c == '_' || c == '-' || c == '.' }

  const NAME_MAX: nat := 31

  function NameLen(s: string): (r: nat)
    ensures r <= |s|
    ensures forall i :: 0 <= i < r ==> IsNameChar(s[i])
    ensures r < |s| ==> !IsNameChar(s[r])
  {
    if s != "" && IsNameChar(s[0]) then 1 + NameLen(s[1..]) else 0
  }

  /** Names are kept in 32-byte buffers. */
  function ShortName(s: string): string { if |s| <= NAME_MAX then s else s[..NAME_MAX] }

  function SpaceLen(s: string): (r: nat)
    ensures r <= |s|
    ensures r < |s| ==> !IsSpace(s[r])
    ensures s != "" && !IsSpace(s[0]) ==> r == 0
  {
    if s != "" && IsSpace(s[0]) then 1 + SpaceLen(s[1..]) else 0
  }

  function BareLen(s: string): (r: nat)
    ensures r <= |s|
  {
    if s != "" && !IsSpace(s[0]) && s[0] != '>' then 1 + BareLen(s[1..]) else 0
  }

  /** A value and how much of the input it took. */
  datatype Value = Value(text: string, used: nat)

  /** What follows '=' : a quoted or a bare value. */
  function ReadValue(s: string): (r: Value)
    ensures r.used <= |s|
  {
    if s != "" && (s[0] == '"' || s[0] == '\'') then
      var end := Find(s, 1, s[0]);
      Value(DecodeEntities(s[1..end]), if end < |s| then end + 1 else end)
    else
      Value(DecodeEntities(s[..BareLen(s)]), BareLen(s))
  }

  /** What follows an attribute's name: its value, or the name again if it has none. */
  function ReadRest(name: string, s: string): (r: Value)
    ensures r.used <= |s|
  {
    var sp := SpaceLen(s);
    if sp < |s| && s[sp] == '=' then
      var after := s[sp + 1..];
      var v := ReadValue(after[SpaceLen(after)..]);
      Value(v.text, sp + 1 + SpaceLen(after) + v.used)
    else Value(name, sp)
  }

  /** The inside of a tag, up to and including '>'. */
  datatype Scan = Scan(attrs: seq<Attribute>, selfClose: bool, used: nat)

  function ScanAttrs(s: string): (r: Scan)
    ensures r.used <= |s|
    decreases |s|
  {
    if s == "" then Scan([], false, 0)
    else if s[0] == '>' then Scan([], false, 1)
    else if NameLen(s) == 0 then
      var more := ScanAttrs(s[1..]);
      Scan(more.attrs, more.selfClose || s[0] == '/', more.used + 1)
    else
      var name := ShortName(s[..NameLen(s)]);
      var v := ReadRest(name, s[NameLen(s)..]);
      var more := ScanAttrs(s[NameLen(s) + v.used..]);
      Scan([Attribute(name, v.text)] + more.attrs, more.selfClose, NameLen(s) + v.used + more.used)
  }

  // ---- The open elements --------------------------------------------------------------------

  /** An element whose end tag has not been read: what it holds so far. The
      source attaches it to its parent at once; here it is attached when closed. */
  datatype Open = Open(name: string, attrs: seq<Attribute>, kids: seq<Node>)

  const STACK_MAX: nat := 64

  type Stack = s: seq<Open> | s != [] witness [Open("", [], [])]

  function Top(stack: Stack): Open { stack[|stack| - 1] }

  function AddKids(stack: Stack, kids: seq<Node>): (r: Stack)
    ensures |r| == |stack|
  {
    var top := Top(stack);
    stack[|stack| - 1 := top.(kids := top.kids + kids)]
  }

  /** Closes elements until `depth` are left open. */
  function CloseTo(stack: Stack, depth: nat): (r: Stack)
    requires depth >= 1
    ensures |r| <= |stack|
    decreases |stack|
  {
    if |stack| <= depth then stack
    else
      var top := Top(stack);
      CloseTo(AddKids(stack[..|stack| - 1], [Elem(top.name, top.attrs, top.kids)]), depth)
  }

  /** The innermost open element with this name at or below `d`, 0 if there is none. */
  function Matching(stack: Stack, name: string, d: nat): (r: nat)
    requires d < |stack|
    ensures r <= d
  {
    if d == 0 then 0 else if SameFold(stack[d].name, name) then d else Matching(stack, name, d - 1)
  }

  const VOID_TAGS: seq<string> := ["br", "img", "input", "meta"]
  const TEXT_PARENTS: seq<string> := ["p", "a", "anchor", "b", "i", "u", "em", "strong", "big", "small", "td"]

  predicate IsVoidTag(name: string) { LowerAll(name) in VOID_TAGS }

  /** The left side of a gap between two inline siblings. */
  predicate InlineGap(name: string, kids: seq<Node>) {
    && kids != [] && kids[|kids| - 1].Elem? && LowerAll(kids[|kids| - 1].name) != "br"
    && LowerAll(name) in TEXT_PARENTS
  }

  // ---- One step of the reader --------------------------------------------------------------------

  datatype Step = Step(used: nat, stack: Stack)

  function TextStep(s: string, stack: Stack): (r: Step)
    requires s != "" && s[0] != '<'
    ensures 0 < r.used <= |s|
  {
    var j := Find(s, 0, '<');
    var t := MakeText(s[..j]);
    var kept := if t == "" && j < |s| && At(s, j + 1) != '/' && InlineGap(Top(stack).name, Top(stack).kids)
                then " " else t;
    Step(j, if kept == "" then stack else AddKids(stack, [Text(kept)]))
  }

  /** Just past the first '>' at or after `from`, or the end. */
  function PastAngle(s: string, from: nat): (r: nat)
    requires from <= |s|
    ensures from <= r <= |s|
  {
    var e := Find(s, from, '>');
    if e < |s| then e + 1 else e
  }

  function EndTagStep(s: string, stack: Stack): (r: Step)
    requires |s| >= 2
    ensures 2 <= r.used <= |s|
  {
    var k := NameLen(s[2..]);
    var d := Matching(stack, ShortName(s[2..2 + k]), |stack| - 1);
    Step(PastAngle(s, 2 + k), if d == 0 then stack else CloseTo(stack, d))
  }

  function StartTagStep(s: string, stack: Stack): (r: Step)
    requires s != ""
    ensures 0 < r.used <= |s|
  {
    var k := NameLen(s[1..]);
    if k == 0 then Step(1, stack)
    else
      var name := ShortName(s[1..1 + k]);
      var scan := ScanAttrs(s[1 + k..]);
      Step(1 + k + scan.used,
           if scan.selfClose || IsVoidTag(name) || |stack| >= STACK_MAX
           then AddKids(stack, [Elem(name, scan.attrs, [])])
           else stack + [Open(name, scan.attrs, [])])
  }

  function ParseStep(s: string, stack: Stack): (r: Step)
    requires s != ""
    ensures 0 < r.used <= |s|
  {
    if s[0] != '<' then TextStep(s, stack)
    else if HasAt(s, 0, "<!--") then
      var e := FindStr(s, 4, "-->");
      Step(if e < |s| then e + 3 else e, stack)
    else if At(s, 1) == '?' || At(s, 1) == '!' then Step(PastAngle(s, 1), stack)
    else if At(s, 1) == '/' then EndTagStep(s, stack)
    else StartTagStep(s, stack)
  }

  function ParseFrom(s: string, stack: Stack): Stack
    decreases |s|
  {
    if s == "" then stack
    else
      var st := ParseStep(s, stack);
      ParseFrom(s[st.used..], st.stack)
  }

  const ROOT: Open := Open("#root", [], [])

  function Parse(s: string): Node {
    var root := CloseTo(ParseFrom(s, [ROOT]), 1)[0];
    Elem(root.name, root.attrs, root.kids)
  }

  // ---- The reader as it runs ------------------------------------------------------------------------

  method PutDecoded(b: Buf, s: string)
    modifies b
    ensures b.d == old(b.d) + DecodeEntities(s)
  {
    hide EntityText, EntityEnd;
    var i := 0;
    ghost var done := "";
    while i < |s|
      invariant 0 <= i <= |s|
      invariant b.d == old(b.d) + done
      invariant done + DecodeEntities(s[i..]) == DecodeEntities(s)
    {
      var rest := s[i..];
      ghost var piece := if KnownEntity(rest) then EntityText(rest[1..EntityEnd(rest)]) else [rest[0]];
      if KnownEntity(rest) {
        b.Put(EntityText(rest[1..EntityEnd(rest)]));
        i := i + EntityEnd(rest) + 1;
        assert rest[EntityEnd(rest) + 1..] == s[i..];
      } else {
        b.Put([s[i]]);
        i := i + 1;
        assert rest[1..] == s[i..];
      }
      Assoc(old(b.d), done, piece);
      Assoc(done, piece, DecodeEntities(s[i..]));
      done := done + piece;
    }
  }

  lemma BlankNext(r: string, i: nat)
    requires i < |r|
    ensures AllBlank(r[..i + 1]) <==> AllBlank(r[..i]) && IsBlank(r[i])
  {
    assert forall k :: 0 <= k < i ==> r[..i + 1][k] == r[..i][k];
    assert r[..i + 1][i] == r[i];
  }

  lemma CollapseNext(r: string, i: nat, space: bool, t: string)
    requires i < |r|
    ensures IsBlank(r[i]) ==> Collapse(r[i..], space) == Collapse(r[i + 1..], true)
    ensures !IsBlank(r[i]) ==> t + Collapse(r[i..], space)
                               == t + (if space then " " else "") + [r[i]] + Collapse(r[i + 1..], false)
  {
    assert r[i..][1..] == r[i + 1..];
    var gap := if space then " " else "";
    Assoc(t, gap + [r[i]], Collapse(r[i + 1..], false));
    Assoc(t, gap, [r[i]]);
  }

  lemma CollapseStarts(r: string)
    ensures AllBlank(r[..0]) && r[0..] == r && "" + Collapse(r, false) == Collapse(r, false)
  {}

  lemma CollapseEnds(r: string, space: bool)
    ensures r[..|r|] == r && Collapse(r[|r|..], space) == if space then " " else ""
  {}

  /** The second half of make_text: collapsing what was decoded. */
  method Collapsed(r: string) returns (t: string)
    ensures t == if AllBlank(r) then "" else Collapse(r, false)
  {
    hide Collapse, AllBlank;
    var space, any := false, false;
    t := "";
    CollapseStarts(r);
    for i := 0 to |r|
      invariant any == !AllBlank(r[..i])
      invariant t + Collapse(r[i..], space) == Collapse(r, false)
    {
      BlankNext(r, i);
      CollapseNext(r, i, space, t);
      if IsBlank(r[i]) { space := true; continue; }
      if space { t := t + " "; }
      space := false;
      t := t + [r[i]];
      any := true;
    }
    CollapseEnds(r, space);
    if space && any { t := t + " "; }
    if !any { t := ""; }
  }

  method TextOf(s: string) returns (t: string)
    ensures t == MakeText(s)
  {
    hide DecodeEntities, Collapse, AllBlank;
    var raw := new Buf();
    PutDecoded(raw, s);
    assert raw.d == DecodeEntities(s);
    t := Collapsed(raw.d);
  }

  lemma SkipNext(s: string, j: nat)
    requires j < |s| && s[j] != '>' && NameLen(s[j..]) == 0
    ensures var more := ScanAttrs(s[j + 1..]);
            ScanAttrs(s[j..]) == Scan(more.attrs, more.selfClose || s[j] == '/', more.used + 1)
  {
    assert s[j..][1..] == s[j + 1..];
  }

  lemma AttrNext(s: string, j: nat, al: nat, name: string, v: Value)
    requires j < |s| && s[j] != '>' && al == NameLen(s[j..]) && al > 0
    requires name == ShortName(s[j..][..al]) && v == ReadRest(name, s[j..][al..])
    ensures var more := ScanAttrs(s[j + al + v.used..]);
            ScanAttrs(s[j..]) == Scan([Attribute(name, v.text)] + more.attrs, more.selfClose, al + v.used + more.used)
  {
    hide ReadRest, NameLen;
    assert s[j..][al + v.used..] == s[j + al + v.used..];
  }

  /** What was scanned before, and what the rest of the tag still gives. */
  function Onto(attrs: seq<Attribute>, selfClose: bool, j: nat, more: Scan): Scan {
    Scan(attrs + more.attrs, selfClose || more.selfClose, j + more.used)
  }

  /** The attribute loop of parse_wml, over what follows a tag's name. */
  method ScanTag(s: string) returns (r: Scan)
    ensures r == ScanAttrs(s)
  {
    hide ReadRest, NameLen, ScanAttrs, ShortName, Onto;
    var j: nat, attrs: seq<Attribute>, selfClose := 0, [], false;
    OntoStart(s);
    while j < |s| && s[j] != '>'
      invariant j <= |s|
      invariant Onto(attrs, selfClose, j, ScanAttrs(s[j..])) == ScanAttrs(s)
      decreases |s| - j
    {
      var al := NameLen(s[j..]);
      if al == 0 {
        OntoSkip(s, attrs, selfClose, j);
        if s[j] == '/' { selfClose := true; }
        j := j + 1;
      } else {
        NameRoom(s, j, al);
        var name := ShortName(s[j..j + al]);
        var v := ReadRest(name, s[j + al..]);
        OntoAttr(s, attrs, selfClose, j, al, name, v);
        attrs := attrs + [Attribute(name, v.text)];
        j := j + al + v.used;
      }
    }
    OntoEnd(s, attrs, selfClose, j);
    r := Scan(attrs, selfClose, if j < |s| then j + 1 else j);
  }

  lemma OntoStart(s: string)
    ensures Onto([], false, 0, ScanAttrs(s[0..])) == ScanAttrs(s)
  {
    assert s[0..] == s;
  }

  lemma NameRoom(s: string, j: nat, al: nat)
    requires j < |s| && al == NameLen(s[j..])
    ensures j + al <= |s|
  {}

  lemma OntoSkip(s: string, attrs: seq<Attribute>, selfClose: bool, j: nat)
    requires j < |s| && s[j] != '>' && NameLen(s[j..]) == 0
    ensures Onto(attrs, selfClose, j, ScanAttrs(s[j..]))
         == Onto(attrs, selfClose || s[j] == '/', j + 1, ScanAttrs(s[j + 1..]))
  {
    SkipNext(s, j);
  }

  lemma OntoAttr(s: string, attrs: seq<Attribute>, selfClose: bool, j: nat, al: nat, name: string, v: Value)
    requires j < |s| && s[j] != '>' && al == NameLen(s[j..]) && al > 0 && j + al <= |s|
    requires name == ShortName(s[j..j + al]) && v == ReadRest(name, s[j + al..])
    ensures j + al + v.used <= |s|
    ensures Onto(attrs, selfClose, j, ScanAttrs(s[j..]))
         == Onto(attrs + [Attribute(name, v.text)], selfClose, j + al + v.used, ScanAttrs(s[j + al + v.used..]))
  {
    hide ReadRest, NameLen, ScanAttrs;
    assert s[j..][..al] == s[j..j + al] && s[j..][al..] == s[j + al..];
    AttrNext(s, j, al, name, v);
    Assoc(attrs, [Attribute(name, v.text)], ScanAttrs(s[j + al + v.used..]).attrs);
  }

  lemma OntoEnd(s: string, attrs: seq<Attribute>, selfClose: bool, j: nat)
    requires j <= |s| && (j == |s| || s[j] == '>')
    ensures Onto(attrs, selfClose, j, ScanAttrs(s[j..])) == Scan(attrs, selfClose, if j < |s| then j + 1 else j)
  {
    assert attrs + [] == attrs;
  }

  method ParseWml(s: string) returns (root: Node)
    ensures root == Parse(s)
  {
    hide CloseTo, MakeText, AddKids, ScanAttrs, Matching, IsVoidTag, InlineGap, NameLen, ShortName;
    var i: nat := 0;
    var stack: Stack := [ROOT];
    while i < |s|
      invariant i <= |s|
      invariant ParseFrom(s[i..], stack) == ParseFrom(s, [ROOT])
    {
      var st := RunStep(s[i..], stack);
      assert s[i..][st.used..] == s[i + st.used..];
      stack := st.stack;
      i := i + st.used;
    }
    assert s[i..] == "";
    var top := CloseTo(stack, 1)[0];
    root := Elem(top.name, top.attrs, top.kids);
  }

  /** The body of parse_wml's loop. */
  method RunStep(s: string, stack: Stack) returns (r: Step)
    requires s != ""
    ensures r == ParseStep(s, stack)
  {
    hide CloseTo, MakeText, AddKids, ScanAttrs, Matching, IsVoidTag, InlineGap, FindStr, Find, NameLen, ShortName;
    if s[0] != '<' {
      var j := Find(s, 0, '<');
      var t := TextOf(s[..j]);
      if t == "" && j < |s| && At(s, j + 1) != '/' && InlineGap(Top(stack).name, Top(stack).kids) { t := " "; }
      return Step(j, if t != "" then AddKids(stack, [Text(t)]) else stack);
    }
    if HasAt(s, 0, "<!--") {
      var e := FindStr(s, 4, "-->");
      return Step(if e < |s| then e + 3 else e, stack);
    }
    if At(s, 1) == '?' || At(s, 1) == '!' { return Step(PastAngle(s, 1), stack); }
    if At(s, 1) == '/' {
      var k := NameLen(s[2..]);
      var d := FindOpen(stack, ShortName(s[2..2 + k]));
      return Step(PastAngle(s, 2 + k), if d > 0 then CloseTo(stack, d) else stack);
    }
    var k := NameLen(s[1..]);
    if k == 0 { return Step(1, stack); }
    var name := ShortName(s[1..1 + k]);
    var scan := ScanTag(s[1 + k..]);
    if !scan.selfClose && !IsVoidTag(name) && |stack| < STACK_MAX {
      return Step(1 + k + scan.used, stack + [Open(name, scan.attrs, [])]);
    }
    return Step(1 + k + scan.used, AddKids(stack, [Elem(name, scan.attrs, [])]));
  }

  method FindOpen(stack: Stack, name: string) returns (d: nat)
    ensures d == Matching(stack, name, |stack| - 1)
  {
    d := |stack| - 1;
    while d > 0
      invariant d < |stack|
      invariant Matching(stack, name, d) == Matching(stack, name, |stack| - 1)
    {
      if SameFold(stack[d].name, name) { return; }
      d := d - 1;
    }
  }
}
