/** The markup the code highlighter writes (emit, token_open, line_start of
    src/utils/code_highlight.c, CSS-class output) and a strict reader for it. */
module Markup {
  import opened Ascii

  const LINE_OPEN: string := "<span class=\"boat-rudder-code-line\">"
  const TOKEN_OPEN: string := "<span class=\"boat-rudder-code-token--"
  const TAG_END: string := "\">"
  const CLOSE: string := "</span>"

  // ---- The reader ----------------------------------------------------------------------

  const LINE_TAG: string := "<span class=\"boat-rudder-code-line\">"
  const TOKEN_TAG: string := "<span class=\"boat-rudder-code-token--"
  const TAG_STOP: string := "\">"
  const SPAN_END: string := "</span>"

  /** Where a reader of the markup stands: before a line's span, inside it,
      inside a token's span inside it, or after it. */
  datatype Mode = Start | InLine | InToken(cls: string) | AfterLine

  /** A character as it is shown: its token's class, "" outside tokens. */
  datatype Glyph = Glyph(c: char, cls: string)

  /** One unit of markup: how long it is, where it leads and what it shows. */
  datatype Unit = NoUnit | Unit(len: nat, mode: Mode, text: seq<Glyph>)

  function ClassOf(m: Mode): string { if m.InToken? then m.cls else "" }

  /** Text shown as a token of this class; a newline belongs to no token. */
  function Painted(s: string, cls: string): seq<Glyph> {
    seq(|s|, i requires 0 <= i < |s| => Glyph(s[i], if s[i] == '\n' then "" else cls))
  }

  lemma PaintedAppend(a: string, b: string, cls: string)
    ensures Painted(a + b, cls) == Painted(a, cls) + Painted(b, cls)
  {}

  /** What is shown, without its classes. */
  function Erased(gs: seq<Glyph>): string { seq(|gs|, i requires 0 <= i < |gs| => gs[i].c) }

  lemma ErasedAppend(a: seq<Glyph>, b: seq<Glyph>)
    ensures Erased(a + b) == Erased(a) + Erased(b)
  {}

  lemma ErasedPainted(s: string, cls: string)
    ensures Erased(Painted(s, cls)) == s
  {}

  predicate IsClassChar(c: char) { 'a' <= c <= 'z' }

  function ClassLen(s: string): (r: nat)
    ensures r <= |s|
    ensures forall i :: 0 <= i < r ==> IsClassChar(s[i])
    ensures r < |s| ==> !IsClassChar(s[r])
  {
    if s != "" && IsClassChar(s[0]) then 1 + ClassLen(s[1..]) else 0
  }

  function CharUnit(m: Mode, s: string): Unit
    requires s != ""
  {
    var cls := ClassOf(m);
    if "&amp;" <= s then Unit(5, m, [Glyph('&', cls)])
    else if "&lt;" <= s then Unit(4, m, [Glyph('<', cls)])
    else if "&gt;" <= s then Unit(4, m, [Glyph('>', cls)])
    else if "&quot;" <= s then Unit(6, m, [Glyph('"', cls)])
    else if s[0] in "&<>\"\n" then NoUnit
    else Unit(1, m, [Glyph(s[0], cls)])
  }

  /** A token's start tag: the prefix, a class name and the end of the tag. */
  function TokenUnit(s: string): Unit {
    if !(TOKEN_TAG <= s) then NoUnit
    else
      var rest := s[|TOKEN_TAG|..];
      var n := ClassLen(rest);
      if n > 0 && TAG_STOP <= rest[n..] then Unit(|TOKEN_TAG| + n + |TAG_STOP|, InToken(rest[..n]), []) else NoUnit
  }

  /** A line is one span; a token is one span inside a line, never inside another
      token; a newline stands between lines only; everything else is escaped text. */
  function ReadUnit(m: Mode, s: string): (u: Unit)
    requires s != ""
    ensures u.Unit? ==> 0 < u.len <= |s|
  {
    match m
    case Start => if LINE_TAG <= s then Unit(|LINE_TAG|, InLine, []) else NoUnit
    case AfterLine => if s[0] == '\n' then Unit(1, Start, [Glyph('\n', "")]) else NoUnit
    case InLine =>
      if SPAN_END <= s then Unit(|SPAN_END|, AfterLine, [])
      else if s[0] == '<' then TokenUnit(s)
      else CharUnit(InLine, s)
    case InToken(_) => if SPAN_END <= s then Unit(|SPAN_END|, InLine, []) else CharUnit(m, s)
  }

  datatype Reading = Bad | Good(mode: Mode, text: seq<Glyph>)

  /** What a whole output shows. */
  function Read(m: Mode, s: string): Reading
    decreases |s|
  {
    if s == "" then Good(m, [])
    else
      var u := ReadUnit(m, s);
      if u.NoUnit? then Bad
      else
        match Read(u.mode, s[u.len..])
        case Bad => Bad
        case Good(after, t) => Good(after, u.text + t)
  }

  // ---- Reading piece by piece ------------------------------------------------------------

  lemma PrefixStays(p: string, a: string, b: string)
    requires p <= a
    ensures p <= a + b && (a + b)[|p|..] == a[|p|..] + b
  {}

  lemma {:induction false} ClassLenStays(a: string, b: string)
    requires ClassLen(a) < |a|
    ensures ClassLen(a + b) == ClassLen(a)
  {
    if a != "" && IsClassChar(a[0]) {
      assert (a + b)[1..] == a[1..] + b;
      ClassLenStays(a[1..], b);
    }
  }

  lemma TokenUnitStays(a: string, b: string)
    requires a != "" && TokenUnit(a).Unit?
    ensures TokenUnit(a + b) == TokenUnit(a)
  {
    hide ClassLen;
    PrefixStays(TOKEN_TAG, a, b);
    var rest := a[|TOKEN_TAG|..];
    ClassLenStays(rest, b);
    var n := ClassLen(rest);
    assert (rest + b)[n..] == rest[n..] + b && (rest + b)[..n] == rest[..n];
    PrefixStays(TAG_STOP, rest[n..], b);
  }

  lemma CharUnitStays(m: Mode, a: string, b: string)
    requires a != "" && CharUnit(m, a).Unit?
    ensures CharUnit(m, a + b) == CharUnit(m, a)
  {
    assert (a + b)[0] == a[0];
    if |a| >= 2 { assert (a + b)[1] == a[1]; }
    if "&amp;" <= a { PrefixStays("&amp;", a, b); }
    else if "&lt;" <= a { PrefixStays("&lt;", a, b); }
    else if "&gt;" <= a { PrefixStays("&gt;", a, b); }
    else if "&quot;" <= a { PrefixStays("&quot;", a, b); }
  }

  /** More output never changes how a unit already complete is read. */
  lemma ReadUnitStays(m: Mode, a: string, b: string)
    requires a != "" && ReadUnit(m, a).Unit?
    ensures ReadUnit(m, a + b) == ReadUnit(m, a)
  {
    hide TokenUnit, CharUnit;
    assert (a + b)[0] == a[0];
    match m
    case Start => PrefixStays(LINE_TAG, a, b);
    case AfterLine =>
    case InLine =>
      if SPAN_END <= a { PrefixStays(SPAN_END, a, b); }
      else if a[0] == '<' { TokenUnitStays(a, b); NotClose(a, b); }
      else { CharUnitStays(InLine, a, b); NotClose2(a, b); }
    case InToken(_) =>
      if SPAN_END <= a { PrefixStays(SPAN_END, a, b); } else { CharUnitStays(m, a, b); CharIsNotTag(m, a); NotClose2(a, b); }
  }

  lemma NotClose(a: string, b: string)
    requires a != "" && TokenUnit(a).Unit?
    ensures !(SPAN_END <= a + b)
  {
    assert a[1] == TOKEN_TAG[1];
    assert (a + b)[1] == a[1];
  }

  lemma NotClose2(a: string, b: string)
    requires a != "" && a[0] != '<'
    ensures !(SPAN_END <= a + b)
  {
    assert (a + b)[0] == a[0];
  }

  lemma CharIsNotTag(m: Mode, a: string)
    requires a != "" && CharUnit(m, a).Unit?
    ensures a[0] != '<'
  {}

  lemma {:induction false} ReadAppend(m: Mode, a: string, b: string)
    requires Read(m, a).Good?
    ensures var r := Read(m, a);
            Read(m, a + b) == match Read(r.mode, b)
                              case Bad => Bad
                              case Good(after, t) => Good(after, r.text + t)
    decreases |a|
  {
    hide ReadUnit;
    if a == "" {
      assert a + b == b;
    } else {
      var u := ReadUnit(m, a);
      ReadUnitStays(m, a, b);
      assert (a + b)[u.len..] == a[u.len..] + b;
      ReadAppend(u.mode, a[u.len..], b);
    }
  }

  lemma OneUnit(m: Mode, piece: string, after: Mode, t: seq<Glyph>)
    requires piece != "" && ReadUnit(m, piece) == Unit(|piece|, after, t)
    ensures Read(m, piece) == Good(after, t)
  {
    hide ReadUnit;
    assert piece[|piece|..] == "";
    assert t + [] == t;
  }

  lemma Then(m: Mode, a: string, m1: Mode, t1: seq<Glyph>, b: string, m2: Mode, t2: seq<Glyph>)
    requires Read(m, a) == Good(m1, t1) && Read(m1, b) == Good(m2, t2)
    ensures Read(m, a + b) == Good(m2, t1 + t2)
  {
    hide Read;
    ReadAppend(m, a, b);
  }

  // ---- The writer ---------------------------------------------------------------------------

  function EntityOf(c: char): string {
    if c == '&' then "&amp;"
    else if c == '<' then "&lt;"
    else if c == '>' then "&gt;"
    else if c == '"' then "&quot;"
    else [c]
  }

  predicate NeedsEntity(c: char) { c in "&<>\"" }

  lemma GoesPlain(c: char)
    requires !NeedsEntity(c)
    ensures EntityOf(c) == [c]
  {}

  function Escaped(s: string): string {
    if s == "" then "" else EntityOf(s[0]) + Escaped(s[1..])
  }

  predicate IsClass(cls: string) { cls != "" && forall i :: 0 <= i < |cls| ==> IsClassChar(cls[i]) }

  /** Text within one line, inside a token's markup when `cls` is not empty. */
  function Segment(s: string, cls: string): string {
    if s == "" then ""
    else if cls == "" then Escaped(s)
    else TOKEN_OPEN + cls + TAG_END + (Escaped(s) + CLOSE)
  }

  const NEW_LINE: string := CLOSE + ("\n" + LINE_OPEN)

  /** Text that may cross lines: a newline ends the line's span and starts the
      next, the token's markup being closed before and reopened after. */
  function Emitted(s: string, cls: string): string
    decreases |s|
  {
    if s == "" then ""
    else
      var j := Find(s, 0, '\n');
      if j == |s| then Segment(s, cls)
      else Segment(s[..j], cls) + (NEW_LINE + Emitted(s[j + 1..], cls))
  }

  class Out {
    var sb: string
    var lineNo: nat

    constructor ()
      ensures sb == "" && lineNo == 0
    {
      sb, lineNo := "", 0;
    }

    method LineStart()
      modifies this
      ensures sb == old(sb) + LINE_OPEN && lineNo == old(lineNo) + 1
    {
      lineNo := lineNo + 1;
      sb := sb + LINE_OPEN;
    }

    method LineEnd()
      modifies this`sb
      ensures sb == old(sb) + CLOSE
    {
      sb := sb + CLOSE;
    }

    method PutEscaped(s: string)
      modifies this`sb
      ensures sb == old(sb) + Escaped(s)
    {
      hide EntityOf, Escaped, NeedsEntity;
      var run: nat := 0;
      ghost var done := "";
      assert s[0..] == s && "" + Escaped(s) == Escaped(s);
      for k := 0 to |s|
        invariant run <= k
        invariant sb == old(sb) + done
        invariant done + Escaped(s[run..]) == Escaped(s)
        invariant forall i :: run <= i < k ==> !NeedsEntity(s[i])
      {
        if NeedsEntity(s[k]) {
          EscapedRun(s, run, k);
          EscapedNext(s, k);
          Regroup(old(sb), done, s[run..k], EntityOf(s[k]), Escaped(s[k + 1..]));
          sb := sb + s[run..k];
          sb := sb + EntityOf(s[k]);
          done := done + s[run..k] + EntityOf(s[k]);
          run := k + 1;
        }
      }
      EscapedRun(s, run, |s|);
      EscapedEnd(s, run);
      Assoc(old(sb), done, s[run..]);
      sb := sb + s[run..];
    }

    method PutSegment(s: string, cls: string)
      modifies this`sb
      ensures sb == old(sb) + Segment(s, cls)
    {
      hide Escaped;
      if |s| > 0 {
        if cls != "" { sb := sb + (TOKEN_OPEN + cls + TAG_END); }
        PutEscaped(s);
        if cls != "" { sb := sb + CLOSE; }
        Regroup(old(sb), "", TOKEN_OPEN + cls + TAG_END, Escaped(s) + CLOSE, "");
        Assoc(old(sb) + (TOKEN_OPEN + cls + TAG_END), Escaped(s), CLOSE);
        Assoc(old(sb), TOKEN_OPEN + cls + TAG_END, Escaped(s) + CLOSE);
      }
    }

    method NewLine()
      modifies this
      ensures sb == old(sb) + NEW_LINE && lineNo == old(lineNo) + 1
    {
      LineEnd();
      sb := sb + "\n";
      LineStart();
    }

    method Emit(s: string, cls: string)
      modifies this
      ensures sb == old(sb) + Emitted(s, cls)
      ensures lineNo == old(lineNo) + NewLines(s)
    {
      hide Escaped, Segment, Find, NewLines, Emitted;
      EmitNothing(s, cls);
      var i := 0;
      ghost var done := "";
      while i < |s|
        invariant 0 <= i <= |s|
        invariant sb == old(sb) + done && done + Emitted(s[i..], cls) == Emitted(s, cls)
        invariant lineNo == old(lineNo) + NewLines(s[..i])
      {
        var j := Find(s, i, '\n');
        NextLine(s, i, j, cls);
        NextCount(s, i, j);
        ghost var piece := Segment(s[i..j], cls);
        ghost var was := sb;
        PutSegment(s[i..j], cls);
        if j < |s| {
          Assoc(was, piece, NEW_LINE);
          NewLine();
          piece := piece + NEW_LINE;
          j := j + 1;
        }
        Carry(old(sb), done, piece, Emitted(s[j..], cls));
        done := done + piece;
        i := j;
      }
      assert s[..|s|] == s && s[|s|..] == "";
    }
  }

  lemma EmitNothing(s: string, cls: string)
    ensures Emitted("", cls) == "" && NewLines("") == 0
    ensures "" + Emitted(s[0..], cls) == Emitted(s, cls) && s[..0] == ""
  {
    assert s[0..] == s;
  }

  function NewLines(s: string): nat {
    if s == "" then 0 else NewLines(s[..|s| - 1]) + (if s[|s| - 1] == '\n' then 1 else 0)
  }

  lemma {:induction false} NoNewLines(s: string, i: nat, j: nat)
    requires i <= j <= |s| && forall k :: i <= k < j ==> s[k] != '\n'
    ensures NewLines(s[..j]) == NewLines(s[..i])
    decreases j
  {
    if i < j {
      assert s[..j][..j - 1] == s[..j - 1];
      NoNewLines(s, i, j - 1);
    }
  }

  lemma NextLine(s: string, i: nat, j: nat, cls: string)
    requires i < |s| && j == Find(s, i, '\n')
    ensures j < |s| ==> Emitted(s[i..], cls) == (Segment(s[i..j], cls) + NEW_LINE) + Emitted(s[j + 1..], cls)
    ensures j == |s| ==> Emitted(s[i..], cls) == Segment(s[i..j], cls) + Emitted(s[j..], cls)
  {
    hide Segment, Find;
    var r := s[i..];
    FindFrom(s, i, '\n');
    if j < |s| {
      assert r[..j - i] == s[i..j] && r[j - i + 1..] == s[j + 1..];
      Assoc(Segment(s[i..j], cls), NEW_LINE, Emitted(s[j + 1..], cls));
    } else {
      assert s[i..j] == r && s[j..] == "";
    }
  }

  lemma NextCount(s: string, i: nat, j: nat)
    requires i < |s| && j == Find(s, i, '\n')
    ensures NewLines(s[..j]) == NewLines(s[..i])
    ensures j < |s| ==> NewLines(s[..j + 1]) == NewLines(s[..i]) + 1
  {
    NoNewLines(s, i, j);
    if j < |s| { assert s[..j + 1][..j] == s[..j]; }
  }

  lemma FindFrom(s: string, i: nat, c: char)
    requires i <= |s|
    ensures Find(s[i..], 0, c) == Find(s, i, c) - i
  {
    var j, k := Find(s, i, c), Find(s[i..], 0, c);
    assert j < |s| ==> s[i..][j - i] == c;
    assert k < |s[i..]| ==> s[i + k] == c;
  }

  lemma Carry(b: string, done: string, piece: string, tail: string)
    ensures (b + done) + piece == b + (done + piece)
    ensures done + (piece + tail) == (done + piece) + tail
  {}

  lemma Regroup(b: string, done: string, x: string, y: string, tail: string)
    ensures (b + done) + x + y == b + (done + x + y)
    ensures done + (x + (y + tail)) == (done + x + y) + tail
  {}

  lemma EscapedNext(s: string, k: nat)
    requires k < |s|
    ensures Escaped(s[k..]) == EntityOf(s[k]) + Escaped(s[k + 1..])
  {
    assert s[k..][1..] == s[k + 1..];
  }

  lemma EscapedEnd(s: string, run: nat)
    requires run <= |s|
    ensures s[run..|s|] + Escaped(s[|s|..]) == s[run..]
  {}

  /** Characters that need no escape go out as a run. */
  lemma {:induction false} EscapedRun(s: string, run: nat, k: nat)
    requires run <= k <= |s| && forall i :: run <= i < k ==> !NeedsEntity(s[i])
    ensures Escaped(s[run..]) == s[run..k] + Escaped(s[k..])
    decreases k - run
  {
    if run < k {
      hide EntityOf, NeedsEntity;
      GoesPlain(s[run]);
      EscapedRun(s, run + 1, k);
      assert s[run..][1..] == s[run + 1..];
      assert s[run..k] == [s[run]] + s[run + 1..k];
      Assoc([s[run]], s[run + 1..k], Escaped(s[k..]));
    }
  }

  // ---- What is written reads back -------------------------------------------------------------

  lemma EntityReads(m: Mode, c: char)
    requires (m.InLine? || m.InToken?) && c != '\n'
    ensures Read(m, EntityOf(c)) == Good(m, [Glyph(c, ClassOf(m))])
  {
    hide TokenUnit, CharUnit;
    EntityIsUnit(m, c);
    OneUnit(m, EntityOf(c), m, [Glyph(c, ClassOf(m))]);
  }

  lemma EntityIsUnit(m: Mode, c: char)
    requires c != '\n'
    ensures CharUnit(m, EntityOf(c)) == Unit(|EntityOf(c)|, m, [Glyph(c, ClassOf(m))])
    ensures EntityOf(c)[0] != '<'
  {
    var e := EntityOf(c);
    if |e| > 1 { assert e[1] in "algq"; }
  }

  lemma {:induction false} EscapedReads(m: Mode, s: string)
    requires (m.InLine? || m.InToken?) && '\n' !in s
    ensures Read(m, Escaped(s)) == Good(m, Painted(s, ClassOf(m)))
  {
    hide Read, EntityOf;
    var cls := ClassOf(m);
    if s == "" {
      assert Read(m, "") == Good(m, []) by { NothingReads(m); }
    } else {
      EntityReads(m, s[0]);
      EscapedReads(m, s[1..]);
      Then(m, EntityOf(s[0]), m, [Glyph(s[0], cls)], Escaped(s[1..]), m, Painted(s[1..], cls));
      assert [Glyph(s[0], cls)] + Painted(s[1..], cls) == Painted(s, cls);
    }
  }

  lemma NothingReads(m: Mode)
    ensures Read(m, "") == Good(m, [])
  {}

  lemma SegmentReads(s: string, cls: string)
    requires '\n' !in s && (cls == "" || IsClass(cls))
    ensures Read(InLine, Segment(s, cls)) == Good(InLine, Painted(s, cls))
  {
    hide Read, Escaped, IsClass, Painted;
    if s == "" {
      NothingPainted(cls);
      NothingReads(InLine);
    } else if cls == "" {
      EscapedReads(InLine, s);
    } else {
      var m, gs := InToken(cls), Painted(s, cls);
      TokenOpens(cls);
      EscapedReads(m, s);
      SpanCloses(cls);
      Then(m, Escaped(s), m, gs, CLOSE, InLine, []);
      Then(InLine, TOKEN_OPEN + cls + TAG_END, m, [], Escaped(s) + CLOSE, InLine, gs + []);
      assert [] + (gs + []) == gs;
    }
  }

  lemma NothingPainted(cls: string)
    ensures Painted("", cls) == []
  {}

  lemma NewLineReads()
    ensures Read(InLine, NEW_LINE) == Good(InLine, [Glyph('\n', "")])
  {
    hide Read;
    var nl := [Glyph('\n', "")];
    SpanCloses("");
    LineOpens();
    assert Read(AfterLine, "\n") == Good(Start, nl) by { OneUnit(AfterLine, "\n", Start, nl); }
    Then(AfterLine, "\n", Start, nl, LINE_OPEN, InLine, []);
    Then(InLine, CLOSE, AfterLine, [], "\n" + LINE_OPEN, InLine, nl + []);
  }

  /** Emitting any text, as any token, shows exactly that text in that class. */
  lemma {:induction false} EmittedReads(s: string, cls: string)
    requires cls == "" || IsClass(cls)
    ensures Read(InLine, Emitted(s, cls)) == Good(InLine, Painted(s, cls))
    decreases |s|
  {
    hide Read, Segment, IsClass, Emitted, Painted;
    var j := Find(s, 0, '\n');
    EmittedCut(s, cls, j);
    if s == "" {
      NothingReads(InLine);
      NothingPainted(cls);
    } else if j == |s| {
      SegmentReads(s, cls);
    } else {
      var head, rest := s[..j], s[j + 1..];
      SegmentReads(head, cls);
      NewLineReads();
      EmittedReads(rest, cls);
      var a, nl, b := Painted(head, cls), [Glyph('\n', "")], Painted(rest, cls);
      Then(InLine, NEW_LINE, InLine, nl, Emitted(rest, cls), InLine, b);
      Then(InLine, Segment(head, cls), InLine, a, NEW_LINE + Emitted(rest, cls), InLine, nl + b);
      assert s == head + ("\n" + rest);
      PaintedAppend(head, "\n" + rest, cls);
      PaintedAppend("\n", rest, cls);
      NewLinePainted(cls);
    }
  }

  lemma NewLinePainted(cls: string)
    ensures Painted("\n", cls) == [Glyph('\n', "")]
  {}

  lemma EmittedCut(s: string, cls: string, j: nat)
    requires j == Find(s, 0, '\n')
    ensures s == "" ==> Emitted(s, cls) == ""
    ensures s != "" && j == |s| ==> Emitted(s, cls) == Segment(s, cls)
    ensures j < |s| ==> Emitted(s, cls) == Segment(s[..j], cls) + (NEW_LINE + Emitted(s[j + 1..], cls))
  {
    hide Segment, Find;
  }

  lemma LineOpens()
    ensures Read(Start, LINE_OPEN) == Good(InLine, [])
  {
    OneUnit(Start, LINE_OPEN, InLine, []);
  }

  lemma SpanCloses(cls: string)
    ensures Read(InLine, CLOSE) == Good(AfterLine, []) && Read(InToken(cls), CLOSE) == Good(InLine, [])
  {
    OneUnit(InLine, CLOSE, AfterLine, []);
    OneUnit(InToken(cls), CLOSE, InLine, []);
  }

  lemma ClassEnds(cls: string)
    requires IsClass(cls)
    ensures ClassLen(cls + TAG_END) == |cls|
  {
    var rest := cls + TAG_END;
    assert forall i :: 0 <= i < |cls| ==> rest[i] == cls[i];
    assert rest[|cls|] == TAG_END[0];
    assert !(ClassLen(rest) < |cls|);
  }

  lemma TokenIsUnit(cls: string)
    requires IsClass(cls)
    ensures var s := TOKEN_OPEN + cls + TAG_END; TokenUnit(s) == Unit(|s|, InToken(cls), [])
  {
    hide ClassLen;
    var s := TOKEN_OPEN + cls + TAG_END;
    assert s[|TOKEN_OPEN|..] == cls + TAG_END;
    assert TOKEN_OPEN <= s;
    ClassEnds(cls);
    assert (cls + TAG_END)[|cls|..] == TAG_END && (cls + TAG_END)[..|cls|] == cls;
  }

  lemma TokenOpens(cls: string)
    requires IsClass(cls)
    ensures Read(InLine, TOKEN_OPEN + cls + TAG_END) == Good(InToken(cls), [])
  {
    hide TokenUnit, CharUnit, Read;
    var s := TOKEN_OPEN + cls + TAG_END;
    TokenIsUnit(cls);
    assert s[0] == TOKEN_OPEN[0] && s[1] == TOKEN_OPEN[1];
    OneUnit(InLine, s, InToken(cls), []);
  }
}
