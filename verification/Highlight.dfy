/** The code highlighter's scanners (scan_code, scan_html, highlight of
    src/utils/code_highlight.c): they cut the source into pieces that tile it. */
module Highlight {
  import opened Ascii
  import opened Markup
  import opened Languages

  // ---- Small scans ------------------------------------------------------------------------

  /** The end of the run of characters satisfying `p` that starts at `i`. */
  function RunEnd(s: string, i: nat, p: char -> bool): (r: nat)
    requires i <= |s|
    ensures i <= r <= |s|
    ensures i < |s| && p(s[i]) ==> i < r
    ensures r < |s| ==> !p(s[r])
    decreases |s| - i
  {
    if i < |s| && p(s[i]) then RunEnd(s, i + 1, p) else i
  }

  /** span_to: past the first `m` at or after `from`, or the end. */
  function SpanTo(s: string, from: nat, m: string): (r: nat)
    requires from <= |s| && m != ""
    ensures from <= r <= |s|
  {
    var j := FindStr(s, from, m);
    if j < |s| then j + |m| else |s|
  }

  function Blank(): char -> bool { (c: char) => c == ' ' || c == '\t' }

  /** Anything on the same line but `c`. */
  function NoneOf(c: char): char -> bool { (d: char) => d != c && d != '\n' }

  function InName(): char -> bool { (c: char) => IsAlnum(c) || c == '_' }

  function InIdent(L: LangDef): char -> bool { (c: char) => IsIdent(L, c) }

  function InNumber(L: LangDef): char -> bool { (c: char) => IsAlnum(c) || c == '.' || c == '_' || (L.css && c == '%') }

  predicate AtLineStart(s: string, i: nat)
    requires i <= |s|
  {
    if i > 0 && Blank()(s[i - 1]) then AtLineStart(s, i - 1) else i == 0 || s[i - 1] == '\n'
  }

  predicate IsIdent(L: LangDef, c: char) {
    IsAlnum(c) || c == '_' || (L.css && c == '-') || (L.dollarIdent && c == '$')
  }

  predicate IsIdentStart(L: LangDef, s: string, i: nat)
    requires i < |s|
  {
    IsAlpha(s[i]) || s[i] == '_' || (L.dollarIdent && s[i] == '$')
    || (L.css && s[i] == '-' && (IsAlpha(At(s, i + 1)) || At(s, i + 1) == '-'))
  }

  predicate IsKeyword(L: LangDef, w: string) {
    exists k :: 0 <= k < |L.keywords|
                && if L.nocase then SameFold(L.keywords[k], w) else L.keywords[k] == w
  }

  predicate LineCommentAt(L: LangDef, s: string, i: nat) {
    exists k :: 0 <= k < |L.lineComments| && HasAt(s, i, L.lineComments[k])
                && !(L.hashWordStart && L.lineComments[k] != "" && L.lineComments[k][0] == '#'
                     && 0 < i <= |s| && !IsSpace(s[i - 1]))
  }

  /** Where an ordinary string opened before `j` ends. */
  function StringEnd(s: string, j: nat, q: char, multiline: bool): (r: nat)
    requires j <= |s|
    ensures j <= r <= |s|
    decreases |s| - j
  {
    if j == |s| then j
    else if s[j] == '\\' && j + 1 < |s| then StringEnd(s, j + 2, q, multiline)
    else if s[j] == q then j + 1
    else if s[j] == '\n' && !multiline then j
    else StringEnd(s, j + 1, q, multiline)
  }

  function StringLen(L: LangDef, s: string, i: nat): (r: nat)
    requires i < |s|
    ensures 0 < r && i + r <= |s|
  {
    var q := s[i];
    if L.tripleQuotes && At(s, i + 1) == q && At(s, i + 2) == q && i + 2 < |s|
    then SpanTo(s, i + 3, [q, q, q]) - i
    else StringEnd(s, i + 1, q, L.multilineStrings || q == '`') - i
  }

  // ---- Pieces --------------------------------------------------------------------------------

  /** A stretch of source and the token class it is shown with; "" for none. */
  datatype Piece = Piece(len: nat, cls: string)

  function Total(ps: seq<Piece>): nat { if ps == [] then 0 else ps[0].len + Total(ps[1..]) }

  predicate ClassesOk(ps: seq<Piece>) { forall k :: 0 <= k < |ps| ==> ps[k].cls == "" || IsClass(ps[k].cls) }

  /** Pieces cut from s[i..]: never past its end, each class a class name. */
  predicate Within(s: string, i: nat, ps: seq<Piece>) { i + Total(ps) <= |s| && ClassesOk(ps) }

  /** A step of a scanner: it always advances. */
  predicate Advances(s: string, i: nat, ps: seq<Piece>) { Within(s, i, ps) && 0 < Total(ps) }

  lemma OnePiece(s: string, i: nat, p: Piece)
    requires i + p.len <= |s| && 0 < p.len && (p.cls == "" || IsClass(p.cls))
    ensures Advances(s, i, [p])
  {
    assert [p][1..] == [];
  }

  /** A token from i up to `end`. */
  function Upto(s: string, i: nat, end: nat, cls: string): (ps: seq<Piece>)
    requires i < end <= |s| && (cls == "" || IsClass(cls))
    ensures Advances(s, i, ps)
  {
    OnePiece(s, i, Piece(end - i, cls));
    [Piece(end - i, cls)]
  }

  // ---- The code scanner: one step ---------------------------------------------------------------

  /** An #include's <...> after the directive, and the blanks before it. */
  function IncludePath(s: string, i: nat): (ps: seq<Piece>)
    requires i <= |s|
    ensures Within(s, i, ps)
  {
    var b := RunEnd(s, i, Blank());
    var k := RunEnd(s, b, NoneOf('>'));
    if b < |s| && s[b] == '<' && k < |s| && s[k] == '>' then
      Two(b - i, "", k + 1 - b, "str");
      [Piece(b - i, ""), Piece(k + 1 - b, "str")]
    else []
  }

  lemma Two(a: nat, ca: string, b: nat, cb: string)
    requires (ca == "" || IsClass(ca)) && (cb == "" || IsClass(cb))
    ensures var ps := [Piece(a, ca), Piece(b, cb)]; Total(ps) == a + b && ClassesOk(ps)
  {
    var ps := [Piece(a, ca), Piece(b, cb)];
    assert ps[1..] == [Piece(b, cb)];
    SingleTotal(b, cb);
    assert Total(ps) == ps[0].len + Total(ps[1..]);
  }

  lemma TotalAppend(a: seq<Piece>, b: seq<Piece>)
    ensures Total(a + b) == Total(a) + Total(b)
  {
    if a == [] {
      assert a + b == b;
    } else {
      assert (a + b)[1..] == a[1..] + b;
      TotalAppend(a[1..], b);
    }
  }

  function Join(s: string, i: nat, a: seq<Piece>, b: seq<Piece>): (ps: seq<Piece>)
    requires Advances(s, i, a) && Within(s, i + Total(a), b)
    ensures Advances(s, i, ps) && Total(ps) == Total(a) + Total(b)
  {
    TotalAppend(a, b);
    a + b
  }

  /** A preprocessor directive; #include takes its path along. */
  function Directive(s: string, i: nat): (ps: seq<Piece>)
    requires i < |s|
    ensures Advances(s, i, ps)
  {
    var word := RunEnd(s, i + 1, Blank());
    var j := RunEnd(s, word, IsAlpha);
    var head := Upto(s, i, j, "pre");
    assert Total(head) == j - i by { SingleTotal(j - i, "pre"); }
    if s[word..j] == "include" then Join(s, i, head, IncludePath(s, j)) else head
  }

  lemma SingleTotal(len: nat, cls: string)
    ensures Total([Piece(len, cls)]) == len
  {
    assert [Piece(len, cls)][1..] == [];
  }

  /** A variable: "${...}", "$name" or a shell special; [] if there is none. */
  function Variable(L: LangDef, s: string, i: nat): (ps: seq<Piece>)
    requires i + 1 < |s|
    ensures ps == [] || Advances(s, i, ps)
  {
    var d := s[i + 1];
    if d == '{' then
      var j := RunEnd(s, i + 2, NoneOf('}'));
      if j < |s| && s[j] == '}' then Upto(s, i, j + 1, "var") else []
    else if IsAlpha(d) || d == '_' then
      Upto(s, i, RunEnd(s, i + 1, InName()), "var")
    else if L.shellSpecials && (IsDigit(d) || d in "#?@*!$-") then Upto(s, i, i + 2, "var")
    else []
  }

  /** The length of the first pre-marker found at i, 0 if there is none. */
  function MarkerLen(ms: seq<string>, s: string, i: nat): nat {
    if ms == [] then 0 else if HasAt(s, i, ms[0]) then |ms[0]| else MarkerLen(ms[1..], s, i)
  }

  lemma {:induction false} MarkerFits(ms: seq<string>, s: string, i: nat)
    requires i <= |s|
    ensures i + MarkerLen(ms, s, i) <= |s|
  {
    if ms != [] { MarkerFits(ms[1..], s, i); }
  }

  predicate NumberAt(L: LangDef, s: string, i: nat)
    requires i < |s|
  {
    IsDigit(s[i]) || (s[i] == '.' && IsDigit(At(s, i + 1)) && (i == 0 || !IsIdent(L, s[i - 1])))
  }

  /** CSS at-rules, hex colors and !important; [] if there is none. */
  function CssToken(L: LangDef, s: string, i: nat, depth: nat): (ps: seq<Piece>)
    requires i < |s|
    ensures ps == [] || Advances(s, i, ps)
  {
    if s[i] == '@' && IsAlpha(At(s, i + 1)) && i + 1 < |s| then
      Upto(s, i, RunEnd(s, i + 1, InIdent(L)), "kw")
    else if s[i] == '#' && depth > 0 && IsXDigit(At(s, i + 1)) && i + 1 < |s| then
      Upto(s, i, RunEnd(s, i + 1, IsXDigit), "num")
    else if HasAt(s, i, "!important") then Upto(s, i, i + 10, "kw")
    else []
  }

  /** An identifier: a CSS property, a keyword, a function name, or plain text. */
  function Identifier(L: LangDef, s: string, i: nat, depth: nat): (ps: seq<Piece>)
    requires i < |s|
    ensures Advances(s, i, ps)
  {
    var j := RunEnd(s, i + 1, InIdent(L));
    var k := RunEnd(s, j, Blank());
    Upto(s, i, j, if L.css && depth > 0 && At(s, k) == ':' then "attr"
                  else if IsKeyword(L, s[i..j]) then "kw"
                  else if At(s, j) == '(' then "fn"
                  else "")
  }

  /** What one pass of the loop takes at i, in the order the scanner tries. */
  function NextCode(L: LangDef, s: string, i: nat, depth: nat): (ps: seq<Piece>)
    requires i < |s| && WellFormed(L)
    ensures Advances(s, i, ps)
  {
    var c := s[i];
    var marker := MarkerLen(L.preMarkers, s, i);
    MarkerFits(L.preMarkers, s, i);
    if L.blockOpen != "" && HasAt(s, i, L.blockOpen) then
      Upto(s, i, SpanTo(s, i + |L.blockOpen|, L.blockClose), "com")
    else if LineCommentAt(L, s, i) then
      LineCommentAdvances(L, s, i);
      Upto(s, i, Find(s, i, '\n'), "com")
    else if L.cPreproc && c == '#' && AtLineStart(s, i) then Directive(s, i)
    else if marker > 0 then Upto(s, i, i + marker, "pre")
    else if c in L.quotes then Upto(s, i, i + StringLen(L, s, i), "str")
    else if L.dollarVars && c == '$' && i + 1 < |s| && Variable(L, s, i) != [] then Variable(L, s, i)
    else if NumberAt(L, s, i) then
      Upto(s, i, RunEnd(s, i + 1, InNumber(L)), "num")
    else if L.css && CssToken(L, s, i, depth) != [] then CssToken(L, s, i, depth)
    else if IsIdentStart(L, s, i) then Identifier(L, s, i, depth)
    else Upto(s, i, i + 1, "")
  }

  lemma LineCommentAdvances(L: LangDef, s: string, i: nat)
    requires i < |s| && WellFormed(L) && LineCommentAt(L, s, i)
    ensures i < Find(s, i, '\n')
  {
    var k :| 0 <= k < |L.lineComments| && HasAt(s, i, L.lineComments[k]);
    var m := L.lineComments[k];
    assert IsMarker(m);
    assert s[i..i + |m|][0] == s[i];
  }

  /** The CSS brace depth after the step: only an unclaimed brace counts. */
  function NextDepth(L: LangDef, s: string, i: nat, depth: nat, ps: seq<Piece>): nat
    requires i < |s|
  {
    if !L.css || ps != [Piece(1, "")] then depth
    else if s[i] == '{' then depth + 1
    else if s[i] == '}' && depth > 0 then depth - 1
    else depth
  }

  /** The whole tokenization from i on. */
  function LexCode(L: LangDef, s: string, i: nat, depth: nat): (ps: seq<Piece>)
    requires i <= |s| && WellFormed(L)
    decreases |s| - i
  {
    if i == |s| then []
    else
      var step := NextCode(L, s, i, depth);
      step + LexCode(L, s, i + Total(step), NextDepth(L, s, i, depth, step))
  }

  // ---- The markup scanner ---------------------------------------------------------------------------

  predicate IsTagName(c: char) { IsAlnum(c) || c == '-' || c == ':' }

  predicate IsAttrStart(c: char) { IsAlpha(c) || c == '_' || c == ':' || c == '@' }

  predicate IsAttrRest(c: char) { IsAlnum(c) || c in "-_:.@" }

  /** A tag after its name, up to and including its end. */
  function TagInside(s: string, i: nat): (ps: seq<Piece>)
    requires i <= |s|
    ensures Within(s, i, ps)
    decreases |s| - i
  {
    if i == |s| then []
    else
      var c := s[i];
      if c == '>' then Upto(s, i, i + 1, "tag")
      else if c == '"' || c == '\'' then
        var k := Find(s, i + 1, c);
        Prepend(s, i, Piece((if k < |s| then k + 1 else k) - i, "str"), TagInside(s, if k < |s| then k + 1 else k))
      else if IsAttrStart(c) then
        var k := RunEnd(s, i + 1, IsAttrRest);
        Prepend(s, i, Piece(k - i, "attr"), TagInside(s, k))
      else if c == '/' && At(s, i + 1) == '>' then Upto(s, i, i + 2, "tag")
      else Prepend(s, i, Piece(1, ""), TagInside(s, i + 1))
  }

  function Prepend(s: string, i: nat, p: Piece, ps: seq<Piece>): (r: seq<Piece>)
    requires (p.cls == "" || IsClass(p.cls)) && Within(s, i + p.len, ps)
    ensures Within(s, i, r) && Total(r) == p.len + Total(ps)
  {
    assert ([p] + ps)[1..] == ps;
    [p] + ps
  }

  function NextHtml(s: string, i: nat): (ps: seq<Piece>)
    requires i < |s|
    ensures Advances(s, i, ps)
  {
    if HasAt(s, i, "<!--") then Upto(s, i, SpanTo(s, i + 4, "-->"), "com")
    else if s[i] == '<' && i + 1 < |s| && (IsAlpha(s[i + 1]) || s[i + 1] == '/' || s[i + 1] == '!') then
      var j := RunEnd(s, if s[i + 1] == '/' || s[i + 1] == '!' then i + 2 else i + 1, IsTagName);
      Prepend(s, i, Piece(j - i, "tag"), TagInside(s, j))
    else Upto(s, i, i + 1, "")
  }

  function LexHtml(s: string, i: nat): (ps: seq<Piece>)
    requires i <= |s|
    decreases |s| - i
  {
    if i == |s| then []
    else
      var step := NextHtml(s, i);
      step + LexHtml(s, i + Total(step))
  }

  // ---- Pieces tile the source ------------------------------------------------------------------------

  lemma JoinTiles(s: string, i: nat, a: seq<Piece>, b: seq<Piece>)
    requires Within(s, i, a) && ClassesOk(b) && i + Total(a) + Total(b) == |s|
    ensures ClassesOk(a + b) && i + Total(a + b) == |s|
  {
    TotalAppend(a, b);
  }

  /** The code scanner's pieces cover the source exactly. */
  lemma {:induction false} LexCodeTiles(L: LangDef, s: string, i: nat, depth: nat)
    requires i <= |s| && WellFormed(L)
    ensures var ps := LexCode(L, s, i, depth); ClassesOk(ps) && i + Total(ps) == |s|
    decreases |s| - i
  {
    hide NextCode, NextDepth, ClassesOk, WellFormed;
    if i < |s| {
      var step := NextCode(L, s, i, depth);
      var d := NextDepth(L, s, i, depth, step);
      LexCodeTiles(L, s, i + Total(step), d);
      JoinTiles(s, i, step, LexCode(L, s, i + Total(step), d));
    } else {
      NoPieces();
    }
  }

  lemma NoPieces()
    ensures ClassesOk([]) && Total([]) == 0
  {}

  /** So do the markup scanner's. */
  lemma {:induction false} LexHtmlTiles(s: string, i: nat)
    requires i <= |s|
    ensures var ps := LexHtml(s, i); ClassesOk(ps) && i + Total(ps) == |s|
    decreases |s| - i
  {
    hide NextHtml, ClassesOk;
    if i < |s| {
      var step := NextHtml(s, i);
      LexHtmlTiles(s, i + Total(step));
      JoinTiles(s, i, step, LexHtml(s, i + Total(step)));
    } else {
      NoPieces();
    }
  }

  // ---- Output ---------------------------------------------------------------------------------------------

  function Rendered(s: string, i: nat, ps: seq<Piece>): string
    requires i + Total(ps) <= |s|
    decreases |ps|
  {
    if ps == [] then ""
    else Emitted(s[i..i + ps[0].len], ps[0].cls) + Rendered(s, i + ps[0].len, ps[1..])
  }

  lemma Slices(s: string, i: nat, j: nat, k: nat)
    requires i <= j <= k <= |s|
    ensures s[i..j] + s[j..k] == s[i..k]
  {}

  /** What the pieces show: the source they cover, each stretch in its class. */
  function PaintedAll(s: string, i: nat, ps: seq<Piece>): seq<Glyph>
    requires i + Total(ps) <= |s|
    decreases |ps|
  {
    if ps == [] then [] else Painted(s[i..i + ps[0].len], ps[0].cls) + PaintedAll(s, i + ps[0].len, ps[1..])
  }

  lemma {:induction false} ErasedAll(s: string, i: nat, ps: seq<Piece>)
    requires i + Total(ps) <= |s|
    ensures Erased(PaintedAll(s, i, ps)) == s[i..i + Total(ps)]
    decreases |ps|
  {
    hide Painted, Erased;
    if ps == [] {
      assert Erased([]) == "" by { NothingErased(); }
    } else {
      var j := i + ps[0].len;
      ErasedAll(s, j, ps[1..]);
      ErasedPainted(s[i..j], ps[0].cls);
      ErasedAppend(Painted(s[i..j], ps[0].cls), PaintedAll(s, j, ps[1..]));
      Slices(s, i, j, i + Total(ps));
    }
  }

  lemma NothingErased()
    ensures Erased([]) == ""
  {}

  /** Whatever the pieces, what is shown is the source they cover, in their classes. */
  lemma {:induction false} RenderedReads(s: string, i: nat, ps: seq<Piece>)
    requires i + Total(ps) <= |s| && ClassesOk(ps)
    ensures Read(InLine, Rendered(s, i, ps)) == Good(InLine, PaintedAll(s, i, ps))
    decreases |ps|
  {
    hide Read, Emitted, IsClass, Painted;
    if ps == [] {
      NothingReads(InLine);
    } else {
      var p, j := ps[0], i + ps[0].len;
      EmittedReads(s[i..j], p.cls);
      assert forall k :: 0 <= k < |ps[1..]| ==> ps[1..][k] == ps[k + 1];
      RenderedReads(s, j, ps[1..]);
      Then(InLine, Emitted(s[i..j], p.cls), InLine, Painted(s[i..j], p.cls), Rendered(s, j, ps[1..]), InLine,
           PaintedAll(s, j, ps[1..]));
    }
  }

  /** The tokenization the language asks for. */
  function Lex(lang: Lang, s: string): (ps: seq<Piece>)
    requires lang.Code? ==> WellFormed(lang.def)
  {
    match lang
    case Plain => [Piece(|s|, "")]
    case Html => LexHtml(s, 0)
    case Code(L) => LexCode(L, s, 0, 0)
  }

  lemma LexTiles(lang: Lang, s: string)
    requires lang.Code? ==> WellFormed(lang.def)
    ensures ClassesOk(Lex(lang, s)) && Total(Lex(lang, s)) == |s|
  {
    hide LexHtml, LexCode, WellFormed;
    match lang
    case Plain => SingleTotal(|s|, "");
    case Html => LexHtmlTiles(s, 0);
    case Code(L) => LexCodeTiles(L, s, 0, 0);
  }

  function WithoutCr(s: string): string {
    if s == "" then "" else WithoutCr(s[..|s| - 1]) + if s[|s| - 1] == '\r' then "" else [s[|s| - 1]]
  }

  function TrimNewLines(s: string): (r: string)
    ensures r <= s
  {
    if s != "" && s[|s| - 1] == '\n' then TrimNewLines(s[..|s| - 1]) else s
  }

  /** The source as it is shown: no carriage returns, no trailing newlines. */
  function Shown(code: string): string { TrimNewLines(WithoutCr(code)) }

  /** Carriage returns go, one by one, and nothing else. */
  lemma {:induction false} CrGoes(a: string, b: string, c: char)
    ensures WithoutCr(a + b) == WithoutCr(a) + WithoutCr(b)
    ensures WithoutCr([c]) == if c == '\r' then "" else [c]
    decreases |b|
  {
    if b == "" {
      assert a + b == a && WithoutCr(a) + "" == WithoutCr(a);
    } else {
      var n := |b| - 1;
      assert (a + b)[..|a + b| - 1] == a + b[..n];
      CrGoes(a, b[..n], c);
    }
    assert [c][..0] == "";
  }

  /** So do the newlines at the end, all of them. */
  lemma {:induction false} EndGoes(s: string)
    ensures var r := TrimNewLines(s);
            (r == "" || r[|r| - 1] != '\n') && forall i :: |r| <= i < |s| ==> s[i] == '\n'
  {
    if s != "" && s[|s| - 1] == '\n' { EndGoes(s[..|s| - 1]); }
  }

  function Highlighted(code: string, key: string): string {
    var s, lang := Shown(code), FindLang(key);
    AllWellFormed(key);
    LexTiles(lang, s);
    LINE_OPEN + (Rendered(s, 0, Lex(lang, s)) + CLOSE)
  }

  /** What a source is shown as: each piece the language cuts it into in its class. */
  function ShownAs(code: string, key: string): seq<Glyph> {
    var s, lang := Shown(code), FindLang(key);
    AllWellFormed(key);
    LexTiles(lang, s);
    PaintedAll(s, 0, Lex(lang, s))
  }

  /** The highlighter loses nothing: for every source and every language, its
      output is well-formed markup that shows exactly the source, every token in its class. */
  lemma HighlightLosesNothing(code: string, key: string)
    ensures Read(Start, Highlighted(code, key)) == Good(AfterLine, ShownAs(code, key))
    ensures Erased(ShownAs(code, key)) == Shown(code)
  {
    hide Read, FindLang, Lex, Rendered, Shown, WellFormed, PaintedAll, Erased;
    var s, lang := Shown(code), FindLang(key);
    AllWellFormed(key);
    LexTiles(lang, s);
    var ps := Lex(lang, s);
    RenderedReads(s, 0, ps);
    LineOpens();
    SpanCloses("");
    ErasedAll(s, 0, ps);
    assert s[0..0 + Total(ps)] == s;
    var gs := PaintedAll(s, 0, ps);
    Then(InLine, Rendered(s, 0, ps), InLine, gs, CLOSE, AfterLine, []);
    Then(Start, LINE_OPEN, InLine, [], Rendered(s, 0, ps) + CLOSE, AfterLine, gs + []);
    assert [] + (gs + []) == gs;
  }

  // ---- The scanners as they run: plain text waits until the next token flushes it --------------------------

  /** Plain text: each character on its own. */
  function PlainOut(s: string): string {
    if s == "" then "" else (if s[0] == '\n' then NEW_LINE else EntityOf(s[0])) + PlainOut(s[1..])
  }

  lemma {:induction false} PlainOutAppend(a: string, b: string)
    ensures PlainOut(a + b) == PlainOut(a) + PlainOut(b)
  {
    hide EntityOf;
    if a == "" {
      assert a + b == b;
    } else {
      assert (a + b)[0] == a[0] && (a + b)[1..] == a[1..] + b;
      PlainOutAppend(a[1..], b);
      Assoc(if a[0] == '\n' then NEW_LINE else EntityOf(a[0]), PlainOut(a[1..]), PlainOut(b));
    }
  }

  lemma {:induction false} EscapedIsPlain(s: string)
    requires '\n' !in s
    ensures Escaped(s) == PlainOut(s)
  {
    hide EntityOf;
    if s != "" { EscapedIsPlain(s[1..]); }
  }

  lemma {:induction false} EmittedIsPlain(s: string)
    ensures Emitted(s, "") == PlainOut(s)
    decreases |s|
  {
    hide Emitted, PlainOut, Escaped;
    var j := Find(s, 0, '\n');
    EmittedCut(s, "", j);
    if j == |s| {
      EscapedIsPlain(s);
    } else {
      EscapedIsPlain(s[..j]);
      EmittedIsPlain(s[j + 1..]);
      PlainNewLine(s[j + 1..]);
      assert s == s[..j] + ("\n" + s[j + 1..]);
      PlainOutAppend(s[..j], "\n" + s[j + 1..]);
    }
    PlainNothing();
  }

  lemma PlainNothing()
    ensures PlainOut("") == "" && Escaped("") == ""
  {}

  lemma PlainNewLine(s: string)
    ensures PlainOut("\n" + s) == NEW_LINE + PlainOut(s)
  {
    assert ("\n" + s)[1..] == s;
  }

  /** Pending plain text may be flushed in one go or in parts. */
  lemma Flushed(s: string, plain: nat, i: nat, j: nat)
    requires plain <= i <= j <= |s|
    ensures Emitted(s[plain..j], "") == Emitted(s[plain..i], "") + Emitted(s[i..j], "")
  {
    hide Emitted, PlainOut;
    EmittedIsPlain(s[plain..j]);
    EmittedIsPlain(s[plain..i]);
    EmittedIsPlain(s[i..j]);
    assert s[plain..j] == s[plain..i] + s[i..j];
    PlainOutAppend(s[plain..i], s[i..j]);
  }

  /** FLUSH and TOKEN, for the pieces one pass found. */
  method PutPieces(o: Out, s: string, at: nat, from: nat, ps: seq<Piece>) returns (plain: nat)
    requires from <= at && at + Total(ps) <= |s|
    modifies o
    ensures plain <= at + Total(ps)
    ensures o.sb + Emitted(s[plain..at + Total(ps)], "") == old(o.sb) + Emitted(s[from..at], "") + Rendered(s, at, ps)
  {
    hide Emitted;
    var i: nat := at;
    plain := from;
    assert ps[0..] == ps;
    for k := 0 to |ps|
      invariant plain <= i && i + Total(ps[k..]) == at + Total(ps)
      invariant o.sb + Emitted(s[plain..i], "") + Rendered(s, i, ps[k..])
             == old(o.sb) + Emitted(s[from..at], "") + Rendered(s, at, ps)
    {
      var p := ps[k];
      var j := i + p.len;
      assert ps[k..][1..] == ps[k + 1..];
      ghost var was, tail := o.sb, Rendered(s, j, ps[k + 1..]);
      if p.cls != "" {
        if i > plain { o.Emit(s[plain..i], ""); }
        FlushNothing(s, plain, i);
        assert o.sb == was + Emitted(s[plain..i], "");
        o.Emit(s[i..j], p.cls);
        FlushNothing(s, j, j);
        Assoc(was + Emitted(s[plain..i], ""), Emitted(s[i..j], p.cls), tail);
        assert o.sb + Emitted(s[j..j], "") == o.sb;
        plain := j;
      } else {
        Flushed(s, plain, i, j);
        Assoc(was, Emitted(s[plain..i], ""), Emitted(s[i..j], ""));
        Assoc(was + Emitted(s[plain..i], ""), Emitted(s[i..j], ""), tail);
      }
      i := j;
    }
    assert ps[|ps|..] == [];
    assert o.sb + Emitted(s[plain..i], "") + "" == o.sb + Emitted(s[plain..i], "");
  }

  lemma FlushNothing(s: string, plain: nat, i: nat)
    requires plain <= i <= |s|
    ensures plain == i ==> Emitted(s[plain..i], "") == ""
  {
    if plain == i { assert s[plain..i] == ""; }
  }

  lemma RenderedNext(s: string, i: nat, ps: seq<Piece>)
    requires ps != [] && i + Total(ps) <= |s|
    ensures Rendered(s, i, ps) == Emitted(s[i..i + ps[0].len], ps[0].cls) + Rendered(s, i + ps[0].len, ps[1..])
  {
    hide Emitted;
  }

  lemma {:induction false} RenderedAppend(s: string, i: nat, a: seq<Piece>, b: seq<Piece>)
    requires i + Total(a) + Total(b) <= |s|
    ensures Total(a + b) == Total(a) + Total(b)
    ensures Rendered(s, i, a + b) == Rendered(s, i, a) + Rendered(s, i + Total(a), b)
    decreases |a|
  {
    hide Emitted, Rendered;
    TotalAppend(a, b);
    if a == [] {
      assert a + b == b;
      RenderNothing(s, i);
    } else {
      var j := i + a[0].len;
      assert (a + b)[0] == a[0] && (a + b)[1..] == a[1..] + b;
      RenderedAppend(s, j, a[1..], b);
      RenderedNext(s, i, a);
      RenderedNext(s, i, a + b);
      Assoc(Emitted(s[i..j], a[0].cls), Rendered(s, j, a[1..]), Rendered(s, i + Total(a), b));
    }
  }

  /** scan_code: the output is the tokenization, rendered. */
  method ScanCode(o: Out, s: string, L: LangDef)
    requires WellFormed(L)
    modifies o
    ensures Total(LexCode(L, s, 0, 0)) == |s|
    ensures o.sb == old(o.sb) + Rendered(s, 0, LexCode(L, s, 0, 0))
  {
    hide Emitted, NextCode, Rendered, WellFormed, NextDepth;
    var i: nat, plain: nat, depth: nat := 0, 0, 0;
    ghost var start := o.sb;
    FlushNothing(s, 0, 0);
    LexCodeTiles(L, s, 0, 0);
    while i < |s|
      invariant plain <= i <= |s|
      invariant i + Total(LexCode(L, s, i, depth)) == |s|
      invariant o.sb + Emitted(s[plain..i], "") + Rendered(s, i, LexCode(L, s, i, depth))
             == start + Rendered(s, 0, LexCode(L, s, 0, 0))
      decreases |s| - i
    {
      var step := NextCode(L, s, i, depth);
      var next := i + Total(step);
      ghost var rest := LexCode(L, s, next, NextDepth(L, s, i, depth, step));
      LexCodeTiles(L, s, next, NextDepth(L, s, i, depth, step));
      RenderedAppend(s, i, step, rest);
      Assoc(o.sb + Emitted(s[plain..i], ""), Rendered(s, i, step), Rendered(s, next, rest));
      plain := PutPieces(o, s, i, plain, step);
      depth := NextDepth(L, s, i, depth, step);
      i := next;
    }
    RenderNothing(s, i);
    assert o.sb + Emitted(s[plain..i], "") + "" == o.sb + Emitted(s[plain..i], "");
    FlushNothing(s, plain, i);
    if i > plain { o.Emit(s[plain..i], ""); }
  }

  lemma RenderNothing(s: string, i: nat)
    requires i <= |s|
    ensures Total([]) == 0 && Rendered(s, i, []) == ""
  {}

  /** scan_html, likewise. */
  method ScanHtml(o: Out, s: string)
    modifies o
    ensures Total(LexHtml(s, 0)) == |s|
    ensures o.sb == old(o.sb) + Rendered(s, 0, LexHtml(s, 0))
  {
    hide Emitted, NextHtml, Rendered;
    var i: nat, plain: nat := 0, 0;
    ghost var start := o.sb;
    FlushNothing(s, 0, 0);
    LexHtmlTiles(s, 0);
    while i < |s|
      invariant plain <= i <= |s|
      invariant i + Total(LexHtml(s, i)) == |s|
      invariant o.sb + Emitted(s[plain..i], "") + Rendered(s, i, LexHtml(s, i)) == start + Rendered(s, 0, LexHtml(s, 0))
      decreases |s| - i
    {
      var step := NextHtml(s, i);
      var next := i + Total(step);
      LexHtmlTiles(s, next);
      RenderedAppend(s, i, step, LexHtml(s, next));
      Assoc(o.sb + Emitted(s[plain..i], ""), Rendered(s, i, step), Rendered(s, next, LexHtml(s, next)));
      plain := PutPieces(o, s, i, plain, step);
      i := next;
    }
    RenderNothing(s, i);
    assert o.sb + Emitted(s[plain..i], "") + "" == o.sb + Emitted(s[plain..i], "");
    FlushNothing(s, plain, i);
    if i > plain { o.Emit(s[plain..i], ""); }
  }

  /** The source cleaned in place: carriage returns squeezed out, then the end cut. */
  method Cleaned(code: string) returns (src: string)
    ensures src == Shown(code)
  {
    src := "";
    for k := 0 to |code|
      invariant src == WithoutCr(code[..k])
    {
      assert code[..k + 1][..k] == code[..k];
      if code[k] != '\r' { src := src + [code[k]]; }
    }
    assert code[..|code|] == code;
    while |src| > 0 && src[|src| - 1] == '\n'
      invariant TrimNewLines(src) == Shown(code)
    {
      src := src[..|src| - 1];
    }
  }

  /** The scanner for the language over the whole source. */
  method PutLines(o: Out, src: string, lang: Lang)
    requires lang.Code? ==> WellFormed(lang.def)
    modifies o
    ensures Total(Lex(lang, src)) == |src|
    ensures o.sb == old(o.sb) + Rendered(src, 0, Lex(lang, src))
  {
    hide Rendered, LexCode, LexHtml, WellFormed, Emitted;
    match lang {
      case Plain =>
        o.Emit(src, "");
        PlainRendered(src);
      case Html => ScanHtml(o, src);
      case Code(L) => ScanCode(o, src, L);
    }
  }

  method HighlightHtml(code: string, key: string) returns (html: string)
    ensures html == Highlighted(code, key)
    ensures Read(Start, html) == Good(AfterLine, ShownAs(code, key)) && Erased(ShownAs(code, key)) == Shown(code)
  {
    HighlightLosesNothing(code, key);
    hide Read, ShownAs, Erased, Shown, Rendered, Lex, WellFormed, FindLang, ClassesOk;
    var src := Cleaned(code);
    var o := new Out();
    o.LineStart();
    var lang := FindLang(key);
    AllWellFormed(key);
    LexTiles(lang, src);
    PutLines(o, src, lang);
    o.LineEnd();
    Assoc(LINE_OPEN, Rendered(src, 0, Lex(lang, src)), CLOSE);
    html := o.sb;
  }

  lemma PlainRendered(s: string)
    ensures Total([Piece(|s|, "")]) == |s| && Rendered(s, 0, [Piece(|s|, "")]) == Emitted(s, "")
  {
    hide Emitted;
    var ps := [Piece(|s|, "")];
    SingleTotal(|s|, "");
    assert ps[1..] == [] && s[0..0 + ps[0].len] == s;
    assert Rendered(s, 0, ps) == Emitted(s, "") + Rendered(s, |s|, []);
  }
}
