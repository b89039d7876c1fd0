/** What the token classes of the highlighter mean (scan_code and scan_html of
    src/utils/code_highlight.c), told apart from how the scanners find them. */
module TokenClasses {
  import opened Ascii
  import opened Languages
  import opened Highlight

  // ---- Stretches of source ---------------------------------------------------------------

  /** s[a..j) is the longest stretch of such characters from a on. */
  ghost predicate Longest(s: string, a: nat, j: nat, p: char -> bool) {
    a <= j <= |s| && (forall k :: a <= k < j ==> p(s[k])) && (j < |s| ==> !p(s[j]))
  }

  /** j is just past the first m at or after `from`, or the end if there is none. */
  ghost predicate EndsAfter(s: string, from: nat, j: nat, m: string) {
    || (from + |m| <= j <= |s| && HasAt(s, j - |m|, m) && forall k :: from <= k < j - |m| ==> !HasAt(s, k, m))
    || (j == |s| && forall k :: from <= k < |s| ==> !HasAt(s, k, m))
  }

  predicate IsBlankChar(c: char) { c == ' ' || c == '\t' }

  // ---- What opens a token -------------------------------------------------------------------

  ghost predicate BlockOpens(L: LangDef, s: string, i: nat) { L.blockOpen != "" && HasAt(s, i, L.blockOpen) }

  /** A marker of a line comment; where the language wants it, '#' only after a space. */
  ghost predicate LineOpens(L: LangDef, s: string, i: nat)
    requires i < |s|
  {
    exists m :: m in L.lineComments && HasAt(s, i, m)
                && (L.hashWordStart && m != "" && m[0] == '#' && i > 0 ==> IsSpace(s[i - 1]))
  }

  ghost predicate Comment(L: LangDef, s: string, i: nat)
    requires i < |s|
  {
    BlockOpens(L, s, i) || LineOpens(L, s, i)
  }

  /** Nothing but blanks between here and the start of the line. */
  ghost predicate StartsLine(s: string, i: nat)
    requires i <= |s|
  {
    exists b: nat :: BlankFrom(s, b, i)
  }

  ghost predicate BlankFrom(s: string, b: nat, i: nat)
    requires i <= |s|
  {
    b <= i && (b == 0 || s[b - 1] == '\n') && forall k :: b <= k < i ==> IsBlankChar(s[k])
  }

  ghost predicate Directs(L: LangDef, s: string, i: nat)
    requires i < |s|
  {
    L.cPreproc && s[i] == '#' && StartsLine(s, i)
  }

  /** Marker k of the language stands here, and none before it in the list does. */
  ghost predicate Marker(L: LangDef, s: string, i: nat, k: nat) {
    k < |L.preMarkers| && HasAt(s, i, L.preMarkers[k]) && forall m :: 0 <= m < k ==> !HasAt(s, i, L.preMarkers[m])
  }

  ghost predicate Marked(L: LangDef, s: string, i: nat) { exists k :: 0 <= k < |L.preMarkers| && Marker(L, s, i, k) }

  /** Not part of a comment, a directive, a marker or a string that opens here. */
  ghost predicate Free(L: LangDef, s: string, i: nat)
    requires i < |s|
  {
    !Comment(L, s, i) && !Directs(L, s, i) && !Marked(L, s, i) && s[i] !in L.quotes
  }

  ghost predicate BraceEnd(s: string, i: nat, k: nat) {
    i + 2 <= k < |s| && s[i + 1] == '{' && s[k] == '}' && forall m :: i + 2 <= m < k ==> s[m] != '}' && s[m] != '\n'
  }

  /** A variable: "${...}" on one line, "$name", or a special one of the shell. */
  ghost predicate VarOpens(L: LangDef, s: string, i: nat)
    requires i < |s|
  {
    L.dollarVars && s[i] == '$' && i + 1 < |s|
    && ((exists k: nat :: BraceEnd(s, i, k)) || IsAlpha(s[i + 1]) || s[i + 1] == '_'
        || (L.shellSpecials && (IsDigit(s[i + 1]) || s[i + 1] in "#?@*!$-")))
  }

  predicate WordChar(L: LangDef, c: char) {
    IsAlnum(c) || c == '_' || (L.css && c == '-') || (L.dollarIdent && c == '$')
  }

  ghost predicate WordOpens(L: LangDef, s: string, i: nat)
    requires i < |s|
  {
    || IsAlpha(s[i]) || s[i] == '_' || (L.dollarIdent && s[i] == '$')
    || (L.css && s[i] == '-' && i + 1 < |s| && (IsAlpha(s[i + 1]) || s[i + 1] == '-'))
  }

  /** A digit, or a point in front of one that is not inside a word. */
  ghost predicate NumberOpens(L: LangDef, s: string, i: nat)
    requires i < |s|
  {
    IsDigit(s[i]) || (s[i] == '.' && i + 1 < |s| && IsDigit(s[i + 1]) && (i > 0 ==> !WordChar(L, s[i - 1])))
  }

  /** Left to the rules for words. */
  ghost predicate Other(L: LangDef, s: string, i: nat)
    requires i < |s|
  {
    Free(L, s, i) && !VarOpens(L, s, i) && !NumberOpens(L, s, i)
  }

  ghost predicate AtRule(L: LangDef, s: string, i: nat)
    requires i < |s|
  {
    L.css && s[i] == '@' && i + 1 < |s| && IsAlpha(s[i + 1])
  }

  /** A colour, inside a rule only. */
  ghost predicate Color(L: LangDef, s: string, i: nat, depth: nat)
    requires i < |s|
  {
    L.css && depth > 0 && s[i] == '#' && i + 1 < |s| && IsXDigit(s[i + 1])
  }

  ghost predicate Important(L: LangDef, s: string, i: nat) { L.css && HasAt(s, i, "!important") }

  ghost predicate Word(L: LangDef, s: string, i: nat)
    requires i < |s|
  {
    Other(L, s, i) && WordOpens(L, s, i)
  }

  ghost predicate Keyword(L: LangDef, w: string) { exists k :: k in L.keywords && (k == w || (L.nocase && SameFold(k, w))) }

  /** The word that ends before j is the name of a property: inside a rule, a colon after it. */
  ghost predicate Property(L: LangDef, s: string, j: nat, depth: nat) {
    L.css && depth > 0 && exists k :: j <= k < |s| && s[k] == ':' && forall m :: j <= m < k ==> IsBlankChar(s[m])
  }

  // ---- Where it ends -----------------------------------------------------------------------------

  ghost predicate CommentTo(L: LangDef, s: string, i: nat, j: nat) {
    if BlockOpens(L, s, i) then EndsAfter(s, i + |L.blockOpen|, j, L.blockClose)
    else Longest(s, i, j, (c: char) => c != '\n')
  }

  /** The path of an #include that ends before j: blanks up to b, then < to > on one line. */
  ghost predicate PathAt(s: string, j: nat, b: nat, k: nat) {
    && Longest(s, j, b, IsBlankChar) && b < k < |s| && s[b] == '<' && s[k] == '>'
    && forall m :: b <= m < k ==> s[m] != '>' && s[m] != '\n'
  }

  ghost predicate DirectiveTo(s: string, i: nat, j: nat, ps: seq<Piece>) {
    exists a: nat :: Longest(s, i + 1, a, IsBlankChar) && Longest(s, a, j, IsAlpha)
                && PathAfter(s, j, s[a..j] == "include", [Piece(j - i, "pre")], ps)
  }

  /** The path of an #include is a string of its own. */
  ghost predicate PathAfter(s: string, j: nat, isInclude: bool, head: seq<Piece>, ps: seq<Piece>) {
    if isInclude && exists b: nat, k: nat :: PathAt(s, j, b, k)
    then exists b: nat, k: nat :: PathAt(s, j, b, k) && ps == head + [Piece(b - j, ""), Piece(k + 1 - b, "str")]
    else ps == head
  }

  ghost predicate PreTo(L: LangDef, s: string, i: nat, j: nat, ps: seq<Piece>)
    requires i < |s|
  {
    if Directs(L, s, i) then DirectiveTo(s, i, j, ps)
    else |ps| == 1 && exists k: nat :: Marker(L, s, i, k) && j == i + |L.preMarkers[k]|
  }

  /** How many backslashes stand right before m, behind the quote at i. */
  function Slashes(s: string, i: nat, m: nat): nat
    requires m <= |s|
    decreases m
  {
    if i + 1 < m && s[m - 1] == '\\' then 1 + Slashes(s, i, m - 1) else 0
  }

  /** A quote or, in strings of one line, a newline that is not escaped. */
  ghost predicate Stops(s: string, i: nat, m: nat, q: char, multiline: bool)
    requires m < |s|
  {
    Slashes(s, i, m) % 2 == 0 && (s[m] == q || (s[m] == '\n' && !multiline))
  }

  /** The first stop at k ends the string: behind a quote, in front of a newline. */
  ghost predicate ClosesAt(s: string, i: nat, k: nat, j: nat, q: char, multiline: bool) {
    && i < k <= |s| && (forall m :: i < m < k ==> !Stops(s, i, m, q, multiline))
    && if k == |s| then j == k else Stops(s, i, k, q, multiline) && j == if s[k] == q then k + 1 else k
  }

  ghost predicate Closes(s: string, i: nat, j: nat, q: char, multiline: bool) {
    exists k: nat :: ClosesAt(s, i, k, j, q, multiline)
  }

  ghost predicate StringTo(L: LangDef, s: string, i: nat, j: nat)
    requires i < |s|
  {
    var q := s[i];
    if L.tripleQuotes && HasAt(s, i, [q, q, q]) then EndsAfter(s, i + 3, j, [q, q, q])
    else Closes(s, i, j, q, L.multilineStrings || q == '`')
  }

  ghost predicate VarTo(s: string, i: nat, j: nat)
    requires i + 1 < |s|
  {
    if s[i + 1] == '{' then j > 0 && BraceEnd(s, i, j - 1)
    else if IsAlpha(s[i + 1]) || s[i + 1] == '_' then Longest(s, i + 1, j, (c: char) => IsAlnum(c) || c == '_')
    else j == i + 2
  }

  ghost predicate NumberTo(L: LangDef, s: string, i: nat, j: nat)
    requires i < |s|
  {
    if NumberOpens(L, s, i)
    then Longest(s, i + 1, j, (c: char) => IsAlnum(c) || c == '.' || c == '_' || (L.css && c == '%'))
    else Longest(s, i + 1, j, IsXDigit)
  }

  // ---- One token -----------------------------------------------------------------------------------

  /** What is taken at i, with its class: exactly when each class is given, and where
      the token ends. */
  ghost predicate Turn(L: LangDef, s: string, i: nat, depth: nat, ps: seq<Piece>)
    requires i < |s|
  {
    ps != [] && i < i + ps[0].len <= |s| && TurnIs(L, s, i, i + ps[0].len, depth, ps[0].cls) && Pieces(L, s, i, ps)
  }

  ghost predicate Pieces(L: LangDef, s: string, i: nat, ps: seq<Piece>)
    requires i < |s| && ps != []
  {
    if ps[0].cls == "pre" then PreTo(L, s, i, i + ps[0].len, ps) else |ps| == 1
  }

  ghost predicate TurnIs(L: LangDef, s: string, i: nat, j: nat, depth: nat, cls: string)
    requires i < |s| && i < j <= |s|
  {
    var claimed, other, word := Comment(L, s, i), Other(L, s, i), Word(L, s, i);
    var pre, prop, kw := Directs(L, s, i) || Marked(L, s, i), Property(L, s, j, depth), Keyword(L, s[i..j]);
    && (cls == "com" <==> claimed) && (cls == "com" ==> CommentTo(L, s, i, j))
    && (cls == "pre" <==> !claimed && pre)
    && (cls == "str" <==> !claimed && !pre && s[i] in L.quotes) && (cls == "str" ==> StringTo(L, s, i, j))
    && (cls == "var" <==> Free(L, s, i) && VarOpens(L, s, i)) && (cls == "var" ==> VarTo(s, i, j))
    && (cls == "num" <==> Free(L, s, i) && !VarOpens(L, s, i) && (NumberOpens(L, s, i) || Color(L, s, i, depth)))
    && (cls == "num" ==> NumberTo(L, s, i, j))
    && (word ==> Longest(s, i, j, (c: char) => WordChar(L, c)))
    && (cls == "attr" <==> word && prop)
    && (cls == "kw" <==> (other && (AtRule(L, s, i) || Important(L, s, i))) || (word && !prop && kw))
    && (cls == "kw" && !word ==> if s[i] == '@' then Longest(s, i + 1, j, (c: char) => WordChar(L, c)) else j == i + 10)
    && (cls == "fn" <==> word && !prop && !kw && j < |s| && s[j] == '(')
    && (cls == "" && !word ==> j == i + 1)
    && cls in ["com", "pre", "str", "var", "num", "attr", "kw", "fn", ""]
  }

  /** Open braces of a style sheet; only one that is no part of a token counts. */
  function BracesAfter(L: LangDef, c: char, cls: string, depth: nat): nat {
    if !L.css || cls != "" then depth
    else if c == '{' then depth + 1
    else if c == '}' && depth > 0 then depth - 1
    else depth
  }

  /** The pieces are, token after token, what the language's rules say. */
  ghost predicate Scanned(L: LangDef, s: string, i: nat, depth: nat, ps: seq<Piece>)
    decreases |ps|
  {
    if ps == [] then i == |s|
    else i < |s| && exists n :: ScannedTo(L, s, i, depth, ps, n)
  }

  ghost predicate ScannedTo(L: LangDef, s: string, i: nat, depth: nat, ps: seq<Piece>, n: nat)
    requires i < |s| && ps != []
    decreases |ps|, 0
  {
    0 < n <= |ps| && Turn(L, s, i, depth, ps[..n])
    && Scanned(L, s, i + Total(ps[..n]), BracesAfter(L, s[i], ps[0].cls, depth), ps[n..])
  }

  // ---- The scanner keeps to the rules ---------------------------------------------------------------

  lemma {:induction false} RunIsLongest(s: string, i: nat, p: char -> bool)
    requires i <= |s|
    ensures Longest(s, i, RunEnd(s, i, p), p)
    decreases |s| - i
  {
    if i < |s| && p(s[i]) { RunIsLongest(s, i + 1, p); }
  }

  lemma SpanEnds(s: string, from: nat, m: string)
    requires from <= |s| && m != ""
    ensures EndsAfter(s, from, SpanTo(s, from, m), m)
  {}

  lemma LineCommentIs(L: LangDef, s: string, i: nat)
    requires i < |s| && WellFormed(L)
    ensures LineCommentAt(L, s, i) <==> LineOpens(L, s, i)
  {
    hide HasAt;
    if LineCommentAt(L, s, i) {
      var k :| 0 <= k < |L.lineComments| && HasAt(s, i, L.lineComments[k])
               && !(L.hashWordStart && L.lineComments[k] != "" && L.lineComments[k][0] == '#'
                    && 0 < i <= |s| && !IsSpace(s[i - 1]));
      assert L.lineComments[k] in L.lineComments;
    }
  }

  lemma {:induction false} LineStartIs(s: string, i: nat)
    requires i <= |s|
    ensures AtLineStart(s, i) <==> StartsLine(s, i)
  {
    if i > 0 && IsBlankChar(s[i - 1]) {
      LineStartIs(s, i - 1);
      if StartsLine(s, i - 1) {
        var b: nat :| BlankFrom(s, b, i - 1);
        assert BlankFrom(s, b, i);
      }
      if StartsLine(s, i) {
        var b: nat :| BlankFrom(s, b, i);
        assert BlankFrom(s, b, i - 1);
      }
    } else if i == 0 || s[i - 1] == '\n' {
      assert BlankFrom(s, i, i);
    }
  }

  lemma {:induction false} MarkerIs(ms: seq<string>, s: string, i: nat) returns (k: nat)
    requires forall m :: 0 <= m < |ms| ==> ms[m] != ""
    ensures k <= |ms| && (forall m :: 0 <= m < k ==> !HasAt(s, i, ms[m]))
    ensures k < |ms| ==> HasAt(s, i, ms[k]) && MarkerLen(ms, s, i) == |ms[k]| > 0
    ensures k == |ms| ==> MarkerLen(ms, s, i) == 0
  {
    hide HasAt;
    k := 0;
    if ms != [] && !HasAt(s, i, ms[0]) {
      k := MarkerIs(ms[1..], s, i);
      assert forall m :: 0 <= m < k ==> ms[1..][m] == ms[m + 1];
      k := k + 1;
    }
  }

  /** The scan of a string: from an unescaped place on, it stops at the first stop. */
  lemma {:induction false} StringStops(s: string, i: nat, from: nat, q: char, multiline: bool) returns (k: nat)
    requires i < from <= |s| && Slashes(s, i, from) % 2 == 0 && q != '\\' && q != '\n'
    ensures from <= k <= |s| && (forall m :: from <= m < k ==> !Stops(s, i, m, q, multiline))
    ensures var j := StringEnd(s, from, q, multiline);
            if k == |s| then j == k else Stops(s, i, k, q, multiline) && j == if s[k] == q then k + 1 else k
    decreases |s| - from
  {
    k := from;
    if from < |s| {
      if s[from] == '\\' && from + 1 < |s| {
        assert Slashes(s, i, from + 1) == 1 + Slashes(s, i, from);
        k := StringStops(s, i, from + 2, q, multiline);
      } else if s[from] != q && !(s[from] == '\n' && !multiline) {
        if from + 1 < |s| { k := StringStops(s, i, from + 1, q, multiline); } else { k := |s|; }
      }
    }
  }

  lemma StringIs(L: LangDef, s: string, i: nat)
    requires i < |s| && s[i] in L.quotes && WellFormed(L)
    ensures StringTo(L, s, i, i + StringLen(L, s, i))
  {
    hide HasAt, EndsAfter, SpanTo, StringEnd, Closes;
    var q := s[i];
    TripleIs(s, i, q);
    if L.tripleQuotes && HasAt(s, i, [q, q, q]) {
      SpanEnds(s, i + 3, [q, q, q]);
    } else {
      SingleIs(s, i, q, L.multilineStrings || q == '`');
    }
  }

  lemma TripleIs(s: string, i: nat, q: char)
    requires i < |s| && s[i] == q
    ensures HasAt(s, i, [q, q, q]) <==> At(s, i + 1) == q && At(s, i + 2) == q && i + 2 < |s|
  {
    if i + 2 < |s| {
      var t := s[i..i + 3];
      assert t[0] == s[i] && t[1] == s[i + 1] && t[2] == s[i + 2];
    }
  }

  lemma SingleIs(s: string, i: nat, q: char, multiline: bool)
    requires i < |s| && q != '\\' && q != '\n'
    ensures Closes(s, i, StringEnd(s, i + 1, q, multiline), q, multiline)
  {
    hide StringEnd, Stops;
    var k := StringStops(s, i, i + 1, q, multiline);
    assert ClosesAt(s, i, k, StringEnd(s, i + 1, q, multiline), q, multiline);
  }

  lemma CommentIs(L: LangDef, s: string, i: nat)
    requires i < |s| && WellFormed(L) && Comment(L, s, i)
    ensures BlockOpens(L, s, i) ==> CommentTo(L, s, i, SpanTo(s, i + |L.blockOpen|, L.blockClose))
    ensures !BlockOpens(L, s, i) ==> CommentTo(L, s, i, Find(s, i, '\n'))
  {
    hide SpanTo, EndsAfter;
    if BlockOpens(L, s, i) { SpanEnds(s, i + |L.blockOpen|, L.blockClose); }
  }

  lemma MarkedIs(L: LangDef, s: string, i: nat)
    requires i < |s| && WellFormed(L)
    ensures MarkerLen(L.preMarkers, s, i) > 0 <==> Marked(L, s, i)
    ensures Marked(L, s, i) ==> exists k: nat :: Marker(L, s, i, k) && MarkerLen(L.preMarkers, s, i) == |L.preMarkers[k]|
  {
    hide HasAt, MarkerLen;
    var k := MarkerIs(L.preMarkers, s, i);
    if k < |L.preMarkers| { assert Marker(L, s, i, k); }
  }

  lemma PathIs(s: string, j: nat, b: nat, k: nat)
    requires j <= |s| && b == RunEnd(s, j, Blank()) && k == RunEnd(s, b, NoneOf('>'))
    ensures (b < |s| && s[b] == '<' && k < |s| && s[k] == '>') <==> PathAt(s, j, b, k)
    ensures forall b2: nat, k2: nat :: PathAt(s, j, b2, k2) ==> b2 == b && k2 == k
  {
    RunIsLongest(s, j, Blank());
    RunIsLongest(s, b, NoneOf('>'));
    forall b2: nat, k2: nat | PathAt(s, j, b2, k2) ensures b2 == b && k2 == k {
      SameEnd(s, j, b2, b);
      assert forall m :: b <= m < k ==> NoneOf('>')(s[m]);
    }
  }

  lemma SameEnd(s: string, j: nat, b2: nat, b: nat)
    requires Longest(s, j, b2, IsBlankChar) && Longest(s, j, b, Blank())
    ensures b2 == b
  {
    assert forall m :: j <= m < b ==> Blank()(s[m]);
    assert forall m :: j <= m < b2 ==> IsBlankChar(s[m]);
  }

  lemma DirectiveIs(s: string, i: nat)
    requires i < |s|
    ensures var ps := Directive(s, i);
            ps != [] && ps[0].cls == "pre" && 0 < ps[0].len <= |s| - i && DirectiveTo(s, i, i + ps[0].len, ps)
  {
    hide RunEnd, Longest, PathAt, PathAfter;
    var a := RunEnd(s, i + 1, Blank());
    var j := RunEnd(s, a, IsAlpha);
    RunIsLongest(s, i + 1, Blank());
    RunIsLongest(s, a, IsAlpha);
    BlanksAre(s, i + 1, a);
    var head := [Piece(j - i, "pre")];
    var b := RunEnd(s, j, Blank());
    var k := RunEnd(s, b, NoneOf('>'));
    PathIs(s, j, b, k);
    DirectiveShape(s, i, a, j, b, k);
    PathAfterIs(s, j, b, k, s[a..j] == "include", head, Directive(s, i));
  }

  lemma DirectiveShape(s: string, i: nat, a: nat, j: nat, b: nat, k: nat)
    requires i < |s| && a == RunEnd(s, i + 1, Blank()) && j == RunEnd(s, a, IsAlpha)
    requires b == RunEnd(s, j, Blank()) && k == RunEnd(s, b, NoneOf('>'))
    ensures var head := [Piece(j - i, "pre")];
            Directive(s, i) ==
            if s[a..j] == "include" && b < |s| && s[b] == '<' && k < |s| && s[k] == '>'
            then head + [Piece(b - j, ""), Piece(k + 1 - b, "str")] else head
  {
    hide RunEnd, Advances, Within;
    var head := [Piece(j - i, "pre")];
    SingleTotal(j - i, "pre");
    assert head + [] == head;
  }

  lemma BlanksAre(s: string, i: nat, a: nat)
    requires Longest(s, i, a, Blank())
    ensures Longest(s, i, a, IsBlankChar)
  {
    forall k | i <= k < a ensures IsBlankChar(s[k]) { assert Blank()(s[k]); }
  }

  lemma PathAfterIs(s: string, j: nat, b: nat, k: nat, isInclude: bool, head: seq<Piece>, ps: seq<Piece>)
    requires b >= j && forall b2: nat, k2: nat :: PathAt(s, j, b2, k2) ==> b2 == b && k2 == k
    requires ps == if isInclude && PathAt(s, j, b, k) then head + [Piece(b - j, ""), Piece(k + 1 - b, "str")] else head
    ensures PathAfter(s, j, isInclude, head, ps)
  {
    hide PathAt;
  }

  lemma BraceIs(s: string, i: nat)
    requires i + 1 < |s| && s[i + 1] == '{'
    ensures var j := RunEnd(s, i + 2, NoneOf('}'));
            && (j < |s| && s[j] == '}' <==> BraceEnd(s, i, j))
            && forall k: nat :: BraceEnd(s, i, k) ==> k == j
  {
    hide RunEnd;
    var j := RunEnd(s, i + 2, NoneOf('}'));
    RunIsLongest(s, i + 2, NoneOf('}'));
    assert forall m :: i + 2 <= m < j ==> NoneOf('}')(s[m]);
  }

  lemma NoBrace(s: string, i: nat)
    requires i + 1 < |s| && s[i + 1] != '{'
    ensures forall k: nat :: !BraceEnd(s, i, k)
  {}

  lemma VariableIs(L: LangDef, s: string, i: nat)
    requires i + 1 < |s| && L.dollarVars && s[i] == '$'
    ensures Variable(L, s, i) != [] <==> VarOpens(L, s, i)
    ensures VarOpens(L, s, i) ==> |Variable(L, s, i)| == 1 && Variable(L, s, i)[0].cls == "var"
                                  && 0 < Variable(L, s, i)[0].len <= |s| - i && VarTo(s, i, i + Variable(L, s, i)[0].len)
  {
    hide RunEnd, BraceEnd;
    if s[i + 1] == '{' {
      BraceIs(s, i);
    } else if !IsAlpha(s[i + 1]) && s[i + 1] != '_' {
      NoBrace(s, i);
    } else if IsAlpha(s[i + 1]) || s[i + 1] == '_' {
      RunIsLongest(s, i + 1, InName());
      var j := RunEnd(s, i + 1, InName());
      assert forall m :: i + 1 <= m < j ==> InName()(s[m]);
    }
  }

  lemma NumberIs(L: LangDef, s: string, i: nat)
    requires i < |s|
    ensures NumberAt(L, s, i) <==> NumberOpens(L, s, i)
    ensures NumberOpens(L, s, i) ==> NumberTo(L, s, i, RunEnd(s, i + 1, InNumber(L)))
  {
    hide RunEnd;
    RunIsLongest(s, i + 1, InNumber(L));
    var j := RunEnd(s, i + 1, InNumber(L));
    assert forall m :: i + 1 <= m < j ==> InNumber(L)(s[m]);
  }

  lemma WordRun(L: LangDef, s: string, i: nat)
    requires i < |s|
    ensures Longest(s, i + 1, RunEnd(s, i + 1, InIdent(L)), (c: char) => WordChar(L, c))
    ensures WordOpens(L, s, i) ==> Longest(s, i, RunEnd(s, i + 1, InIdent(L)), (c: char) => WordChar(L, c))
    ensures IsIdentStart(L, s, i) <==> WordOpens(L, s, i)
  {
    hide RunEnd;
    RunIsLongest(s, i + 1, InIdent(L));
    var j := RunEnd(s, i + 1, InIdent(L));
    assert forall m :: i + 1 <= m < j ==> InIdent(L)(s[m]);
  }

  lemma KeywordIs(L: LangDef, w: string)
    ensures IsKeyword(L, w) <==> Keyword(L, w)
  {
    if IsKeyword(L, w) {
      var k :| 0 <= k < |L.keywords| && if L.nocase then SameFold(L.keywords[k], w) else L.keywords[k] == w;
      assert L.keywords[k] in L.keywords;
    }
  }

  lemma PropertyIs(L: LangDef, s: string, j: nat, depth: nat)
    requires j <= |s|
    ensures (L.css && depth > 0 && At(s, RunEnd(s, j, Blank())) == ':') <==> Property(L, s, j, depth)
  {
    hide RunEnd;
    var k := RunEnd(s, j, Blank());
    RunIsLongest(s, j, Blank());
    BlanksAre(s, j, k);
    if n :| j <= n < |s| && s[n] == ':' && forall m :: j <= m < n ==> IsBlankChar(s[m]) {
      assert Longest(s, j, n, IsBlankChar);
      SameEnd(s, j, n, k);
    }
  }

  // ---- Every turn of the code scanner ------------------------------------------------------------

  lemma OneTurn(L: LangDef, s: string, i: nat, depth: nat, j: nat, cls: string)
    requires i < j <= |s| && cls != "pre" && TurnIs(L, s, i, j, depth, cls)
    ensures Turn(L, s, i, depth, [Piece(j - i, cls)])
  {
    hide TurnIs;
  }

  lemma CommentTurn(L: LangDef, s: string, i: nat, j: nat, depth: nat)
    requires i < j <= |s| && Comment(L, s, i) && CommentTo(L, s, i, j)
    ensures TurnIs(L, s, i, j, depth, "com")
  {
    hide Comment, CommentTo, Directs, Marked, Property, Keyword, Longest;
  }

  lemma PreTurn(L: LangDef, s: string, i: nat, j: nat, depth: nat)
    requires i < j <= |s| && !Comment(L, s, i) && (Directs(L, s, i) || Marked(L, s, i))
    ensures TurnIs(L, s, i, j, depth, "pre")
  {
    hide Comment, Directs, Marked, Property, Keyword, Longest;
  }

  lemma StringTurn(L: LangDef, s: string, i: nat, j: nat, depth: nat)
    requires i < j <= |s| && !Comment(L, s, i) && !Directs(L, s, i) && !Marked(L, s, i) && s[i] in L.quotes
    requires StringTo(L, s, i, j)
    ensures TurnIs(L, s, i, j, depth, "str")
  {
    hide Comment, Directs, Marked, Property, Keyword, Longest, StringTo;
  }

  lemma VarTurn(L: LangDef, s: string, i: nat, j: nat, depth: nat)
    requires i < j <= |s| && i + 1 < |s| && Free(L, s, i) && VarOpens(L, s, i) && VarTo(s, i, j)
    ensures TurnIs(L, s, i, j, depth, "var")
  {
    hide Comment, Directs, Marked, VarOpens, Property, Keyword, Longest, VarTo;
  }

  lemma NumberTurn(L: LangDef, s: string, i: nat, j: nat, depth: nat)
    requires i < j <= |s| && Free(L, s, i) && !VarOpens(L, s, i) && NumberOpens(L, s, i) && NumberTo(L, s, i, j)
    ensures TurnIs(L, s, i, j, depth, "num")
  {
    hide Comment, Directs, Marked, VarOpens, NumberOpens, Property, Keyword, Longest, NumberTo;
  }

  lemma CssTurn(L: LangDef, s: string, i: nat, depth: nat)
    requires i < |s| && Other(L, s, i) && L.css
    ensures CssToken(L, s, i, depth) != [] <==> AtRule(L, s, i) || Color(L, s, i, depth) || Important(L, s, i)
    ensures CssToken(L, s, i, depth) != [] ==> Turn(L, s, i, depth, CssToken(L, s, i, depth))
  {
    hide Comment, Directs, Marked, VarOpens, NumberOpens, Property, Keyword, Longest, RunEnd, HasAt, Turn;
    ImportantAt(s, i);
    if AtRule(L, s, i) {
      var j := RunEnd(s, i + 1, InIdent(L));
      WordRun(L, s, i);
      assert TurnIs(L, s, i, j, depth, "kw");
      OneTurn(L, s, i, depth, j, "kw");
    } else if Color(L, s, i, depth) {
      var j := RunEnd(s, i + 1, IsXDigit);
      RunIsLongest(s, i + 1, IsXDigit);
      assert TurnIs(L, s, i, j, depth, "num");
      OneTurn(L, s, i, depth, j, "num");
    } else if Important(L, s, i) {
      assert TurnIs(L, s, i, i + 10, depth, "kw");
      OneTurn(L, s, i, depth, i + 10, "kw");
    }
  }

  lemma ImportantAt(s: string, i: nat)
    requires i < |s|
    ensures HasAt(s, i, "!important") ==> s[i] == '!' && i + 10 <= |s|
  {
    if HasAt(s, i, "!important") { assert s[i..i + 10][0] == s[i]; }
  }

  /** What a word is shown as, and any other character. */
  lemma WordTurn(L: LangDef, s: string, i: nat, depth: nat)
    requires i < |s| && Other(L, s, i) && WordOpens(L, s, i)
    ensures Turn(L, s, i, depth, Identifier(L, s, i, depth))
  {
    hide Comment, Directs, Marked, VarOpens, NumberOpens, Property, Keyword, IsKeyword, Longest, RunEnd, Turn;
    var j := RunEnd(s, i + 1, InIdent(L));
    WordRun(L, s, i);
    PropertyIs(L, s, j, depth);
    KeywordIs(L, s[i..j]);
    ImportantAt(s, i);
    var cls := Identifier(L, s, i, depth)[0].cls;
    assert TurnIs(L, s, i, j, depth, cls);
    OneTurn(L, s, i, depth, j, cls);
  }

  lemma PlainTurn(L: LangDef, s: string, i: nat, depth: nat)
    requires i < |s| && Other(L, s, i) && !WordOpens(L, s, i)
    requires !AtRule(L, s, i) && !Color(L, s, i, depth) && !Important(L, s, i)
    ensures Turn(L, s, i, depth, [Piece(1, "")])
  {
    hide Comment, Directs, Marked, VarOpens, NumberOpens, WordOpens, AtRule, Color, Important, Property, Keyword, Longest, Turn;
    assert TurnIs(L, s, i, i + 1, depth, "");
    OneTurn(L, s, i, depth, i + 1, "");
  }

  /** Every turn of the scanner takes what the rules say. */
  lemma NextIsTurn(L: LangDef, s: string, i: nat, depth: nat)
    requires i < |s| && WellFormed(L)
    ensures Turn(L, s, i, depth, NextCode(L, s, i, depth))
  {
    hide WellFormed, Turn, TurnIs, Comment, Directs, Marked, AtLineStart, StartsLine, LineCommentAt, MarkerLen, Variable, VarOpens;
    hide NumberAt, NumberOpens, CssToken, AtRule, Color, Important, Identifier, IsIdentStart, WordOpens, HasAt, SpanTo, StringLen;
    hide RunEnd, Directive, Find;
    Openers(L, s, i);
    if Comment(L, s, i) {
      CommentTaken(L, s, i, depth);
    } else if Directs(L, s, i) {
      DirectiveTaken(L, s, i, depth);
    } else if Marked(L, s, i) {
      MarkerTaken(L, s, i, depth);
    } else if s[i] in L.quotes {
      StringIs(L, s, i);
      StringTurn(L, s, i, i + StringLen(L, s, i), depth);
      OneTurn(L, s, i, depth, i + StringLen(L, s, i), "str");
    } else if VarOpens(L, s, i) {
      VarTaken(L, s, i, depth);
    } else if NumberOpens(L, s, i) {
      NumberIs(L, s, i);
      NumberTurn(L, s, i, RunEnd(s, i + 1, InNumber(L)), depth);
      OneTurn(L, s, i, depth, RunEnd(s, i + 1, InNumber(L)), "num");
    } else {
      assert Other(L, s, i);
      if L.css { CssTurn(L, s, i, depth); } else { NoCss(L, s, i, depth); }
      if !L.css || CssToken(L, s, i, depth) == [] {
        if WordOpens(L, s, i) { WordTurn(L, s, i, depth); } else { PlainTurn(L, s, i, depth); }
      }
    }
  }

  lemma NoCss(L: LangDef, s: string, i: nat, depth: nat)
    requires i < |s| && !L.css
    ensures !AtRule(L, s, i) && !Color(L, s, i, depth) && !Important(L, s, i)
  {}

  /** The tests of the scanner are those of the rules. */
  lemma Openers(L: LangDef, s: string, i: nat)
    requires i < |s| && WellFormed(L)
    ensures (L.blockOpen != "" && HasAt(s, i, L.blockOpen)) || LineCommentAt(L, s, i) <==> Comment(L, s, i)
    ensures L.cPreproc && s[i] == '#' && AtLineStart(s, i) <==> Directs(L, s, i)
    ensures MarkerLen(L.preMarkers, s, i) > 0 <==> Marked(L, s, i)
    ensures L.dollarVars && s[i] == '$' && i + 1 < |s| && Variable(L, s, i) != [] <==> VarOpens(L, s, i)
    ensures NumberAt(L, s, i) <==> NumberOpens(L, s, i)
    ensures IsIdentStart(L, s, i) <==> WordOpens(L, s, i)
  {
    hide WellFormed, HasAt, LineCommentAt, LineOpens, AtLineStart, StartsLine, MarkerLen, Marked, Variable, NumberAt, NumberOpens;
    hide IsIdentStart, WordOpens, RunEnd, Longest, VarTo, NumberTo;
    LineCommentIs(L, s, i);
    LineStartIs(s, i);
    MarkedIs(L, s, i);
    if L.dollarVars && s[i] == '$' && i + 1 < |s| { VariableIs(L, s, i); }
    NumberIs(L, s, i);
    WordRun(L, s, i);
  }

  lemma CommentTaken(L: LangDef, s: string, i: nat, depth: nat)
    requires i < |s| && WellFormed(L) && Comment(L, s, i)
    ensures Turn(L, s, i, depth, NextCode(L, s, i, depth))
  {
    hide Turn, TurnIs, Directs, Marked, AtLineStart, LineCommentAt, LineOpens, MarkerLen, Variable, NumberAt, CssToken, Identifier;
    hide IsIdentStart, HasAt, SpanTo, StringLen, RunEnd, Directive, Find, CommentTo;
    LineCommentIs(L, s, i);
    CommentIs(L, s, i);
    var j: nat;
    if BlockOpens(L, s, i) {
      j := SpanTo(s, i + |L.blockOpen|, L.blockClose);
      BlockAdvances(L, s, i);
    } else {
      j := Find(s, i, '\n');
      LineCommentAdvances(L, s, i);
    }
    CommentTurn(L, s, i, j, depth);
    OneTurn(L, s, i, depth, j, "com");
  }

  lemma BlockAdvances(L: LangDef, s: string, i: nat)
    requires i < |s| && WellFormed(L) && BlockOpens(L, s, i)
    ensures i + |L.blockOpen| <= |s| && i < SpanTo(s, i + |L.blockOpen|, L.blockClose) <= |s|
  {}

  lemma DirectiveTaken(L: LangDef, s: string, i: nat, depth: nat)
    requires i < |s| && WellFormed(L) && !Comment(L, s, i) && Directs(L, s, i)
    ensures Turn(L, s, i, depth, NextCode(L, s, i, depth))
  {
    hide TurnIs, Marked, AtLineStart, StartsLine, LineCommentAt, LineOpens, MarkerLen, Variable, NumberAt, CssToken, Identifier;
    hide IsIdentStart, HasAt, SpanTo, StringLen, RunEnd, Directive, Find, DirectiveTo;
    LineCommentIs(L, s, i);
    LineStartIs(s, i);
    DirectiveIs(s, i);
    PreTurn(L, s, i, i + Directive(s, i)[0].len, depth);
  }

  lemma MarkerTaken(L: LangDef, s: string, i: nat, depth: nat)
    requires i < |s| && WellFormed(L) && !Comment(L, s, i) && !Directs(L, s, i) && Marked(L, s, i)
    ensures Turn(L, s, i, depth, NextCode(L, s, i, depth))
  {
    hide TurnIs, Marked, Marker, AtLineStart, StartsLine, LineCommentAt, LineOpens, MarkerLen, Variable, NumberAt, CssToken, Identifier;
    hide IsIdentStart, HasAt, SpanTo, StringLen, RunEnd, Directive, Find, DirectiveTo;
    LineCommentIs(L, s, i);
    LineStartIs(s, i);
    MarkedIs(L, s, i);
    MarkerFits(L.preMarkers, s, i);
    PreTurn(L, s, i, i + MarkerLen(L.preMarkers, s, i), depth);
  }

  lemma VarTaken(L: LangDef, s: string, i: nat, depth: nat)
    requires i < |s| && Free(L, s, i) && VarOpens(L, s, i)
    ensures L.dollarVars && s[i] == '$' && i + 1 < |s| && Turn(L, s, i, depth, Variable(L, s, i))
  {
    hide Turn, TurnIs, Free, Variable, VarTo;
    VariableIs(L, s, i);
    var p := Variable(L, s, i)[0];
    VarTurn(L, s, i, i + p.len, depth);
    OneTurn(L, s, i, depth, i + p.len, "var");
    assert Variable(L, s, i) == [p] && p == Piece(p.len, "var");
  }

  lemma DepthIs(L: LangDef, s: string, i: nat, depth: nat)
    requires i < |s| && WellFormed(L) && Turn(L, s, i, depth, NextCode(L, s, i, depth))
    ensures var ps := NextCode(L, s, i, depth); NextDepth(L, s, i, depth, ps) == BracesAfter(L, s[i], ps[0].cls, depth)
  {
    hide NextCode, Comment, Directs, Marked, VarOpens, NumberOpens, AtRule, Color, Important, Property, Keyword, PreTo, CommentTo;
    hide StringTo, VarTo, NumberTo, WellFormed;
    var ps := NextCode(L, s, i, depth);
    if s[i] in "{}" { assert !WordOpens(L, s, i); }
    assert ps == [ps[0]] || ps[0].cls == "pre";
  }

  lemma {:induction false} LexScanned(L: LangDef, s: string, i: nat, depth: nat)
    requires i <= |s| && WellFormed(L)
    ensures Scanned(L, s, i, depth, LexCode(L, s, i, depth))
    decreases |s| - i
  {
    hide NextCode, Turn, NextDepth, BracesAfter, WellFormed;
    if i < |s| {
      var step := NextCode(L, s, i, depth);
      NextIsTurn(L, s, i, depth);
      DepthIs(L, s, i, depth);
      TurnSome(L, s, i, depth, step);
      var d := NextDepth(L, s, i, depth, step);
      var rest := LexCode(L, s, i + Total(step), d);
      LexScanned(L, s, i + Total(step), d);
      var ps := step + rest;
      assert ps[..|step|] == step && ps[|step|..] == rest && ps[0] == step[0];
      assert ScannedTo(L, s, i, depth, ps, |step|);
    }
  }

  lemma TurnSome(L: LangDef, s: string, i: nat, depth: nat, ps: seq<Piece>)
    requires i < |s| && Turn(L, s, i, depth, ps)
    ensures ps != []
  {
    hide TurnIs, Pieces;
  }

  /** In every language of the table, source is cut into the tokens its rules ask for. */
  lemma CodeClasses(key: string, s: string)
    requires FindLang(key).Code?
    ensures WellFormed(FindLang(key).def) && Scanned(FindLang(key).def, s, 0, 0, Lex(FindLang(key), s))
  {
    hide FindLang, Scanned, LexCode;
    AllWellFormed(key);
    LexScanned(FindLang(key).def, s, 0, 0);
  }

  // ---- Markup ---------------------------------------------------------------------------------------

  /** Inside a tag, from i on: quoted values, names, and the end of the tag; anything
      else stands for itself. */
  ghost predicate InTag(s: string, i: nat, ps: seq<Piece>)
    decreases |ps|
  {
    if ps == [] then i == |s|
    else
      && i < i + ps[0].len <= |s| && TagPart(s, i, i + ps[0].len, ps[0].cls)
      && if ps[0].cls == "tag" then |ps| == 1 else InTag(s, i + ps[0].len, ps[1..])
  }

  ghost predicate TagPart(s: string, i: nat, j: nat, cls: string)
    requires i < j <= |s|
  {
    var c := s[i];
    && (cls == "tag" <==> c == '>' || HasAt(s, i, "/>")) && (cls == "tag" ==> j == if c == '>' then i + 1 else i + 2)
    && (cls == "str" <==> c == '"' || c == '\'') && (cls == "str" ==> EndsAfter(s, i + 1, j, [c]))
    && (cls == "attr" <==> IsAlpha(c) || c in "_:@")
    && (cls == "attr" ==> Longest(s, i + 1, j, (d: char) => IsAlnum(d) || d in "-_:.@"))
    && (cls == "" ==> j == i + 1) && cls in ["tag", "str", "attr", ""]
  }

  ghost predicate TagOpens(s: string, i: nat)
    requires i < |s|
  {
    s[i] == '<' && i + 1 < |s| && (IsAlpha(s[i + 1]) || s[i + 1] in "/!")
  }

  /** What is taken at i: a comment up to its end, a tag's name and its inside, or one character. */
  ghost predicate HtmlTurn(s: string, i: nat, ps: seq<Piece>)
    requires i < |s|
  {
    && ps != [] && i < i + ps[0].len <= |s|
    && var j, cls := i + ps[0].len, ps[0].cls;
    && (cls == "com" <==> HasAt(s, i, "<!--")) && (cls == "com" ==> EndsAfter(s, i + 4, j, "-->") && |ps| == 1)
    && (cls == "tag" <==> !HasAt(s, i, "<!--") && TagOpens(s, i))
    && (cls == "tag" ==> Longest(s, if s[i + 1] in "/!" then i + 2 else i + 1, j, (d: char) => IsAlnum(d) || d in "-:")
                         && InTag(s, j, ps[1..]))
    && (cls == "" ==> j == i + 1 && |ps| == 1) && cls in ["com", "tag", ""]
  }

  ghost predicate HtmlScanned(s: string, i: nat, ps: seq<Piece>)
    decreases |ps|
  {
    if ps == [] then i == |s| else i < |s| && exists n :: HtmlScannedTo(s, i, ps, n)
  }

  ghost predicate HtmlScannedTo(s: string, i: nat, ps: seq<Piece>, n: nat)
    requires i < |s| && ps != []
    decreases |ps|, 0
  {
    0 < n <= |ps| && HtmlTurn(s, i, ps[..n]) && HtmlScanned(s, i + Total(ps[..n]), ps[n..])
  }

  lemma TagEnd(s: string, i: nat)
    requires i < |s|
    ensures HasAt(s, i, "/>") <==> s[i] == '/' && At(s, i + 1) == '>'
  {
    if i + 2 <= |s| { assert s[i..i + 2] == [s[i], s[i + 1]]; }
  }

  lemma QuoteEnds(s: string, i: nat, c: char)
    requires i < |s|
    ensures var k := Find(s, i + 1, c); EndsAfter(s, i + 1, if k < |s| then k + 1 else k, [c])
  {
    hide Find;
    var k := Find(s, i + 1, c);
    forall m | i + 1 <= m < k ensures !HasAt(s, m, [c]) { assert s[m..m + 1] == [s[m]]; }
    if k < |s| { assert s[k..k + 1] == [c]; }
  }

  lemma {:induction false} InsideIs(s: string, i: nat)
    requires i <= |s|
    ensures InTag(s, i, TagInside(s, i))
    decreases |s| - i
  {
    hide TagPart, TagInside, InTag;
    if i == |s| {
      TagOver(s);
    } else {
      var j, cls := InsideStep(s, i);
      if cls == "tag" {
        TagLast(s, i, j);
      } else {
        InsideIs(s, j);
        TagMore(s, i, j, cls);
      }
    }
  }

  lemma InsideStep(s: string, i: nat) returns (j: nat, cls: string)
    requires i < |s|
    ensures i < j <= |s| && TagPart(s, i, j, cls)
    ensures TagInside(s, i) == if cls == "tag" then [Piece(j - i, cls)] else [Piece(j - i, cls)] + TagInside(s, j)
  {
    hide RunEnd, Find, Within, TagPart, ClassesOk, Total, HasAt;
    PartIs(s, i);
    var c := s[i];
    j, cls := i + 1, "";
    if c == '>' {
      cls := "tag";
    } else if c == '"' || c == '\'' {
      var k := Find(s, i + 1, c);
      j, cls := if k < |s| then k + 1 else k, "str";
    } else if IsAttrStart(c) {
      j, cls := RunEnd(s, i + 1, IsAttrRest), "attr";
    } else if c == '/' && At(s, i + 1) == '>' {
      j, cls := i + 2, "tag";
    }
  }

  lemma TagOver(s: string)
    ensures InTag(s, |s|, []) && TagInside(s, |s|) == []
  {}

  lemma TagLast(s: string, i: nat, j: nat)
    requires i < j <= |s| && TagPart(s, i, j, "tag")
    ensures InTag(s, i, [Piece(j - i, "tag")])
  {
    hide TagPart;
  }

  lemma TagMore(s: string, i: nat, j: nat, cls: string)
    requires i < j <= |s| && TagPart(s, i, j, cls) && cls != "tag" && InTag(s, j, TagInside(s, j))
    ensures InTag(s, i, [Piece(j - i, cls)] + TagInside(s, j))
  {
    hide TagPart, TagInside;
    var ps := [Piece(j - i, cls)] + TagInside(s, j);
    assert ps[1..] == TagInside(s, j);
  }

  /** What each kind of character opens inside a tag. */
  lemma PartIs(s: string, i: nat)
    requires i < |s|
    ensures var c := s[i];
            if c == '>' then TagPart(s, i, i + 1, "tag")
            else if c == '"' || c == '\'' then
              var k := Find(s, i + 1, c); TagPart(s, i, if k < |s| then k + 1 else k, "str")
            else if IsAttrStart(c) then TagPart(s, i, RunEnd(s, i + 1, IsAttrRest), "attr")
            else if c == '/' && At(s, i + 1) == '>' then i + 2 <= |s| && TagPart(s, i, i + 2, "tag")
            else TagPart(s, i, i + 1, "")
  {
    hide EndsAfter, Longest, RunEnd, Find, HasAt;
    var c := s[i];
    TagEnd(s, i);
    QuoteEnds(s, i, c);
    RunIsLongest(s, i + 1, IsAttrRest);
    AttrRun(s, i + 1, RunEnd(s, i + 1, IsAttrRest));
  }

  lemma AttrRun(s: string, i: nat, k: nat)
    requires Longest(s, i, k, IsAttrRest)
    ensures Longest(s, i, k, (d: char) => IsAlnum(d) || d in "-_:.@")
  {
    forall m | i <= m < k ensures IsAlnum(s[m]) || s[m] in "-_:.@" { assert IsAttrRest(s[m]); }
  }

  lemma NameRun(s: string, i: nat, k: nat)
    requires Longest(s, i, k, IsTagName)
    ensures Longest(s, i, k, (d: char) => IsAlnum(d) || d in "-:")
  {
    forall m | i <= m < k ensures IsAlnum(s[m]) || s[m] in "-:" { assert IsTagName(s[m]); }
  }

  lemma NextIsHtmlTurn(s: string, i: nat)
    requires i < |s|
    ensures HtmlTurn(s, i, NextHtml(s, i))
  {
    hide EndsAfter, Longest, RunEnd, SpanTo, InTag, TagInside, Within;
    if HasAt(s, i, "<!--") {
      SpanEnds(s, i + 4, "-->");
    } else if TagOpens(s, i) {
      var a := if s[i + 1] == '/' || s[i + 1] == '!' then i + 2 else i + 1;
      var j := RunEnd(s, a, IsTagName);
      RunIsLongest(s, a, IsTagName);
      NameRun(s, a, j);
      InsideIs(s, j);
      assert NextHtml(s, i)[1..] == TagInside(s, j);
    }
  }

  /** HTML is cut into comments, tags with their names and values, and text. */
  lemma {:induction false} HtmlClasses(s: string, i: nat)
    requires i <= |s|
    ensures HtmlScanned(s, i, LexHtml(s, i))
    decreases |s| - i
  {
    hide NextHtml, HtmlTurn;
    if i < |s| {
      var step := NextHtml(s, i);
      NextIsHtmlTurn(s, i);
      var rest := LexHtml(s, i + Total(step));
      HtmlClasses(s, i + Total(step));
      var ps := step + rest;
      assert ps[..|step|] == step && ps[|step|..] == rest;
      assert step != [] by { HtmlTurnSome(s, i, step); }
      assert HtmlScannedTo(s, i, ps, |step|);
    }
  }

  lemma HtmlTurnSome(s: string, i: nat, ps: seq<Piece>)
    requires i < |s| && HtmlTurn(s, i, ps)
    ensures ps != []
  {}
}
