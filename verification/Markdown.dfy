/** The small Markdown renderer of src/utils/markdown_lite.c. Its output is
    followed as a sequence of HTML tokens; the code writes their text. */
module Markdown {
  import opened Options
  import opened Ascii
  import opened HtmlTags

  // ---- Inline text -------------------------------------------------------------------------

  /** What starts at a position of inline text; lo and hi bound the text inside. */
  datatype Piece =
    | Literal
    | CodeSpan(lo: nat, hi: nat)
    | Marked(name: Name, lo: nat, hi: nat)
    | Link(href: string, lo: nat, hi: nat)
    | BareLink(lo: nat, hi: nat)

  datatype Head = Head(piece: Piece, next: nat)

  predicate IsHttp(url: string) {
    (|url| > 7 && "http://" <= url) || (|url| > 8 && "https://" <= url)
  }

  predicate IsRelative(url: string) {
    ':' !in url && url != "" && url[0] != '/' && url[0] != '#'
  }

  /** link_at for the `[` at i: absent unless `](` and `)` follow and no newline
      stands in the text. */
  function LinkHead(s: string, i: nat, base: Option<string>): (r: Option<Head>)
    requires i < |s|
    ensures r.Some? ==> HeadBounds(s, i, r.value) && (r.value.piece.Link? || r.value.piece.BareLink?)
  {
    var close := FindStr(s, i + 1, "](");
    if close == |s| || '\n' in s[i + 1..close] then None
    else
      var end := Find(s, close + 2, ')');
      if end == |s| then None
      else
        var url := s[close + 2..end];
        if IsHttp(url) then Some(Head(Link(url, i + 1, close), end + 1))
        else if IsRelative(url) && base.Some? then
          Some(Head(Link(base.value + url, i + 1, close), end + 1))
        else Some(Head(BareLink(i + 1, close), end + 1))
  }

  ghost predicate HeadBounds(s: string, i: nat, h: Head) {
    i < h.next <= |s| && (!h.piece.Literal? ==> i < h.piece.lo <= h.piece.hi < h.next)
  }

  function HeadOf(s: string, i: nat, base: Option<string>): (h: Head)
    requires i < |s|
    ensures HeadBounds(s, i, h)
  {
    var literal := Head(Literal, i + 1);
    if s[i] == '`' then
      var end := Find(s, i + 1, '`');
      if i + 1 < end < |s| then Head(CodeSpan(i + 1, end), end + 1) else literal
    else if s[i] == '*' && i + 1 < |s| && s[i + 1] == '*' then
      var end := FindStr(s, i + 2, "**");
      if i + 2 < end < |s| then Head(Marked(Strong, i + 2, end), end + 2) else literal
    else if s[i] == '*' && i + 1 < |s| && s[i + 1] != ' ' then
      var end := Find(s, i + 1, '*');
      if i + 1 < end < |s| && s[end - 1] != ' ' then Head(Marked(Em, i + 1, end), end + 1)
      else literal
    else if s[i] == '[' then
      match LinkHead(s, i, base)
      case None => literal
      case Some(h) => h
    else literal
  }

  /** The tokens of the piece at position i. */
  function PieceTokens(s: string, i: nat, base: Option<string>): seq<Token>
    requires i < |s|
    decreases |s|, |s| - i, 0
  {
    match HeadOf(s, i, base).piece
    case Literal => [Ch(s[i])]
    case CodeSpan(lo, hi) => [Open(Code)] + Chars(s[lo..hi]) + [Close(Code)]
    case Marked(n, lo, hi) => [Open(n)] + InlineFrom(s[lo..hi], 0, base) + [Close(n)]
    case Link(href, lo, hi) => [Anchor(href)] + InlineFrom(s[lo..hi], 0, base) + [Close(A)]
    case BareLink(lo, hi) => InlineFrom(s[lo..hi], 0, base)
  }

  /** The tokens of inline text from position i on. */
  function InlineFrom(s: string, i: nat, base: Option<string>): seq<Token>
    requires i <= |s|
    decreases |s|, |s| - i, 1
  {
    if i == |s| then []
    else PieceTokens(s, i, base) + InlineFrom(s, HeadOf(s, i, base).next, base)
  }

  // ---- Inline text is well nested ----------------------------------------------------------------

  ghost predicate Lacks(s: string, m: string) { forall i :: 0 <= i <= |s| ==> !HasAt(s, i, m) }

  lemma SliceHas(s: string, lo: nat, hi: nat, i: nat, m: string)
    requires lo <= hi <= |s| && HasAt(s[lo..hi], i, m)
    ensures HasAt(s, lo + i, m)
  {
    SliceOfSlice(s, lo, hi, i, i + |m|);
  }

  lemma SliceOfSlice(s: string, lo: nat, hi: nat, i: nat, j: nat)
    requires lo <= hi <= |s| && i <= j <= hi - lo
    ensures s[lo..hi][i..j] == s[lo + i..lo + j]
  {
    var a, b := s[lo..hi][i..j], s[lo + i..lo + j];
    assert forall k | 0 <= k < |a| :: a[k] == b[k];
  }

  lemma SliceLacks(s: string, lo: nat, hi: nat, m: string)
    requires lo <= hi <= |s| && Lacks(s, m)
    ensures Lacks(s[lo..hi], m)
  {
    forall i | 0 <= i <= |s[lo..hi]|
      ensures !HasAt(s[lo..hi], i, m)
    {
      if HasAt(s[lo..hi], i, m) { SliceHas(s, lo, hi, i, m); }
    }
  }

  /** Text before the first m has no m in it. */
  lemma BeforeLacks(s: string, from: nat, m: string)
    requires from <= |s| && m != ""
    ensures Lacks(s[from..FindStr(s, from, m)], m)
  {
    var end := FindStr(s, from, m);
    forall i | 0 <= i <= end - from
      ensures !HasAt(s[from..end], i, m)
    {
      if HasAt(s[from..end], i, m) { SliceHas(s, from, end, i, m); }
    }
  }

  lemma StarLacks(s: string, from: nat)
    requires from <= |s|
    ensures Lacks(s[from..Find(s, from, '*')], "*")
  {
    var t := s[from..Find(s, from, '*')];
    forall i | 0 <= i <= |t|
      ensures !HasAt(t, i, "*")
    {
      if HasAt(t, i, "*") { StarThere(t, i); }
    }
  }

  lemma StarThere(s: string, i: nat)
    requires HasAt(s, i, "*")
    ensures s[i] == '*'
  {
    assert s[i..i + 1][0] == "*"[0];
  }

  /** Text that may stand inside the open elements: a link's text has no `](`,
      strong text no `**` and emphasised text no `*`. */
  ghost predicate MayStand(s: string, stack: seq<Name>) {
    && HoldsText(stack)
    && (A in stack ==> Lacks(s, "]("))
    && (Strong in stack ==> Lacks(s, "**"))
    && (Em in stack ==> Lacks(s, "*"))
  }

  lemma SliceStands(s: string, lo: nat, hi: nat, stack: seq<Name>)
    requires lo <= hi <= |s| && MayStand(s, stack)
    ensures MayStand(s[lo..hi], stack)
  {
    hide Lacks, HoldsText;
    if A in stack { SliceLacks(s, lo, hi, "]("); }
    if Strong in stack { SliceLacks(s, lo, hi, "**"); }
    if Em in stack { SliceLacks(s, lo, hi, "*"); }
  }

  lemma StarsStart(s: string, i: nat)
    requires i < |s| && s[i] == '*'
    ensures HasAt(s, i, "*")
    ensures i + 1 < |s| && s[i + 1] == '*' ==> HasAt(s, i, "**")
  {
    assert s[i..i + 1] == "*";
    if i + 1 < |s| && s[i + 1] == '*' { assert s[i..i + 2] == "**"; }
  }

  /** An element opened inside others is allowed there, and so is its text. */
  lemma MarkedStands(s: string, i: nat, base: Option<string>, stack: seq<Name>)
    requires i < |s| && MayStand(s, stack)
    ensures var p := HeadOf(s, i, base).piece;
            p.Marked? ==> p.name in {Strong, Em} && CanOpen(p.name, stack) && MayStand(s[p.lo..p.hi], stack + [p.name])
  {
    hide LinkHead, FindStr, Find;
    var p := HeadOf(s, i, base).piece;
    if p.Marked? {
      StarsStart(s, i);
      hide Lacks;
      assert Em !in stack by { assert !HasAt(s, i, "*") || Em !in stack; }
      SliceStands(s, p.lo, p.hi, stack);
      if p.name == Strong {
        assert Strong !in stack;
        BeforeLacks(s, i + 2, "**");
      } else {
        StarLacks(s, i + 1);
        if Strong in stack { SliceLacks(s, p.lo, p.hi, "**"); }
      }
    }
  }

  lemma LinkStands(s: string, i: nat, base: Option<string>, stack: seq<Name>)
    requires i < |s| && MayStand(s, stack) && LinkHead(s, i, base).Some?
    ensures var p := LinkHead(s, i, base).value.piece;
            CanOpen(A, stack) && MayStand(s[p.lo..p.hi], stack + [A])
  {
    var p := LinkHead(s, i, base).value.piece;
    var close := FindStr(s, i + 1, "](");
    assert HasAt(s, close, "](");
    hide Find, FindStr;
    assert A !in stack;
    hide Lacks;
    BeforeLacks(s, i + 1, "](");
    SliceStands(s, p.lo, p.hi, stack);
  }

  /** Inline text closes what it opens, wherever it may stand. */
  lemma {:induction false} InlineNests(s: string, i: nat, base: Option<string>, stack: seq<Name>)
    requires i <= |s| && MayStand(s, stack)
    ensures Walk(InlineFrom(s, i, base), stack) == Some(stack)
    decreases |s|, |s| - i
  {
    hide HeadOf, LinkHead, MayStand, Walk, CanOpen;
    if i == |s| {
      WalkNothing(stack);
    } else {
      var h := HeadOf(s, i, base);
      var rest := InlineFrom(s, h.next, base);
      HeadIs(s, i, base);
      TextHere(s, stack);
      InlineNests(s, h.next, base, stack);
      match h.piece
      case Literal =>
        WalkChar(s[i], stack);
        WalkAppend([Ch(s[i])], rest, stack);
      case CodeSpan(lo, hi) =>
        CodeOpens(s, i, base, stack);
        CharsWalk(s[lo..hi], stack + [Code]);
        Wraps(Open(Code), Code, Chars(s[lo..hi]), stack);
        WalkAppend([Open(Code)] + Chars(s[lo..hi]) + [Close(Code)], rest, stack);
      case Marked(n, lo, hi) =>
        var body := InlineFrom(s[lo..hi], 0, base);
        MarkedStands(s, i, base, stack);
        InlineNests(s[lo..hi], 0, base, stack + [n]);
        Wraps(Open(n), n, body, stack);
        WalkAppend([Open(n)] + body + [Close(n)], rest, stack);
      case Link(href, lo, hi) =>
        var body := InlineFrom(s[lo..hi], 0, base);
        LinkStands(s, i, base, stack);
        InlineNests(s[lo..hi], 0, base, stack + [A]);
        Wraps(Anchor(href), A, body, stack);
        WalkAppend([Anchor(href)] + body + [Close(A)], rest, stack);
      case BareLink(lo, hi) =>
        SliceStands(s, lo, hi, stack);
        InlineNests(s[lo..hi], 0, base, stack);
        WalkAppend(InlineFrom(s[lo..hi], 0, base), rest, stack);
    }
  }

  lemma WalkNothing(stack: seq<Name>)
    ensures Walk([], stack) == Some(stack)
  {}

  lemma WalkChar(c: char, stack: seq<Name>)
    requires c == '\n' || HoldsText(stack)
    ensures Walk([Ch(c)], stack) == Some(stack)
  {
    assert [Ch(c)][1..] == [];
  }

  lemma TextHere(s: string, stack: seq<Name>)
    requires MayStand(s, stack)
    ensures HoldsText(stack)
  {}

  lemma HeadIs(s: string, i: nat, base: Option<string>)
    requires i < |s|
    ensures var p := HeadOf(s, i, base).piece;
            p.Link? || p.BareLink? ==> LinkHead(s, i, base) == Some(HeadOf(s, i, base))
  {
    hide LinkHead;
  }

  lemma CodeOpens(s: string, i: nat, base: Option<string>, stack: seq<Name>)
    requires i < |s| && MayStand(s, stack) && HeadOf(s, i, base).piece.CodeSpan?
    ensures CanOpen(Code, stack)
  {}

  // ---- Links and visible text ----------------------------------------------------------------------

  /** A link is an http or https address, or the base and behind it a relative one
      without a scheme, which does not start with `/` or `#`. */
  predicate SafeHref(h: string, base: Option<string>) {
    IsHttp(h) || (base.Some? && base.value <= h && IsRelative(h[|base.value|..]))
  }

  predicate Safe(t: Token, base: Option<string>) {
    match t
    case Anchor(h) => SafeHref(h, base)
    case Open(n) => n != A
    case _ => true
  }

  predicate AllSafe(ts: seq<Token>, base: Option<string>) { forall t | t in ts :: Safe(t, base) }

  lemma LinkIsSafe(s: string, i: nat, base: Option<string>)
    requires i < |s| && LinkHead(s, i, base).Some?
    ensures var p := LinkHead(s, i, base).value.piece; p.Link? ==> SafeHref(p.href, base)
  {
    var p := LinkHead(s, i, base).value.piece;
    if p.Link? && !IsHttp(p.href) { assert base.Some? ==> (base.value + p.href[|base.value|..]) == p.href; }
  }

  lemma {:induction false} CharsSafe(s: string, base: Option<string>)
    ensures AllSafe(Chars(s), base)
  {
    if s != "" { CharsSafe(s[1..], base); }
  }

  lemma SafeJoin(a: seq<Token>, b: seq<Token>, base: Option<string>)
    requires AllSafe(a, base) && AllSafe(b, base)
    ensures AllSafe(a + b, base)
  {
    hide Safe;
  }

  lemma SafeWrap(first: Token, body: seq<Token>, n: Name, base: Option<string>)
    requires Safe(first, base) && AllSafe(body, base)
    ensures AllSafe([first] + body + [Close(n)], base)
  {
    hide SafeHref;
  }

  lemma {:induction false} InlineSafe(s: string, i: nat, base: Option<string>)
    requires i <= |s|
    ensures AllSafe(InlineFrom(s, i, base), base)
    decreases |s|, |s| - i
  {
    hide HeadOf, LinkHead, SafeHref, AllSafe;
    if i == |s| {
      assert AllSafe([], base) by { SafeNothing(base); }
    } else {
      var h := HeadOf(s, i, base);
      var rest := InlineFrom(s, h.next, base);
      HeadIs(s, i, base);
      MarkIs(s, i, base);
      InlineSafe(s, h.next, base);
      match h.piece
      case Literal =>
        SafeChar(s[i], base);
        SafeJoin([Ch(s[i])], rest, base);
      case CodeSpan(lo, hi) =>
        CharsSafe(s[lo..hi], base);
        SafeWrap(Open(Code), Chars(s[lo..hi]), Code, base);
        SafeJoin([Open(Code)] + Chars(s[lo..hi]) + [Close(Code)], rest, base);
      case Marked(n, lo, hi) =>
        var body := InlineFrom(s[lo..hi], 0, base);
        InlineSafe(s[lo..hi], 0, base);
        SafeWrap(Open(n), body, n, base);
        SafeJoin([Open(n)] + body + [Close(n)], rest, base);
      case Link(href, lo, hi) =>
        var body := InlineFrom(s[lo..hi], 0, base);
        LinkIsSafe(s, i, base);
        InlineSafe(s[lo..hi], 0, base);
        SafeWrap(Anchor(href), body, A, base);
        SafeJoin([Anchor(href)] + body + [Close(A)], rest, base);
      case BareLink(lo, hi) =>
        InlineSafe(s[lo..hi], 0, base);
        SafeJoin(InlineFrom(s[lo..hi], 0, base), rest, base);
    }
  }

  lemma SafeNothing(base: Option<string>)
    ensures AllSafe([], base)
  {}

  lemma SafeChar(c: char, base: Option<string>)
    ensures AllSafe([Ch(c)], base)
  {}

  lemma MarkIs(s: string, i: nat, base: Option<string>)
    requires i < |s|
    ensures var p := HeadOf(s, i, base).piece; p.Marked? ==> p.name in {Strong, Em}
  {
    hide LinkHead;
  }

  /** a is b with some characters left out. */
  predicate Thinned(a: string, b: string) {
    if a == "" then true
    else if b == "" then false
    else (a[0] == b[0] && Thinned(a[1..], b[1..])) || Thinned(a, b[1..])
  }

  lemma {:induction false} ThinnedSelf(a: string)
    ensures Thinned(a, a)
  {
    if a != "" { ThinnedSelf(a[1..]); }
  }

  lemma {:induction false} ThinnedLater(a: string, x: string, b: string)
    requires Thinned(a, b)
    ensures Thinned(a, x + b)
  {
    if x == "" {
      assert x + b == b;
    } else {
      assert (x + b)[1..] == x[1..] + b;
      ThinnedLater(a, x[1..], b);
    }
  }

  lemma {:induction false} ThinnedJoin(a: string, b: string, c: string, d: string)
    requires Thinned(a, b) && Thinned(c, d)
    ensures Thinned(a + c, b + d)
    decreases |b|
  {
    if a == "" {
      assert a + c == c;
      ThinnedLater(c, b, d);
    } else {
      assert (b + d)[1..] == b[1..] + d;
      if a[0] == b[0] && Thinned(a[1..], b[1..]) {
        assert (a + c)[1..] == a[1..] + c;
        ThinnedJoin(a[1..], b[1..], c, d);
      } else {
        ThinnedJoin(a, b[1..], c, d);
      }
    }
  }

  /** The part inside a piece shows up thinned in the whole stretch. */
  lemma ThinnedInside(a: string, s: string, i: nat, lo: nat, hi: nat, next: nat)
    requires i <= lo <= hi <= next <= |s| && Thinned(a, s[lo..hi])
    ensures Thinned(a, s[i..next])
  {
    ThinnedLater(a, s[i..lo], s[lo..hi]);
    ThinnedJoin(a, s[i..lo] + s[lo..hi], "", s[hi..next]);
    assert s[i..lo] + s[lo..hi] + s[hi..next] == s[i..next];
    assert a + "" == a;
  }

  lemma VisibleInside(first: Token, body: seq<Token>, last: Token)
    requires !first.Ch? && !last.Ch?
    ensures Visible([first] + body + [last]) == Visible(body)
  {
    VisibleAppend([first] + body, [last]);
    VisibleAppend([first], body);
    assert [first][1..] == [] && [last][1..] == [];
  }

  /** Rendering invents no text: what shows is the source with characters left out. */
  lemma {:induction false} InlineThins(s: string, i: nat, base: Option<string>)
    requires i <= |s|
    ensures Thinned(Visible(InlineFrom(s, i, base)), s[i..])
    decreases |s|, |s| - i
  {
    hide HeadOf, LinkHead, Thinned, Visible;
    if i == |s| {
      ShowsNothing(s[i..]);
    } else {
      var h := HeadOf(s, i, base);
      var rest := InlineFrom(s, h.next, base);
      InlineThins(s, h.next, base);
      if h.piece.Literal? {
        LiteralThins(s, i, h.next);
        JoinThins([Ch(s[i])], rest, s, i, h.next);
      } else {
        var lo, hi := h.piece.lo, h.piece.hi;
        var inner := s[lo..hi];
        match h.piece
        case CodeSpan(_, _) =>
          CharsVisible(inner);
          ThinnedSelf(inner);
          VisibleInside(Open(Code), Chars(inner), Close(Code));
          ThinnedInside(inner, s, i, lo, hi, h.next);
          JoinThins([Open(Code)] + Chars(inner) + [Close(Code)], rest, s, i, h.next);
        case Marked(n, _, _) =>
          var body := InlineFrom(inner, 0, base);
          InnerThins(s, i, base, h);
          VisibleInside(Open(n), body, Close(n));
          JoinThins([Open(n)] + body + [Close(n)], rest, s, i, h.next);
        case Link(href, _, _) =>
          var body := InlineFrom(inner, 0, base);
          InnerThins(s, i, base, h);
          VisibleInside(Anchor(href), body, Close(A));
          JoinThins([Anchor(href)] + body + [Close(A)], rest, s, i, h.next);
        case BareLink(_, _) =>
          InnerThins(s, i, base, h);
          JoinThins(InlineFrom(inner, 0, base), rest, s, i, h.next);
      }
    }
  }

  lemma InnerThins(s: string, i: nat, base: Option<string>, h: Head)
    requires i < |s| && HeadBounds(s, i, h) && !h.piece.Literal?
    ensures Thinned(Visible(InlineFrom(s[h.piece.lo..h.piece.hi], 0, base)), s[i..h.next])
    decreases |s|, 0
  {
    hide Thinned, Visible, InlineFrom;
    var inner := s[h.piece.lo..h.piece.hi];
    InlineThins(inner, 0, base);
    assert inner[0..] == inner;
    ThinnedInside(Visible(InlineFrom(inner, 0, base)), s, i, h.piece.lo, h.piece.hi, h.next);
  }

  lemma ShowsNothing(s: string)
    ensures Thinned(Visible([]), s)
  {}

  lemma LiteralThins(s: string, i: nat, next: nat)
    requires i < next <= |s|
    ensures Thinned(Visible([Ch(s[i])]), s[i..next])
  {
    assert [Ch(s[i])][1..] == [];
    assert s[i..next][0] == s[i];
  }

  lemma JoinThins(a: seq<Token>, b: seq<Token>, s: string, i: nat, next: nat)
    requires i <= next <= |s|
    requires Thinned(Visible(a), s[i..next]) && Thinned(Visible(b), s[next..])
    ensures Thinned(Visible(a + b), s[i..])
  {
    hide Thinned, Visible;
    VisibleAppend(a, b);
    ThinnedJoin(Visible(a), s[i..next], Visible(b), s[next..]);
    assert s[i..next] + s[next..] == s[i..];
  }

  // ---- Blocks --------------------------------------------------------------------------------------

  datatype Kind = NoBlock | Paragraph | Item

  /** The renderer between two lines: what is written, the block being
      collected and whether a list is open. */
  datatype State = State(out: seq<Token>, text: string, kind: Kind, inList: bool)

  function Element(n: Name, s: string, base: Option<string>): seq<Token> {
    [Open(n)] + InlineFrom(s, 0, base) + [Close(n)] + [Ch('\n')]
  }

  function Flushed(st: State, base: Option<string>): State {
    var block := match st.kind
                 case NoBlock => []
                 case Paragraph => Element(P, st.text, base)
                 case Item => Element(Li, st.text, base);
    State(st.out + block, "", NoBlock, st.inList)
  }

  function Closed(st: State, base: Option<string>): State {
    var f := Flushed(st, base);
    if f.inList then f.(out := f.out + [Close(Ul), Ch('\n')], inList := false) else f
  }

  function Collected(st: State, s: string): State {
    st.(text := (if st.text != "" then st.text + " " else "") + s)
  }

  /** A line without the blanks at its end. */
  function TrimmedLen(s: string, n: nat): (r: nat)
    requires n <= |s|
    ensures r <= n
  {
    if n > 0 && s[n - 1] in "\r \t" then TrimmedLen(s, n - 1) else n
  }

  /** How many c stand in a row from i on. */
  function RunLen(s: string, i: nat, c: char): (r: nat)
    requires i <= |s|
    ensures i + r <= |s|
    decreases |s| - i
  {
    if i < |s| && s[i] == c then 1 + RunLen(s, i + 1, c) else 0
  }

  function HeadingName(hashes: nat): (n: Name)
    ensures n in {H3, H4, H5, H6}
  {
    if hashes == 1 then H3 else if hashes == 2 then H4 else if hashes == 3 then H5 else H6
  }

  predicate IsHeading(indent: nat, body: string) {
    var hashes := RunLen(body, 0, '#');
    indent == 0 && 1 <= hashes <= 6 && hashes < |body| && body[hashes] == ' '
  }

  predicate IsItem(indent: nat, body: string) {
    indent <= 1 && |body| >= 2 && body[0] in "-*+" && body[1] == ' '
  }

  /** One line, its trailing blanks already gone. */
  function LineTaken(st: State, indent: nat, body: string, base: Option<string>): State {
    if body == "" then Flushed(st, base)
    else if IsHeading(indent, body) then
      var c := Closed(st, base);
      var hashes := RunLen(body, 0, '#');
      c.(out := c.out + Element(HeadingName(hashes), body[hashes + 1..], base))
    else if IsItem(indent, body) then
      var f := Flushed(st, base);
      var opened' := if f.inList then f else f.(out := f.out + [Open(Ul), Ch('\n')], inList := true);
      Collected(opened'.(kind := Item), body[2..])
    else if indent > 0 && st.kind == Item then Collected(st, body)
    else
      var c := if st.inList then Closed(st, base) else st;
      Collected(c.(kind := Paragraph), body)
  }

  function LineFrom(st: State, line: string, base: Option<string>): State {
    var s := line[..TrimmedLen(line, |line|)];
    var indent := RunLen(s, 0, ' ');
    LineTaken(st, indent, s[indent..], base)
  }

  /** All lines from `at` on. */
  function Lines(st: State, md: string, at: nat, base: Option<string>): State
    requires at <= |md|
    decreases |md| - at
  {
    if at == |md| then st
    else
      var eol := Find(md, at, '\n');
      var st' := LineFrom(st, md[at..eol], base);
      Lines(st', md, if eol < |md| then eol + 1 else eol, base)
  }

  const START := State([], "", NoBlock, false)

  function Document(md: string, base: Option<string>): seq<Token> {
    Closed(Lines(START, md, 0, base), base).out
  }

  // ---- Every document is well nested ---------------------------------------------------------------

  /** The invariant of the renderer: what is written is well nested inside the
      list that is open, items are collected only there and paragraphs only outside. */
  ghost predicate Sound(st: State, base: Option<string>) {
    && Walk(st.out, []) == Some(if st.inList then [Ul] else [])
    && AllSafe(st.out, base)
    && (st.kind == Item ==> st.inList)
    && (st.kind == Paragraph ==> !st.inList)
  }

  lemma StandsInBlock(s: string, stack: seq<Name>)
    requires HoldsText(stack) && A !in stack && Strong !in stack && Em !in stack
    ensures MayStand(s, stack)
  {
    hide Lacks;
  }

  lemma ElementNests(n: Name, s: string, base: Option<string>, stack: seq<Name>)
    requires (n in {P, H3, H4, H5, H6} && stack == []) || (n == Li && stack == [Ul])
    ensures Walk(Element(n, s, base), stack) == Some(stack)
    ensures AllSafe(Element(n, s, base), base)
  {
    hide Walk, InlineFrom, MayStand, SafeHref;
    assert HoldsText(stack + [n]);
    StandsInBlock(s, stack + [n]);
    InlineNests(s, 0, base, stack + [n]);
    InlineSafe(s, 0, base);
    Wraps(Open(n), n, InlineFrom(s, 0, base), stack);
    WalkChar('\n', stack);
    WalkAppend([Open(n)] + InlineFrom(s, 0, base) + [Close(n)], [Ch('\n')], stack);
  }

  /** A balanced piece keeps the invariant. */
  lemma Adds(st: State, ts: seq<Token>, base: Option<string>)
    requires Sound(st, base) && AllSafe(ts, base)
    requires var stack := if st.inList then [Ul] else []; Walk(ts, stack) == Some(stack)
    ensures Sound(st.(out := st.out + ts), base)
  {
    hide Walk, Safe;
    WalkAppend(st.out, ts, []);
  }

  lemma FlushedSound(st: State, base: Option<string>)
    requires Sound(st, base)
    ensures Sound(Flushed(st, base), base) && Flushed(st, base).kind == NoBlock
  {
    hide Walk, AllSafe, Element;
    match st.kind
    case NoBlock =>
      assert st.out + [] == st.out;
    case Paragraph =>
      ElementNests(P, st.text, base, []);
      Adds(st, Element(P, st.text, base), base);
    case Item =>
      ElementNests(Li, st.text, base, [Ul]);
      Adds(st, Element(Li, st.text, base), base);
  }

  lemma ListEnds()
    ensures Walk([Close(Ul), Ch('\n')], [Ul]) == Some([])
    ensures Walk([Open(Ul), Ch('\n')], []) == Some([Ul])
  {
    assert [Close(Ul), Ch('\n')][1..] == [Ch('\n')];
    assert [Open(Ul), Ch('\n')][1..] == [Ch('\n')];
    WalkChar('\n', []);
    assert [Ch('\n')][1..] == [] && [] + [Ul] == [Ul];
    assert [Ul][..0] == [];
    assert Walk([Ch('\n')], [Ul]) == Some([Ul]);
  }

  lemma ClosedSound(st: State, base: Option<string>)
    requires Sound(st, base)
    ensures Sound(Closed(st, base), base) && !Closed(st, base).inList && Closed(st, base).kind == NoBlock
  {
    hide Walk, Flushed, SafeHref;
    FlushedSound(st, base);
    var f := Flushed(st, base);
    if f.inList {
      ListEnds();
      WalkAppend(f.out, [Close(Ul), Ch('\n')], []);
    }
  }

  lemma OpensList(f: State, base: Option<string>)
    requires Sound(f, base) && !f.inList && f.kind == NoBlock
    ensures Sound(f.(out := f.out + [Open(Ul), Ch('\n')], inList := true), base)
  {
    hide Walk, SafeHref;
    ListEnds();
    WalkAppend(f.out, [Open(Ul), Ch('\n')], []);
  }

  lemma LineSound(st: State, indent: nat, body: string, base: Option<string>)
    requires Sound(st, base)
    ensures Sound(LineTaken(st, indent, body, base), base)
  {
    hide Walk, Flushed, Closed, RunLen, AllSafe, Element, IsItem;
    FlushedSound(st, base);
    ClosedSound(st, base);
    if body != "" && IsHeading(indent, body) {
      var hashes := RunLen(body, 0, '#');
      ElementNests(HeadingName(hashes), body[hashes + 1..], base, []);
      Adds(Closed(st, base), Element(HeadingName(hashes), body[hashes + 1..], base), base);
    } else if body != "" && IsItem(indent, body) && !Flushed(st, base).inList {
      OpensList(Flushed(st, base), base);
    }
  }

  lemma {:induction false} LinesSound(st: State, md: string, at: nat, base: Option<string>)
    requires at <= |md| && Sound(st, base)
    ensures Sound(Lines(st, md, at, base), base)
    decreases |md| - at
  {
    hide LineTaken, Sound;
    if at < |md| {
      var eol := Find(md, at, '\n');
      var line := md[at..eol];
      var s := line[..TrimmedLen(line, |line|)];
      var indent := RunLen(s, 0, ' ');
      LineSound(st, indent, s[indent..], base);
      LinesSound(LineFrom(st, line, base), md, if eol < |md| then eol + 1 else eol, base);
    }
  }

  /** For every text: the HTML is nothing but the eleven tags and escaped
      characters, well nested, with items only in lists and no link in a link,
      and every link is an http address or the base with a relative one behind it. */
  lemma DocumentNests(md: string, base: Option<string>)
    ensures var html := Text(Document(md, base));
            && Read(html) == Some(Document(md, base))
            && WellNested(Read(html).value)
            && AllSafe(Read(html).value, base)
  {
    hide Walk, Lines, Closed, SafeHref, Text, Read;
    assert Sound(START, base) by { WalkNothing([]); }
    LinesSound(START, md, 0, base);
    ClosedSound(Lines(START, md, 0, base), base);
    TextReads(Document(md, base));
  }

  // ---- The code ------------------------------------------------------------------------------------

  lemma TextOne(t: Token)
    ensures Text([t]) == TokenText(t)
  {
    assert [t][1..] == [];
    assert Text([]) == "";
    assert TokenText(t) + "" == TokenText(t);
  }

  /** The text of an element is its start tag, its body's text and its end tag. */
  lemma TextWrap(first: Token, body: seq<Token>, last: Token)
    ensures Text([first] + body + [last]) == TokenText(first) + Text(body) + TokenText(last)
  {
    hide Text, TokenText;
    TextAppend([first] + body, [last]);
    TextAppend([first], body);
    TextOne(first);
    TextOne(last);
  }

  /** What one round of the inline loop writes. */
  lemma InlineStep(s: string, i: nat, base: Option<string>)
    requires i < |s|
    ensures Text(InlineFrom(s, i, base)) == Text(PieceTokens(s, i, base)) + Text(InlineFrom(s, HeadOf(s, i, base).next, base))
  {
    hide Text, HeadOf;
    TextAppend(PieceTokens(s, i, base), InlineFrom(s, HeadOf(s, i, base).next, base));
  }

  class Renderer {
    var out: string
    var text: string
    var kind: Kind
    var inList: bool
    const linkBase: Option<string>

    constructor (base: Option<string>)
      ensures Shows(START) && linkBase == base
    {
      out, text, kind, inList := "", "", NoBlock, false;
      linkBase := base;
    }

    ghost predicate Shows(st: State)
      reads this
    {
      out == Text(st.out) && text == st.text && kind == st.kind && inList == st.inList
    }

    /** buf_escaped */
    method PutEscaped(s: string)
      modifies this`out
      ensures out == old(out) + Escape(s)
    {
      hide Entity;
      for i := 0 to |s|
        invariant out + Escape(s[i..]) == old(out) + Escape(s)
      {
        assert s[i..][1..] == s[i + 1..];
        Assoc(out, Entity(s[i]), Escape(s[i + 1..]));
        out := out + Entity(s[i]);
      }
      assert s[|s|..] == "";
      assert out + "" == out;
    }

    /** The start tag of a link. */
    method PutAnchor(url: string)
      requires IsHttp(url) || (IsRelative(url) && linkBase.Some?)
      modifies this`out
      ensures out == old(out) + TokenText(Anchor(if IsHttp(url) then url else linkBase.value + url))
    {
      hide Escape, HREF, REL, IsHttp, IsRelative;
      HttpIsAbsolute(url);
      ghost var o := out;
      out := out + "<" + HREF;
      ghost var head := out;
      if IsRelative(url) {
        PutEscaped(linkBase.value);
        EscapeAppend(linkBase.value, url);
        Assoc(head, Escape(linkBase.value), Escape(url));
      }
      PutEscaped(url);
      ghost var href := if IsHttp(url) then url else linkBase.value + url;
      assert out == head + Escape(href);
      out := out + REL + ">";
      AnchorText(o, href);
    }

    /** link_at: writes the link at i and returns how much was used, 0 for no link. */
    method LinkAt(s: string, i: nat) returns (used: nat)
      requires i < |s|
      modifies this`out
      ensures var h := LinkHead(s, i, linkBase);
              if h.None? then used == 0 && out == old(out)
              else used == h.value.next - i && out == old(out) + Text(LinkTokens(s, h.value.piece))
      decreases |s|, 0
    {
      hide Text, Find, FindStr, IsHttp, IsRelative, InlineFrom, TokenText;
      var close := FindStr(s, i + 1, "](");
      if close == |s| || '\n' in s[i + 1..close] { return 0; }
      var end := Find(s, close + 2, ')');
      if end == |s| { return 0; }
      var text := s[i + 1..close];
      var url := s[close + 2..end];
      if IsHttp(url) || (IsRelative(url) && linkBase.Some?) {
        ghost var o := out;
        PutAnchor(url);
        ghost var mid := out;
        InlineHtml(text);
        out := out + "</a>";
        LinkText(o, mid, if IsHttp(url) then url else linkBase.value + url, InlineFrom(text, 0, linkBase), out);
      } else {
        InlineHtml(text);
      }
      used := end - i + 1;
    }

    ghost function LinkTokens(s: string, p: Piece): seq<Token>
      requires p.Link? || p.BareLink?
      requires p.lo <= p.hi <= |s|
    {
      var body := InlineFrom(s[p.lo..p.hi], 0, linkBase);
      if p.Link? then [Anchor(p.href)] + body + [Close(A)] else body
    }

    /** Emphasis of either strength around its inline text. */
    method PutMarked(n: Name, s: string)
      modifies this`out
      ensures out == old(out) + Text([Open(n)] + InlineFrom(s, 0, linkBase) + [Close(n)])
      decreases |s|, 3
    {
      hide Text, InlineFrom, NameText;
      ghost var o := out;
      out := out + ("<" + (NameText(n) + ">"));
      InlineHtml(s);
      out := out + ("<" + (("/" + NameText(n)) + ">"));
      MarkText(o, n, InlineFrom(s, 0, linkBase), out);
    }

    method PutCode(s: string)
      modifies this`out
      ensures out == old(out) + Text([Open(Code)] + Chars(s) + [Close(Code)])
    {
      hide Text, Escape, Chars;
      ghost var o := out;
      out := out + "<code>";
      PutEscaped(s);
      out := out + "</code>";
      CodeText(o, s, out);
    }

    /** One round of inline_html's loop: writes the piece at i and returns where the next starts. */
    method PutPiece(s: string, i: nat) returns (next: nat)
      requires i < |s|
      modifies this`out
      ensures next == HeadOf(s, i, linkBase).next
      ensures out == old(out) + Text(PieceTokens(s, i, linkBase))
      decreases |s|, 1
    {
      hide Text, Find, FindStr, InlineFrom, LinkHead, Chars, TokenText;
      if s[i] == '`' {
        var end := Find(s, i + 1, '`');
        if i + 1 < end < |s| {
          PutCode(s[i + 1..end]);
          return end + 1;
        }
      } else if s[i] == '*' && i + 1 < |s| && s[i + 1] == '*' {
        var end := FindStr(s, i + 2, "**");
        if i + 2 < end < |s| {
          PutMarked(Strong, s[i + 2..end]);
          return end + 2;
        }
      } else if s[i] == '*' && i + 1 < |s| && s[i + 1] != ' ' {
        var end := Find(s, i + 1, '*');
        if i + 1 < end < |s| && s[end - 1] != ' ' {
          PutMarked(Em, s[i + 1..end]);
          return end + 1;
        }
      } else if s[i] == '[' {
        var used := LinkAt(s, i);
        if used > 0 { return i + used; }
      }
      CharText(s[i]);
      out := out + Entity(s[i]);
      next := i + 1;
    }

    /** inline_html */
    method InlineHtml(s: string)
      modifies this`out
      ensures out == old(out) + Text(InlineFrom(s, 0, linkBase))
      decreases |s|, 2
    {
      hide Text, InlineFrom, HeadOf, PieceTokens;
      var i := 0;
      while i < |s|
        invariant i <= |s|
        invariant out + Text(InlineFrom(s, i, linkBase)) == old(out) + Text(InlineFrom(s, 0, linkBase))
        decreases |s| - i
      {
        InlineStep(s, i, linkBase);
        ghost var o, piece := out, Text(PieceTokens(s, i, linkBase));
        i := PutPiece(s, i);
        Assoc(o, piece, Text(InlineFrom(s, i, linkBase)));
      }
      NothingLeft(s, linkBase);
      assert out + "" == out;
    }

    /** A block element around its inline text, and a newline. */
    method PutElement(n: Name, s: string)
      modifies this`out
      ensures out == old(out) + Text(Element(n, s, linkBase))
    {
      hide Text, InlineFrom;
      ghost var o := out;
      PutMarked(n, s);
      ghost var mid := [Open(n)] + InlineFrom(s, 0, linkBase) + [Close(n)];
      out := out + "\n";
      TextAppend(mid, [Ch('\n')]);
      CharText('\n');
      Assoc(o, Text(mid), "\n");
    }

    /** flush_block */
    method FlushBlock(ghost st: State)
      requires Shows(st)
      modifies this
      ensures Shows(Flushed(st, linkBase))
    {
      hide Text, Element;
      if kind == Paragraph {
        PutElement(P, text);
        TextAppend(st.out, Element(P, text, linkBase));
      } else if kind == Item {
        PutElement(Li, text);
        TextAppend(st.out, Element(Li, text, linkBase));
      }
      assert st.out + [] == st.out;
      kind, text := NoBlock, "";
    }

    /** close_list */
    method CloseList(ghost st: State)
      requires Shows(st)
      modifies this
      ensures Shows(Closed(st, linkBase))
    {
      hide Text, Flushed;
      FlushBlock(st);
      if inList {
        out := out + "</ul>\n";
        ListText(Flushed(st, linkBase).out);
      }
      inList := false;
    }

    /** collect */
    method Collect(ghost st: State, s: string)
      requires Shows(st)
      modifies this`text
      ensures Shows(Collected(st, s))
    {
      if text != "" { text := text + " "; }
      text := text + s;
    }

    /** A line as it stands in the source. */
    method TakeRawLine(ghost st: State, line: string)
      requires Shows(st)
      modifies this
      ensures Shows(LineFrom(st, line, linkBase))
    {
      hide LineTaken, Text, TrimmedLen, RunLen;
      var n := TrimEnd(line);
      var indent := CountRun(line[..n], ' ');
      TakeLine(st, indent, line[..n][indent..]);
    }

    /** The cases of markdown_to_html's loop for one line. */
    method TakeLine(ghost st: State, indent: nat, body: string)
      requires Shows(st)
      modifies this
      ensures Shows(LineTaken(st, indent, body, linkBase))
    {
      hide Text, Flushed, Closed, Element, RunLen;
      var hashes := CountRun(body, '#');
      var isHeading := indent == 0 && 1 <= hashes <= 6 && hashes < |body| && body[hashes] == ' ';
      var isItem := indent <= 1 && |body| >= 2 && body[0] in "-*+" && body[1] == ' ';
      if body == "" {
        FlushBlock(st);
      } else if isHeading {
        CloseList(st);
        var n := HeadingName(hashes);
        PutElement(n, body[hashes + 1..]);
        TextAppend(Closed(st, linkBase).out, Element(n, body[hashes + 1..], linkBase));
      } else if isItem {
        FlushBlock(st);
        ghost var f := Flushed(st, linkBase);
        if !inList {
          out, inList := out + "<ul>\n", true;
          ListText(f.out);
          f := f.(out := f.out + [Open(Ul), Ch('\n')], inList := true);
        }
        kind := Item;
        Collect(f.(kind := Item), body[2..]);
      } else if indent > 0 && kind == Item {
        Collect(st, body);
      } else {
        ghost var c := st;
        if inList {
          CloseList(st);
          c := Closed(st, linkBase);
        }
        kind := Paragraph;
        Collect(c.(kind := Paragraph), body);
      }
    }
  }

  lemma LinesStep(st: State, md: string, at: nat, base: Option<string>)
    requires at < |md|
    ensures var eol := Find(md, at, '\n');
            Lines(st, md, at, base) ==
            Lines(LineFrom(st, md[at..eol], base), md, if eol < |md| then eol + 1 else eol, base)
  {
    hide LineFrom, Find;
  }

  lemma LinesEnd(st: State, md: string, base: Option<string>)
    ensures Lines(st, md, |md|, base) == st
  {}

  lemma ListText(out: seq<Token>)
    ensures Text(out + [Open(Ul), Ch('\n')]) == Text(out) + "<ul>\n"
    ensures Text(out + [Close(Ul), Ch('\n')]) == Text(out) + "</ul>\n"
  {
    hide Text;
    TextAppend(out, [Open(Ul), Ch('\n')]);
    TextAppend(out, [Close(Ul), Ch('\n')]);
    TextAppend([Open(Ul)], [Ch('\n')]);
    TextAppend([Close(Ul)], [Ch('\n')]);
    assert [Open(Ul)] + [Ch('\n')] == [Open(Ul), Ch('\n')] && [Close(Ul)] + [Ch('\n')] == [Close(Ul), Ch('\n')];
    CharText('\n');
    TextOne(Open(Ul));
    TextOne(Close(Ul));
    assert TokenText(Open(Ul)) + "\n" == "<ul>\n" && TokenText(Close(Ul)) + "\n" == "</ul>\n";
  }

  /** Counts the c at the start of s. */
  method CountRun(s: string, c: char) returns (n: nat)
    ensures n == RunLen(s, 0, c)
  {
    n := 0;
    while n < |s| && s[n] == c
      invariant n <= |s| && n + RunLen(s, n, c) == RunLen(s, 0, c)
    {
      n := n + 1;
    }
  }

  method TrimEnd(s: string) returns (n: nat)
    ensures n == TrimmedLen(s, |s|)
  {
    n := |s|;
    while n > 0 && s[n - 1] in "\r \t"
      invariant n <= |s| && TrimmedLen(s, n) == TrimmedLen(s, |s|)
    {
      n := n - 1;
    }
  }

  /** markdown_to_html: the text of the document's tokens, and so, for every
      source, HTML that reads back as well nested with safe links only. */
  method MarkdownToHtml(md: string, base: Option<string>) returns (html: string)
    ensures html == Text(Document(md, base))
    ensures Read(html).Some? && WellNested(Read(html).value) && AllSafe(Read(html).value, base)
  {
    hide Text, Closed, Read, WellNested, AllSafe, LineFrom, Lines;
    var r := new Renderer(base);
    ghost var st := START;
    var at := 0;
    while at < |md|
      invariant at <= |md| && r.Shows(st) && r.linkBase == base
      invariant Lines(st, md, at, base) == Lines(START, md, 0, base)
      decreases |md| - at
    {
      var eol := Find(md, at, '\n');
      LinesStep(st, md, at, base);
      r.TakeRawLine(st, md[at..eol]);
      st := LineFrom(st, md[at..eol], base);
      at := if eol < |md| then eol + 1 else eol;
    }
    LinesEnd(st, md, base);
    r.CloseList(st);
    html := r.out;
    DocumentNests(md, base);
  }

  lemma CharText(c: char)
    ensures Text([Ch(c)]) == Entity(c)
  {
    hide Entity, Text;
    TextOne(Ch(c));
  }

  lemma NothingLeft(s: string, base: Option<string>)
    ensures Text(InlineFrom(s, |s|, base)) == ""
  {}

  lemma HttpIsAbsolute(url: string)
    ensures IsHttp(url) ==> !IsRelative(url)
  {
    if IsHttp(url) { assert url[4] == ':' || url[5] == ':'; }
  }

  lemma {:induction false} EscapeAppend(a: string, b: string)
    ensures Escape(a + b) == Escape(a) + Escape(b)
  {
    hide Entity;
    if a == "" {
      assert a + b == b;
    } else {
      assert (a + b)[1..] == a[1..] + b;
      EscapeAppend(a[1..], b);
    }
  }

  lemma CodeText(o: string, s: string, out: string)
    requires out == o + "<code>" + Escape(s) + "</code>"
    ensures out == o + Text([Open(Code)] + Chars(s) + [Close(Code)])
  {
    hide Text, Escape, Chars;
    TextWrap(Open(Code), Chars(s), Close(Code));
    CharsText(s);
    assert TokenText(Open(Code)) == "<code>" && TokenText(Close(Code)) == "</code>";
  }

  lemma MarkText(o: string, n: Name, body: seq<Token>, out: string)
    requires out == o + ("<" + (NameText(n) + ">")) + Text(body) + ("<" + (("/" + NameText(n)) + ">"))
    ensures out == o + Text([Open(n)] + body + [Close(n)])
  {
    hide Text, NameText;
    TextWrap(Open(n), body, Close(n));
  }

  lemma AnchorText(o: string, href: string)
    ensures o + "<" + HREF + Escape(href) + REL + ">" == o + TokenText(Anchor(href))
  {
    hide Escape, HREF, REL;
    var e := Escape(href);
    Assoc(o, "<", HREF);
    Assoc(o, "<" + HREF, e);
    Assoc("<", HREF, e);
    Assoc(o, "<" + (HREF + e), REL);
    Assoc("<", HREF + e, REL);
    Assoc(o, "<" + (HREF + e + REL), ">");
    Assoc("<", HREF + e + REL, ">");
  }

  lemma LinkText(o: string, mid: string, href: string, body: seq<Token>, out: string)
    requires mid == o + TokenText(Anchor(href)) && out == mid + Text(body) + "</a>"
    ensures out == o + Text([Anchor(href)] + body + [Close(A)])
  {
    hide Text;
    TextWrap(Anchor(href), body, Close(A));
    assert TokenText(Close(A)) == "</a>";
    hide TokenText;
  }
}
