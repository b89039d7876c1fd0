/** The HTML that the Markdown renderer may write: its tags and characters as
    tokens, a strict reader from text to tokens, and which sequences of tokens
    are well nested. */
module HtmlTags {
  import opened Options
  import opened Ascii

  datatype Name = P | Ul | Li | H3 | H4 | H5 | H6 | Code | Strong | Em | A

  datatype Token = Ch(c: char) | Open(name: Name) | Anchor(href: string) | Close(name: Name)

  // ---- Text of tokens --------------------------------------------------------------------

  function Entity(c: char): (r: string)
    ensures r != ""
  {
    if c == '&' then "&amp;"
    else if c == '<' then "&lt;"
    else if c == '>' then "&gt;"
    else if c == '"' then "&quot;"
    else if c == '\'' then "&#39;"
    else [c]
  }

  function Escape(s: string): string {
    if s == "" then "" else Entity(s[0]) + Escape(s[1..])
  }

  function NameText(n: Name): (r: string)
    ensures 1 <= |r| <= 6 && r[0] != '/' && '>' !in r
  {
    match n
    case P => "p"
    case Ul => "ul"
    case Li => "li"
    case H3 => "h3"
    case H4 => "h4"
    case H5 => "h5"
    case H6 => "h6"
    case Code => "code"
    case Strong => "strong"
    case Em => "em"
    case A => "a"
  }

  const HREF: string := "a href=\""
  const REL: string := "\" rel=\"noopener noreferrer\""

  function TokenText(t: Token): (r: string)
    ensures r != ""
  {
    match t
    case Ch(c) => Entity(c)
    case Open(n) => "<" + (NameText(n) + ">")
    case Anchor(h) => "<" + (HREF + Escape(h) + REL + ">")
    case Close(n) => "<" + (("/" + NameText(n)) + ">")
  }

  function Text(ts: seq<Token>): string {
    if ts == [] then "" else TokenText(ts[0]) + Text(ts[1..])
  }

  function Chars(s: string): seq<Token> {
    if s == "" then [] else [Ch(s[0])] + Chars(s[1..])
  }

  // ---- The reader ----------------------------------------------------------------------------

  datatype CharRead = CharRead(c: char, len: nat)

  /** One character of text: the special ones only as entities. */
  function NextChar(s: string): (r: Option<CharRead>)
    ensures r.Some? ==> 0 < r.value.len <= |s|
  {
    if s == "" then None
    else if s[0] == '&' then
      if "&amp;" <= s then Some(CharRead('&', 5))
      else if "&lt;" <= s then Some(CharRead('<', 4))
      else if "&gt;" <= s then Some(CharRead('>', 4))
      else if "&quot;" <= s then Some(CharRead('"', 6))
      else if "&#39;" <= s then Some(CharRead('\'', 5))
      else None
    else if s[0] in "<>\"'" then None
    else Some(CharRead(s[0], 1))
  }

  function Unescape(s: string): Option<string>
    decreases |s|
  {
    if s == "" then Some("")
    else
      match NextChar(s)
      case None => None
      case Some(u) =>
        match Unescape(s[u.len..])
        case None => None
        case Some(rest) => Some([u.c] + rest)
  }

  function NameOf(x: string): Option<Name> {
    if x == "p" then Some(P)
    else if x == "ul" then Some(Ul)
    else if x == "li" then Some(Li)
    else if x == "h3" then Some(H3)
    else if x == "h4" then Some(H4)
    else if x == "h5" then Some(H5)
    else if x == "h6" then Some(H6)
    else if x == "code" then Some(Code)
    else if x == "strong" then Some(Strong)
    else if x == "em" then Some(Em)
    else if x == "a" then Some(A)
    else None
  }

  const ANCHOR: string := "a href=\""
  const ANCHOR_END: string := "\" rel=\"noopener noreferrer\""

  /** What stands between `<` and `>`. Only an anchor has attributes, and must have them. */
  function TagOf(x: string): Option<Token> {
    if |x| >= |ANCHOR| + |ANCHOR_END| then
      var end := |x| - |ANCHOR_END|;
      if ANCHOR <= x && x[end..] == ANCHOR_END then
        match Unescape(x[|ANCHOR|..end])
        case None => None
        case Some(h) => Some(Anchor(h))
      else None
    else if x != "" && x[0] == '/' then
      match NameOf(x[1..])
      case None => None
      case Some(n) => Some(Close(n))
    else
      match NameOf(x)
      case None => None
      case Some(n) => if n == A then None else Some(Open(n))
  }

  datatype TokenRead = TokenRead(token: Token, len: nat)

  function NextToken(s: string): (r: Option<TokenRead>)
    ensures r.Some? ==> 0 < r.value.len <= |s|
  {
    if s == "" then None
    else if s[0] == '<' then
      var end := Find(s, 0, '>');
      if end == |s| then None
      else
        match TagOf(s[1..end])
        case None => None
        case Some(t) => Some(TokenRead(t, end + 1))
    else
      match NextChar(s)
      case None => None
      case Some(u) => Some(TokenRead(Ch(u.c), u.len))
  }

  /** The tokens of a whole text; none when some part of it is not a token. */
  function Read(s: string): Option<seq<Token>>
    decreases |s|
  {
    if s == "" then Some([])
    else
      match NextToken(s)
      case None => None
      case Some(u) =>
        match Read(s[u.len..])
        case None => None
        case Some(rest) => Some([u.token] + rest)
  }

  // ---- Reading undoes writing --------------------------------------------------------------------

  lemma EntityReads(c: char, rest: string)
    ensures NextChar(Entity(c) + rest) == Some(CharRead(c, |Entity(c)|))
    ensures Entity(c)[0] != '<' && '>' !in Entity(c)
  {
    var s := Entity(c) + rest;
    assert s[..|Entity(c)|] == Entity(c);
    if |Entity(c)| > 1 { assert s[1] == Entity(c)[1] && s[2] == Entity(c)[2]; }
  }

  lemma {:induction false} EscapeReads(h: string)
    ensures Unescape(Escape(h)) == Some(h)
    ensures '>' !in Escape(h)
  {
    hide Entity, NextChar;
    if h != "" {
      var s := Escape(h);
      EntityReads(h[0], Escape(h[1..]));
      EscapeReads(h[1..]);
      assert s[|Entity(h[0])|..] == Escape(h[1..]);
      assert h == [h[0]] + h[1..];
    }
  }

  lemma NameReads(n: Name)
    ensures NameOf(NameText(n)) == Some(n)
  {}

  predicate Writable(t: Token) { t != Open(A) }

  /** The inside of a token's tag. */
  function Inside(t: Token): string {
    match t
    case Ch(c) => ""
    case Open(n) => NameText(n)
    case Anchor(h) => HREF + Escape(h) + REL
    case Close(n) => "/" + NameText(n)
  }

  lemma AnchorInside(h: string)
    ensures TagOf(HREF + Escape(h) + REL) == Some(Anchor(h))
  {
    hide Escape, Unescape;
    var e := Escape(h);
    var x := HREF + e + REL;
    EscapeReads(h);
    var end := |x| - |REL|;
    assert x[..|HREF|] == HREF && x[end..] == REL && x[|HREF|..end] == e;
  }

  lemma InsideReads(t: Token)
    requires Writable(t) && !t.Ch?
    ensures TagOf(Inside(t)) == Some(t) && '>' !in Inside(t)
  {
    hide NameText, NameOf, Escape, Unescape, TagOf;
    match t
    case Ch(c) =>
    case Open(n) =>
      NameTag(n);
    case Anchor(h) =>
      AnchorInside(h);
      EscapeReads(h);
    case Close(n) =>
      NameTag(n);
  }

  lemma NameTag(n: Name)
    ensures n != A ==> TagOf(NameText(n)) == Some(Open(n))
    ensures TagOf("/" + NameText(n)) == Some(Close(n)) && '>' !in "/" + NameText(n)
  {
    hide NameText, NameOf, Unescape;
    NameReads(n);
    assert ("/" + NameText(n))[1..] == NameText(n);
  }

  lemma TokenReads(t: Token, rest: string)
    requires Writable(t)
    ensures NextToken(TokenText(t) + rest) == Some(TokenRead(t, |TokenText(t)|))
  {
    hide Entity, NextChar, TagOf, NameText, Escape, Find, NextToken;
    if t.Ch? {
      CharReads(t.c, rest);
    } else {
      InsideReads(t);
      assert TokenText(t) == "<" + (Inside(t) + ">");
      TagReads(Inside(t), rest);
    }
  }

  lemma CharReads(c: char, rest: string)
    ensures NextToken(Entity(c) + rest) == Some(TokenRead(Ch(c), |Entity(c)|))
  {
    hide Entity, NextChar;
    EntityReads(c, rest);
  }

  /** A tag is read up to its first `>`. */
  lemma TagReads(x: string, rest: string)
    requires '>' !in x && TagOf(x).Some?
    ensures var tag := "<" + (x + ">");
            NextToken(tag + rest) == Some(TokenRead(TagOf(x).value, |tag|))
  {
    hide TagOf, NextChar;
    var s := "<" + (x + ">") + rest;
    assert s[1..1 + |x|] == x && s[1 + |x|] == '>';
    FirstIs(s, '>', 1 + |x|);
  }

  lemma FirstIs(s: string, c: char, at: nat)
    requires at < |s| && s[at] == c && s[0] != c && c !in s[1..at]
    requires at > 0
    ensures Find(s, 0, c) == at
  {
    assert forall i | 1 <= i < at :: s[i] == s[1..at][i - 1];
    FindIs(s, c, at);
  }

  /** Every sequence of tokens is read back from its text. */
  lemma {:induction false} TextReads(ts: seq<Token>)
    requires forall t | t in ts :: Writable(t)
    ensures Read(Text(ts)) == Some(ts)
  {
    hide TokenText, NextToken;
    if ts != [] {
      var s := Text(ts);
      TokenReads(ts[0], Text(ts[1..]));
      TextReads(ts[1..]);
      assert s[|TokenText(ts[0])|..] == Text(ts[1..]);
      assert ts == [ts[0]] + ts[1..];
    }
  }

  lemma {:induction false} TextAppend(a: seq<Token>, b: seq<Token>)
    ensures Text(a + b) == Text(a) + Text(b)
  {
    hide TokenText;
    if a == [] {
      assert a + b == b;
    } else {
      assert (a + b)[1..] == a[1..] + b;
      TextAppend(a[1..], b);
    }
  }

  lemma {:induction false} CharsText(s: string)
    ensures Text(Chars(s)) == Escape(s)
  {
    hide Entity;
    if s != "" {
      assert Chars(s)[1..] == Chars(s[1..]);
      CharsText(s[1..]);
    }
  }

  // ---- Nesting ---------------------------------------------------------------------------------------

  predicate IsBlock(n: Name) { n in {P, Ul, Li, H3, H4, H5, H6} }

  /** Inside these elements there is running text. */
  predicate HoldsText(stack: seq<Name>) {
    stack != [] && stack[|stack| - 1] != Ul && Code !in stack
  }

  /** Paragraphs, headings and lists stand alone, items stand in a list and
      nothing else does, and inside running text no element holds one of its
      own kind, and emphasis never holds strong emphasis. */
  predicate CanOpen(n: Name, stack: seq<Name>) {
    if n == Li then stack == [Ul]
    else if IsBlock(n) then stack == []
    else HoldsText(stack) && n !in stack && (n == Strong ==> Em !in stack)
  }

  function Step(t: Token, stack: seq<Name>): Option<seq<Name>> {
    match t
    case Ch(c) =>
      if c == '\n' || (stack != [] && stack[|stack| - 1] != Ul) then Some(stack) else None
    case Open(n) => if CanOpen(n, stack) then Some(stack + [n]) else None
    case Anchor(_) => if CanOpen(A, stack) then Some(stack + [A]) else None
    case Close(n) =>
      if stack != [] && stack[|stack| - 1] == n then Some(stack[..|stack| - 1]) else None
  }

  /** The elements left open by a sequence of tokens that starts inside `stack`. */
  function Walk(ts: seq<Token>, stack: seq<Name>): Option<seq<Name>> {
    if ts == [] then Some(stack)
    else
      match Step(ts[0], stack)
      case None => None
      case Some(st) => Walk(ts[1..], st)
  }

  predicate WellNested(ts: seq<Token>) { Walk(ts, []) == Some([]) }

  lemma {:induction false} WalkAppend(a: seq<Token>, b: seq<Token>, stack: seq<Name>)
    requires Walk(a, stack).Some?
    ensures Walk(a + b, stack) == Walk(b, Walk(a, stack).value)
  {
    hide Step;
    if a == [] {
      assert a + b == b;
    } else {
      assert (a + b)[1..] == a[1..] + b;
      WalkAppend(a[1..], b, Step(a[0], stack).value);
    }
  }

  lemma {:induction false} CharsWalk(s: string, stack: seq<Name>)
    requires stack != [] && stack[|stack| - 1] != Ul
    ensures Walk(Chars(s), stack) == Some(stack)
  {
    if s != "" {
      assert Chars(s)[1..] == Chars(s[1..]);
      CharsWalk(s[1..], stack);
    }
  }

  /** An element around a body that is well nested inside it. */
  lemma Wraps(first: Token, n: Name, body: seq<Token>, stack: seq<Name>)
    requires Step(first, stack) == Some(stack + [n])
    requires Walk(body, stack + [n]) == Some(stack + [n])
    ensures Walk([first] + body + [Close(n)], stack) == Some(stack)
  {
    var inner := stack + [n];
    var rest := body + [Close(n)];
    assert [first] + body + [Close(n)] == [first] + rest;
    assert ([first] + rest)[1..] == rest;
    WalkAppend(body, [Close(n)], inner);
    assert inner[..|inner| - 1] == stack;
    assert [Close(n)][1..] == [];
    assert Walk([Close(n)], inner) == Some(stack);
  }

  // ---- What a reader sees ------------------------------------------------------------------------------

  function Visible(ts: seq<Token>): string {
    if ts == [] then ""
    else Shown(ts[0]) + Visible(ts[1..])
  }

  function Shown(t: Token): string { if t.Ch? then [t.c] else "" }

  lemma {:induction false} VisibleAppend(a: seq<Token>, b: seq<Token>)
    ensures Visible(a + b) == Visible(a) + Visible(b)
  {
    hide Shown;
    if a == [] {
      assert a + b == b;
    } else {
      assert (a + b)[0] == a[0] && (a + b)[1..] == a[1..] + b;
      VisibleAppend(a[1..], b);
      Assoc(Shown(a[0]), Visible(a[1..]), Visible(b));
    }
  }

  lemma {:induction false} CharsVisible(s: string)
    ensures Visible(Chars(s)) == s
  {
    if s != "" {
      assert Chars(s)[1..] == Chars(s[1..]);
      CharsVisible(s[1..]);
    }
  }
}
