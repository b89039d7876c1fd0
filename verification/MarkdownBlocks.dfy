/** What Markdown source means to the renderer of src/utils/markdown_lite.c: its lines, the
    blocks they form and the marks inside a text, told apart from how it is rendered. */
module MarkdownBlocks {
  import opened Options
  import opened Ascii
  import opened HtmlTags
  import opened Markdown

  // ---- Lines -----------------------------------------------------------------------------------

  function LinesOf(md: string, at: nat): seq<string>
    requires at <= |md|
    decreases |md| - at
  {
    if at == |md| then []
    else
      var eol := Find(md, at, '\n');
      [md[at..eol]] + LinesOf(md, if eol < |md| then eol + 1 else eol)
  }

  function Unlines(ls: seq<string>): string { if ls == [] then "" else ls[0] + "\n" + Unlines(ls[1..]) }

  /** The source from `at` on, with the newline its last line may lack. */
  function FullLines(md: string, at: nat): string
    requires at <= |md|
  {
    if at == |md| || md[|md| - 1] == '\n' then md[at..] else md[at..] + "\n"
  }

  /** The lines are the source cut at its newlines; a missing one at the end does not matter. */
  lemma {:induction false} LinesJoin(md: string, at: nat)
    requires at <= |md|
    ensures Unlines(LinesOf(md, at)) == FullLines(md, at)
    decreases |md| - at
  {
    hide Unlines, LinesOf, Find, FullLines;
    LinesStep(md, at);
    if at == |md| {
      NoLines(md);
    } else {
      var eol := Find(md, at, '\n');
      var next := if eol < |md| then eol + 1 else eol;
      LinesJoin(md, next);
      OneLine(md[at..eol], LinesOf(md, next));
      FullStep(md, at, eol, next);
    }
  }

  lemma FullStep(md: string, at: nat, eol: nat, next: nat)
    requires at <= eol <= |md| && at < |md| && (forall i :: at <= i < eol ==> md[i] != '\n')
    requires if eol < |md| then md[eol] == '\n' && next == eol + 1 else next == eol
    ensures FullLines(md, at) == md[at..eol] + "\n" + FullLines(md, next)
  {
    if eol < |md| {
      CutAtNewline(md, at, eol);
    } else {
      assert md[at..] == md[at..eol] && md[eol..] == "";
      assert md[at..eol] + "\n" + "" == md[at..eol] + "\n";
    }
  }

  lemma LinesStep(md: string, at: nat)
    requires at <= |md|
    ensures at == |md| ==> LinesOf(md, at) == []
    ensures var eol := Find(md, at, '\n');
            at < |md| ==> LinesOf(md, at) == [md[at..eol]] + LinesOf(md, if eol < |md| then eol + 1 else eol)
  {}

  lemma NoLines(md: string)
    ensures Unlines([]) == "" && FullLines(md, |md|) == ""
  {}

  lemma OneLine(line: string, rest: seq<string>)
    ensures Unlines([line] + rest) == line + "\n" + Unlines(rest)
  {
    assert ([line] + rest)[1..] == rest;
  }

  lemma CutAtNewline(md: string, at: nat, eol: nat)
    requires at <= eol < |md| && md[eol] == '\n'
    ensures md[at..] == md[at..eol] + "\n" + md[eol + 1..]
    ensures md[at..] + "\n" == md[at..eol] + "\n" + (md[eol + 1..] + "\n")
  {}

  lemma {:induction false} NoNewlines(md: string, at: nat)
    requires at <= |md|
    ensures forall l | l in LinesOf(md, at) :: '\n' !in l
    decreases |md| - at
  {
    hide LinesOf, Find;
    LinesStep(md, at);
    if at < |md| {
      var eol := Find(md, at, '\n');
      NoNewlines(md, if eol < |md| then eol + 1 else eol);
    }
  }

  datatype Line = Blank | Heading(hashes: nat, text: string) | Bullet(text: string) | Plain(text: string, indented: bool)

  /** What a line is, its trailing blanks and its indentation taken off. */
  function KindOf(line: string): Line {
    var s := line[..TrimmedLen(line, |line|)];
    var indent := RunLen(s, 0, ' ');
    var body := s[indent..];
    if body == "" then Blank
    else if IsHeading(indent, body) then Heading(RunLen(body, 0, '#'), body[RunLen(body, 0, '#') + 1..])
    else if IsItem(indent, body) then Bullet(body[2..])
    else Plain(body, indent > 0)
  }

  lemma {:induction false} TrimMeans(s: string, n: nat)
    requires n <= |s|
    ensures var r := TrimmedLen(s, n); (forall i :: r <= i < n ==> s[i] in "\r \t") && (r > 0 ==> s[r - 1] !in "\r \t")
  {
    if n > 0 && s[n - 1] in "\r \t" { TrimMeans(s, n - 1); }
  }

  lemma {:induction false} RunMeans(s: string, i: nat, c: char)
    requires i <= |s|
    ensures var r := RunLen(s, i, c); (forall k :: i <= k < i + r ==> s[k] == c) && (i + r < |s| ==> s[i + r] != c)
    decreases |s| - i
  {
    if i < |s| && s[i] == c { RunMeans(s, i + 1, c); }
  }

  /** Behind `pre` spaces and before blanks that do not count. */
  ghost predicate Edges(line: string, pre: nat, end: nat) {
    && pre <= end <= |line| && (forall i :: end <= i < |line| ==> line[i] in "\r \t") && (end > 0 ==> line[end - 1] !in "\r \t")
    && (forall i :: 0 <= i < pre ==> line[i] == ' ') && (pre < end ==> line[pre] != ' ')
  }

  ghost predicate HeadingAt(line: string, pre: nat, end: nat, h: nat) {
    pre == 0 && 1 <= h <= 6 && h < end <= |line| && (forall i :: 0 <= i < h ==> line[i] == '#') && line[h] == ' '
  }

  ghost predicate BulletAt(line: string, pre: nat, end: nat) {
    pre <= 1 && pre + 2 <= end <= |line| && line[pre] in "-*+" && line[pre + 1] == ' '
  }

  /** What a line is, from its characters: one to six hashes and a space, a bullet and a
      space, nothing, or anything else. */
  ghost predicate LineIs(line: string, kind: Line, pre: nat, end: nat)
    requires pre <= end <= |line|
  {
    match kind
    case Blank => pre == end
    case Heading(h, text) => HeadingAt(line, pre, end, h) && text == line[h + 1..end]
    case Bullet(text) => BulletAt(line, pre, end) && text == line[pre + 2..end]
    case Plain(text, indented) =>
      && pre < end && text == line[pre..end] && indented == (pre > 0)
      && !BulletAt(line, pre, end) && forall h :: !HeadingAt(line, pre, end, h)
  }

  lemma KindMeans(line: string) returns (pre: nat, end: nat)
    ensures Edges(line, pre, end) && LineIs(line, KindOf(line), pre, end)
  {
    hide TrimmedLen, RunLen, HeadingAt, BulletAt, IsHeading, IsItem;
    end := TrimmedLen(line, |line|);
    TrimMeans(line, |line|);
    var s := line[..end];
    pre := RunLen(s, 0, ' ');
    RunMeans(s, 0, ' ');
    BodyIs(line, pre, end);
    HeadingIs(line, pre, end);
    BulletIs(line, pre, end);
  }

  lemma BodyIs(line: string, pre: nat, end: nat)
    requires pre <= end <= |line|
    ensures line[..end][pre..] == line[pre..end]
  {}

  lemma HeadingIs(line: string, pre: nat, end: nat)
    requires pre <= end <= |line|
    ensures var body := line[pre..end];
            var hashes := RunLen(body, 0, '#');
            && (IsHeading(pre, body) ==> HeadingAt(line, pre, end, hashes) && body[hashes + 1..] == line[hashes + 1..end])
            && (!IsHeading(pre, body) ==> forall h :: !HeadingAt(line, pre, end, h))
  {
    hide RunLen;
    var body := line[pre..end];
    RunMeans(body, 0, '#');
    assert forall i :: 0 <= i < |body| ==> body[i] == line[pre + i];
    if IsHeading(pre, body) {
      assert body == line[..end];
    }
    forall h | HeadingAt(line, pre, end, h) ensures RunLen(body, 0, '#') == h {
      HashesAre(body, h);
    }
  }

  lemma BulletIs(line: string, pre: nat, end: nat)
    requires pre <= end <= |line|
    ensures var body := line[pre..end];
            && (IsItem(pre, body) <==> BulletAt(line, pre, end))
            && (IsItem(pre, body) ==> body[2..] == line[pre + 2..end])
  {
    var body := line[pre..end];
    if |body| >= 2 { assert body[0] == line[pre] && body[1] == line[pre + 1]; }
  }

  lemma HashesAre(body: string, h: nat)
    requires h < |body| && (forall i :: 0 <= i < h ==> body[i] == '#') && body[h] != '#'
    ensures RunLen(body, 0, '#') == h
  {
    hide RunLen;
    RunMeans(body, 0, '#');
  }

  /** A heading of one hash is an h3, and so on down to h6. */
  lemma HeadingLevel(hashes: nat)
    requires hashes >= 1
    ensures NameText(HeadingName(hashes)) == "h" + [if hashes >= 4 then '6' else ('0' as int + hashes + 2) as char]
  {}

  // ---- Blocks ----------------------------------------------------------------------------------------

  /** Lines of a block joined by single spaces. */
  function Joined(text: string, ls: seq<Line>): string
    requires forall i :: 0 <= i < |ls| ==> ls[i].Plain?
    decreases |ls|
  {
    if ls == [] then text else Joined(text + " " + ls[0].text, ls[1..])
  }

  /** How many lines go on the paragraph: the plain ones. */
  function PlainRun(ls: seq<Line>): (n: nat)
    ensures n <= |ls| && (forall i :: 0 <= i < n ==> ls[i].Plain?) && (n < |ls| ==> !ls[n].Plain?)
  {
    if ls != [] && ls[0].Plain? then 1 + PlainRun(ls[1..]) else 0
  }

  /** How many lines go on the item: the plain ones that are indented. */
  function IndentedRun(ls: seq<Line>): (n: nat)
    ensures n <= |ls| && (forall i :: 0 <= i < n ==> ls[i].Plain? && ls[i].indented)
    ensures n < |ls| ==> !(ls[n].Plain? && ls[n].indented)
  {
    if ls != [] && ls[0].Plain? && ls[0].indented then 1 + IndentedRun(ls[1..]) else 0
  }

  /** A document outside a list: headings, paragraphs of plain lines up to the next line
      that is none, and lists. */
  function Blocks(ls: seq<Line>, base: Option<string>): seq<Token>
    decreases |ls|, 1
  {
    if ls == [] then []
    else
      match ls[0]
      case Blank => Blocks(ls[1..], base)
      case Heading(h, text) => Element(HeadingName(h), text, base) + Blocks(ls[1..], base)
      case Bullet(_) => [Open(Ul), Ch('\n')] + Items(ls, base)
      case Plain(text, _) =>
        var n := PlainRun(ls[1..]);
        Element(P, Joined(text, ls[1..][..n]), base) + Blocks(ls[1..][n..], base)
  }

  /** Inside a list: items with the indented lines below them; any other line ends it. */
  function Items(ls: seq<Line>, base: Option<string>): seq<Token>
    decreases |ls|, if ls != [] && ls[0].Bullet? then 0 else 2
  {
    if ls == [] then [Close(Ul), Ch('\n')]
    else
      match ls[0]
      case Blank => Items(ls[1..], base)
      case Bullet(text) =>
        var n := IndentedRun(ls[1..]);
        Element(Li, Joined(text, ls[1..][..n]), base) + Items(ls[1..][n..], base)
      case _ => [Close(Ul), Ch('\n')] + Blocks(ls, base)
  }

  function Kinds(ls: seq<string>): seq<Line> { seq(|ls|, i requires 0 <= i < |ls| => KindOf(ls[i])) }

  // ---- The renderer writes those blocks -----------------------------------------------------------------

  /** One line of a kind, taken by the renderer. */
  function Taken(st: State, l: Line, base: Option<string>): State {
    match l
    case Blank => Flushed(st, base)
    case Heading(h, text) => var c := Closed(st, base); c.(out := c.out + Element(HeadingName(h), text, base))
    case Bullet(text) =>
      var f := Flushed(st, base);
      var inside := if f.inList then f else f.(out := f.out + [Open(Ul), Ch('\n')], inList := true);
      Collected(inside.(kind := Item), text)
    case Plain(text, indented) =>
      if indented && st.kind == Item then Collected(st, text)
      else var c := if st.inList then Closed(st, base) else st; Collected(c.(kind := Paragraph), text)
  }

  lemma LineIsTaken(st: State, line: string, base: Option<string>)
    ensures LineFrom(st, line, base) == Taken(st, KindOf(line), base)
  {
    hide TrimmedLen, RunLen, Flushed, Closed, Collected, Element, HeadingName;
  }

  function AllTaken(st: State, ls: seq<Line>, base: Option<string>): State
    decreases |ls|
  {
    if ls == [] then st else AllTaken(Taken(st, ls[0], base), ls[1..], base)
  }

  lemma {:induction false} LinesTaken(st: State, md: string, at: nat, base: Option<string>)
    requires at <= |md|
    ensures Lines(st, md, at, base) == AllTaken(st, Kinds(LinesOf(md, at)), base)
    decreases |md| - at
  {
    hide LineFrom, Taken, KindOf, Find, LinesOf, Kinds, AllTaken;
    LinesStep(md, at);
    if at < |md| {
      var eol := Find(md, at, '\n');
      var next := if eol < |md| then eol + 1 else eol;
      var line := md[at..eol];
      LineIsTaken(st, line, base);
      LinesTaken(LineFrom(st, line, base), md, next, base);
      NextTaken(st, line, LinesOf(md, next), base);
    } else {
      NoneTaken(st, base);
    }
  }

  lemma NextTaken(st: State, line: string, ls: seq<string>, base: Option<string>)
    ensures AllTaken(st, Kinds([line] + ls), base) == AllTaken(Taken(st, KindOf(line), base), Kinds(ls), base)
  {
    hide Taken, KindOf;
    var all := [line] + ls;
    assert Kinds(all)[0] == KindOf(line) && Kinds(all)[1..] == Kinds(ls);
  }

  lemma NoneTaken(st: State, base: Option<string>)
    ensures AllTaken(st, Kinds([]), base) == st
  {}

  /** Texts are never empty: the blanks at the end are gone. */
  predicate Solid(l: Line) { (l.Bullet? || l.Plain?) ==> l.text != "" }

  lemma KindSolid(line: string)
    ensures Solid(KindOf(line))
  {
    hide KindOf;
    var pre, end := KindMeans(line);
  }

  /** What is collected fits where it is collected. */
  predicate Orderly(st: State) {
    && (st.kind == Item ==> st.inList) && (st.kind == Paragraph ==> !st.inList)
    && (st.kind == NoBlock <==> st.text == "")
  }

  /** What follows once the current block is out. */
  function After(inList: bool, ls: seq<Line>, base: Option<string>): seq<Token> {
    if inList then Items(ls, base) else Blocks(ls, base)
  }

  function BlockTokens(st: State, text: string, base: Option<string>): seq<Token> {
    match st.kind case NoBlock => [] case Paragraph => Element(P, text, base) case Item => Element(Li, text, base)
  }

  /** How many lines still go on the current block. */
  function Goes(st: State, ls: seq<Line>): (n: nat)
    ensures n <= |ls| && forall i :: 0 <= i < n ==> ls[i].Plain?
  {
    match st.kind case NoBlock => 0 case Paragraph => PlainRun(ls) case Item => IndentedRun(ls)
  }

  /** The tokens still to come, the block being collected first. */
  function Rest(st: State, ls: seq<Line>, base: Option<string>): seq<Token> {
    var n := Goes(st, ls);
    BlockTokens(st, Joined(st.text, ls[..n]), base) + After(st.inList, ls[n..], base)
  }

  lemma Flushing(st: State, base: Option<string>)
    requires Orderly(st)
    ensures var f := Flushed(st, base);
            f == State(st.out + BlockTokens(st, st.text, base), "", NoBlock, st.inList) && Orderly(f)
  {
    hide Element;
  }

  /** The first line goes on with the block. */
  lemma GoesOn(st: State, l: Line, ls: seq<Line>, base: Option<string>)
    requires Orderly(st) && Solid(l) && Goes(st, [l] + ls) > 0
    ensures var s2 := Taken(st, l, base); Orderly(s2) && s2.out == st.out && Rest(s2, ls, base) == Rest(st, [l] + ls, base)
  {
    hide BlockTokens, After, Flushed, Closed;
    var all := [l] + ls;
    assert all[0] == l && all[1..] == ls;
    var s2 := Taken(st, l, base);
    var n := Goes(s2, ls);
    assert Goes(st, all) == n + 1;
    assert all[..n + 1] == [l] + ls[..n] && all[n + 1..] == ls[n..];
    assert ([l] + ls[..n])[1..] == ls[..n];
    SameBlock(st, s2, Joined(st.text, all[..n + 1]), base);
  }

  lemma SameBlock(st: State, s2: State, text: string, base: Option<string>)
    requires st.kind == s2.kind
    ensures BlockTokens(st, text, base) == BlockTokens(s2, text, base)
  {}

  /** The first line does not: the block goes out. */
  lemma GoesOut(st: State, ls: seq<Line>, base: Option<string>)
    requires Orderly(st) && Goes(st, ls) == 0
    ensures Rest(st, ls, base) == BlockTokens(st, st.text, base) + After(st.inList, ls, base)
    ensures Rest(Flushed(st, base), ls, base) == After(st.inList, ls, base)
  {
    hide After, Element;
    Flushing(st, base);
    assert ls[..0] == [] && ls[0..] == ls;
    assert [] + After(st.inList, ls, base) == After(st.inList, ls, base);
  }

  lemma FreshTaken(st: State, l: Line, ls: seq<Line>, base: Option<string>)
    requires Orderly(st) && Goes(st, [l] + ls) == 0
    ensures Taken(st, l, base) == Taken(Flushed(st, base), l, base)
  {
    hide Element, BlockTokens;
    Flushing(st, base);
    Flushing(Flushed(st, base), base);
    var all := [l] + ls;
    assert all[0] == l && all[1..] == ls;
    NoBlockTokens(Flushed(st, base), base);
    assert st.out + [] == st.out;
    if st.kind == NoBlock { NoBlockTokens(st, base); }
  }

  lemma NoBlockTokens(st: State, base: Option<string>)
    requires st.kind == NoBlock
    ensures BlockTokens(st, st.text, base) == [] && st.out + [] == st.out
  {}

  /** A line with nothing collected: what it writes, and what follows. */
  lemma FreshStep(st: State, l: Line, ls: seq<Line>, base: Option<string>)
    requires Orderly(st) && st.kind == NoBlock && Solid(l)
    ensures var s2 := Taken(st, l, base);
            Orderly(s2) && s2.out + Rest(s2, ls, base) == st.out + After(st.inList, [l] + ls, base)
  {
    hide Element;
    Flushing(st, base);
    NoBlockTokens(st, base);
    match l
    case Blank => FreshBlank(st, ls, base);
    case Heading(h, text) => FreshHeading(st, h, text, ls, base);
    case Bullet(text) => FreshBullet(st, text, ls, base);
    case Plain(text, indented) => FreshPlain(st, text, indented, ls, base);
  }

  lemma FreshBlank(st: State, ls: seq<Line>, base: Option<string>)
    requires Orderly(st) && st.kind == NoBlock
    ensures var s2 := Taken(st, Blank, base);
            Orderly(s2) && s2.out + Rest(s2, ls, base) == st.out + After(st.inList, [Blank] + ls, base)
  {
    hide Element;
    assert ([Blank] + ls)[1..] == ls;
    assert ls[..0] == [] && ls[0..] == ls && st.out + [] == st.out;
    assert [] + After(st.inList, ls, base) == After(st.inList, ls, base);
  }

  lemma FreshHeading(st: State, h: nat, text: string, ls: seq<Line>, base: Option<string>)
    requires Orderly(st) && st.kind == NoBlock
    ensures var l := Heading(h, text);
            var s2 := Taken(st, l, base);
            Orderly(s2) && s2.out + Rest(s2, ls, base) == st.out + After(st.inList, [l] + ls, base)
  {
    hide Element, HeadingName;
    var l, e := Heading(h, text), Element(HeadingName(h), text, base);
    var end := [Close(Ul), Ch('\n')];
    assert ([l] + ls)[1..] == ls && ls[..0] == [] && ls[0..] == ls && st.out + [] == st.out;
    assert [] + Blocks(ls, base) == Blocks(ls, base);
    Assoc(st.out, e, Blocks(ls, base));
    Assoc(st.out, end, e + Blocks(ls, base));
    Assoc(st.out + end, e, Blocks(ls, base));
    assert Blocks([l] + ls, base) == e + Blocks(ls, base);
  }

  lemma FreshBullet(st: State, text: string, ls: seq<Line>, base: Option<string>)
    requires Orderly(st) && st.kind == NoBlock && text != ""
    ensures var l := Bullet(text);
            var s2 := Taken(st, l, base);
            Orderly(s2) && s2.out + Rest(s2, ls, base) == st.out + After(st.inList, [l] + ls, base)
  {
    hide Element;
    var l, begin := Bullet(text), [Open(Ul), Ch('\n')];
    assert ([l] + ls)[1..] == ls && st.out + [] == st.out;
    assert "" + text == text;
    Assoc(st.out, begin, Items([l] + ls, base));
    assert Blocks([l] + ls, base) == begin + Items([l] + ls, base);
  }

  lemma FreshPlain(st: State, text: string, indented: bool, ls: seq<Line>, base: Option<string>)
    requires Orderly(st) && st.kind == NoBlock && text != ""
    ensures var l := Plain(text, indented);
            var s2 := Taken(st, l, base);
            Orderly(s2) && s2.out + Rest(s2, ls, base) == st.out + After(st.inList, [l] + ls, base)
  {
    hide Element;
    var l, end := Plain(text, indented), [Close(Ul), Ch('\n')];
    assert ([l] + ls)[1..] == ls && st.out + [] == st.out;
    assert "" + text == text;
    Assoc(st.out, end, Blocks([l] + ls, base));
    assert Items([l] + ls, base) == end + Blocks([l] + ls, base);
  }

  lemma TakenStep(st: State, l: Line, ls: seq<Line>, base: Option<string>)
    requires Orderly(st) && Solid(l)
    ensures var s2 := Taken(st, l, base);
            Orderly(s2) && s2.out + Rest(s2, ls, base) == st.out + Rest(st, [l] + ls, base)
  {
    hide Taken, Rest, After, BlockTokens;
    if Goes(st, [l] + ls) > 0 {
      GoesOn(st, l, ls, base);
    } else {
      GoesOut(st, [l] + ls, base);
      FreshTaken(st, l, ls, base);
      Flushing(st, base);
      FreshStep(Flushed(st, base), l, ls, base);
      Assoc(st.out, BlockTokens(st, st.text, base), After(st.inList, [l] + ls, base));
    }
  }

  lemma {:induction false} AllStep(st: State, ls: seq<Line>, base: Option<string>)
    requires Orderly(st) && forall i :: 0 <= i < |ls| ==> Solid(ls[i])
    ensures Closed(AllTaken(st, ls, base), base).out == st.out + Rest(st, ls, base)
    decreases |ls|
  {
    hide Taken, Rest, Closed, Orderly;
    if ls == [] {
      LastOut(st, base);
    } else {
      var l, more := ls[0], ls[1..];
      assert ls == [l] + more;
      TakenStep(st, l, more, base);
      AllStep(Taken(st, l, base), more, base);
    }
  }

  lemma LastOut(st: State, base: Option<string>)
    requires Orderly(st)
    ensures Closed(st, base).out == st.out + Rest(st, [], base)
  {
    hide Element;
    Flushing(st, base);
    GoesOut(st, [], base);
    var e := BlockTokens(st, st.text, base);
    Assoc(st.out, e, [Close(Ul), Ch('\n')]);
    assert e + [] == e;
  }

  /** A document is its headings, paragraphs and lists: every line of a block is in its
      element, in order and joined by single spaces, and nothing else is written. */
  lemma DocumentIs(md: string, base: Option<string>)
    ensures Document(md, base) == Blocks(Kinds(LinesOf(md, 0)), base)
  {
    hide Lines, AllTaken, Rest, Closed, Blocks, KindOf;
    var ls := LinesOf(md, 0);
    forall i | 0 <= i < |ls| ensures Solid(Kinds(ls)[i]) { KindSolid(ls[i]); }
    LinesTaken(START, md, 0, base);
    AllStep(START, Kinds(ls), base);
    StartRest(Kinds(ls), base);
  }

  lemma StartRest(ls: seq<Line>, base: Option<string>)
    ensures Orderly(START) && START.out + Rest(START, ls, base) == Blocks(ls, base)
  {
    hide Blocks;
    assert ls[0..] == ls;
    assert [] + Blocks(ls, base) == Blocks(ls, base);
  }

  // ---- Marks inside a text ---------------------------------------------------------------------------

  /** `...` with something inside, up to the next backquote. */
  ghost predicate IsCode(s: string, i: nat, e: nat) {
    i + 1 < e < |s| && s[i] == '`' && s[e] == '`' && forall k :: i < k < e ==> s[k] != '`'
  }

  /** **...** with something inside, up to the next pair. */
  ghost predicate IsStrong(s: string, i: nat, e: nat) {
    i + 2 < e && HasAt(s, i, "**") && HasAt(s, e, "**") && forall k :: i + 2 <= k < e ==> !HasAt(s, k, "**")
  }

  /** *...* with no space just inside, up to the next asterisk. */
  ghost predicate IsEm(s: string, i: nat, e: nat) {
    && i + 1 < e < |s| && s[i] == '*' && s[i + 1] != '*' && s[i + 1] != ' ' && s[e] == '*' && s[e - 1] != ' '
    && forall k :: i < k < e ==> s[k] != '*'
  }

  /** [text](url), the text on one line: c is where its ] stands and e its ). */
  ghost predicate IsLink(s: string, i: nat, c: nat, e: nat) {
    && i < c && c + 2 <= e < |s| && s[i] == '[' && HasAt(s, c, "](") && s[e] == ')'
    && (forall k :: i < k < c ==> !HasAt(s, k, "](") && s[k] != '\n') && forall k :: c + 2 <= k < e ==> s[k] != ')'
  }

  /** An address of the web, longer than its scheme. */
  ghost predicate IsWeb(url: string) { exists h :: h in ["http://", "https://"] && h <= url && |url| > |h| }

  /** An address without scheme below the page's own. */
  ghost predicate IsBelow(url: string) { url != "" && ':' !in url && url[0] !in "/#" }

  /** Where a link leads, if it may lead anywhere. */
  ghost predicate LeadsTo(url: string, base: Option<string>, href: string) {
    (IsWeb(url) && href == url) || (IsBelow(url) && base.Some? && href == base.value + url)
  }

  /** What stands at i and goes on at `next`: a code span, strong or emphasised text, a
      link or its bare text, or one character; each exactly when it is written there. */
  ghost predicate PieceIs(s: string, i: nat, next: nat, ts: seq<Token>, base: Option<string>) {
    || (exists e: nat :: IsCode(s, i, e) && next == e + 1 && ts == [Open(Code)] + Chars(s[i + 1..e]) + [Close(Code)])
    || (exists e: nat :: IsStrong(s, i, e) && next == e + 2 && ts == [Open(Strong)] + InlineFrom(s[i + 2..e], 0, base) + [Close(Strong)])
    || (exists e: nat :: IsEm(s, i, e) && next == e + 1 && ts == [Open(Em)] + InlineFrom(s[i + 1..e], 0, base) + [Close(Em)])
    || (exists c: nat, e: nat :: IsLink(s, i, c, e) && next == e + 1 && LinkIs(s[i + 1..c], s[c + 2..e], ts, base))
    || (PlainAt(s, i) && next == i + 1 && ts == [Ch(s[i])])
  }

  ghost predicate LinkIs(text: string, url: string, ts: seq<Token>, base: Option<string>) {
    var inside := InlineFrom(text, 0, base);
    || (exists href :: LeadsTo(url, base, href) && ts == [Anchor(href)] + inside + [Close(A)])
    || (!IsWeb(url) && !(IsBelow(url) && base.Some?) && ts == inside)
  }

  /** No mark opens here. */
  ghost predicate PlainAt(s: string, i: nat) {
    && i < |s| && (forall e: nat :: !IsCode(s, i, e) && !IsStrong(s, i, e) && !IsEm(s, i, e))
    && forall c: nat, e: nat :: !IsLink(s, i, c, e)
  }

  lemma PieceMeans(s: string, i: nat, base: Option<string>)
    requires i < |s|
    ensures PieceIs(s, i, HeadOf(s, i, base).next, PieceTokens(s, i, base), base)
  {
    hide HeadOf, PieceTokens, PieceIs;
    if s[i] == '`' {
      CodeOpens(s, i, base);
    } else if s[i] == '*' {
      StarOpens(s, i, base);
    } else if s[i] == '[' {
      BracketOpens(s, i, base);
    } else {
      NothingOpens(s, i, base);
    }
  }

  lemma CodeOpens(s: string, i: nat, base: Option<string>)
    requires i < |s| && s[i] == '`'
    ensures PieceIs(s, i, HeadOf(s, i, base).next, PieceTokens(s, i, base), base)
  {
    hide InlineFrom, Chars, LinkHead, IsCode, IsStrong, IsEm, IsLink, PlainAt, PieceIs, Find, FindStr;
    OneMark(s, i);
    NoMark(s, i);
    CodeMeans(s, i);
    var e := Find(s, i + 1, '`');
    if i + 1 < e < |s| { CodePiece(s, i, e, base); } else { PlainPiece(s, i, base); }
  }

  lemma StarOpens(s: string, i: nat, base: Option<string>)
    requires i < |s| && s[i] == '*'
    ensures PieceIs(s, i, HeadOf(s, i, base).next, PieceTokens(s, i, base), base)
  {
    hide InlineFrom, Chars, LinkHead, IsCode, IsStrong, IsEm, IsLink, PlainAt, PieceIs, Find, FindStr;
    OneMark(s, i);
    NoMark(s, i);
    if i + 1 < |s| && s[i + 1] == '*' {
      StrongMeans(s, i);
      var e := FindStr(s, i + 2, "**");
      if i + 2 < e < |s| { StrongPiece(s, i, e, base); } else { PlainPiece(s, i, base); }
    } else if i + 1 < |s| && s[i + 1] != ' ' {
      EmMeans(s, i);
      var e := Find(s, i + 1, '*');
      if i + 1 < e < |s| && s[e - 1] != ' ' { EmPiece(s, i, e, base); } else { PlainPiece(s, i, base); }
    } else {
      PlainPiece(s, i, base);
    }
  }

  lemma BracketOpens(s: string, i: nat, base: Option<string>)
    requires i < |s| && s[i] == '['
    ensures PieceIs(s, i, HeadOf(s, i, base).next, PieceTokens(s, i, base), base)
  {
    hide InlineFrom, Chars, LinkHead, IsCode, IsStrong, IsEm, IsLink, PlainAt, PieceIs, Find, FindStr;
    OneMark(s, i);
    NoMark(s, i);
    LinkMeans(s, i, base);
    if LinkHead(s, i, base).Some? { LinkPiece(s, i, LinkHead(s, i, base).value, base); } else { PlainPiece(s, i, base); }
  }

  lemma NothingOpens(s: string, i: nat, base: Option<string>)
    requires i < |s| && s[i] !in "`*["
    ensures PieceIs(s, i, HeadOf(s, i, base).next, PieceTokens(s, i, base), base)
  {
    hide InlineFrom, Chars, LinkHead, IsCode, IsStrong, IsEm, IsLink, PlainAt, PieceIs, Find, FindStr;
    OneMark(s, i);
    NoMark(s, i);
    PlainPiece(s, i, base);
  }

  lemma PlainPiece(s: string, i: nat, base: Option<string>)
    requires i < |s| && PlainAt(s, i)
    ensures PieceIs(s, i, i + 1, [Ch(s[i])], base)
  {
    hide PlainAt, IsCode, IsStrong, IsEm, IsLink, InlineFrom;
  }

  lemma CodePiece(s: string, i: nat, e: nat, base: Option<string>)
    requires i + 1 < e < |s| && IsCode(s, i, e)
    ensures PieceIs(s, i, e + 1, [Open(Code)] + Chars(s[i + 1..e]) + [Close(Code)], base)
  {
    hide PlainAt, IsCode, IsStrong, IsEm, IsLink, InlineFrom;
  }

  lemma StrongPiece(s: string, i: nat, e: nat, base: Option<string>)
    requires i + 2 < e < |s| && IsStrong(s, i, e)
    ensures PieceIs(s, i, e + 2, [Open(Strong)] + InlineFrom(s[i + 2..e], 0, base) + [Close(Strong)], base)
  {
    hide PlainAt, IsCode, IsStrong, IsEm, IsLink, InlineFrom;
  }

  lemma EmPiece(s: string, i: nat, e: nat, base: Option<string>)
    requires i + 1 < e < |s| && IsEm(s, i, e)
    ensures PieceIs(s, i, e + 1, [Open(Em)] + InlineFrom(s[i + 1..e], 0, base) + [Close(Em)], base)
  {
    hide PlainAt, IsCode, IsStrong, IsEm, IsLink, InlineFrom;
  }

  lemma LinkPiece(s: string, i: nat, h: Head, base: Option<string>)
    requires HeadBounds(s, i, h) && (h.piece.Link? || h.piece.BareLink?) && h.piece.lo == i + 1
    requires IsLink(s, i, h.piece.hi, h.next - 1) && h.piece.hi + 2 <= h.next - 1
    requires h.piece.Link? ==> LeadsTo(s[h.piece.hi + 2..h.next - 1], base, h.piece.href)
    requires h.piece.BareLink? ==> !IsWeb(s[h.piece.hi + 2..h.next - 1]) && !(IsBelow(s[h.piece.hi + 2..h.next - 1]) && base.Some?)
    ensures var inside := InlineFrom(s[i + 1..h.piece.hi], 0, base);
            PieceIs(s, i, h.next, if h.piece.Link? then [Anchor(h.piece.href)] + inside + [Close(A)] else inside, base)
  {
    hide PlainAt, IsCode, IsStrong, IsEm, IsLink, InlineFrom, LeadsTo, IsWeb, IsBelow;
    LinkShown(s[i + 1..h.piece.hi], s[h.piece.hi + 2..h.next - 1], h.piece, base);
  }

  lemma NoMark(s: string, i: nat)
    requires i < |s|
    ensures PlainAt(s, i) <==> (forall e: nat :: !IsCode(s, i, e) && !IsStrong(s, i, e) && !IsEm(s, i, e))
                               && (forall c: nat, e: nat :: !IsLink(s, i, c, e))
  {
    hide IsCode, IsStrong, IsEm, IsLink;
  }

  lemma LinkShown(text: string, url: string, p: Piece, base: Option<string>)
    requires p.Link? ==> LeadsTo(url, base, p.href)
    requires p.BareLink? ==> !IsWeb(url) && !(IsBelow(url) && base.Some?)
    ensures p.Link? ==> LinkIs(text, url, [Anchor(p.href)] + InlineFrom(text, 0, base) + [Close(A)], base)
    ensures p.BareLink? ==> LinkIs(text, url, InlineFrom(text, 0, base), base)
  {
    hide InlineFrom, LeadsTo, IsWeb, IsBelow;
  }

  /** A character opens one kind of mark only. */
  lemma OneMark(s: string, i: nat)
    requires i < |s|
    ensures s[i] != '`' ==> forall e: nat :: !IsCode(s, i, e)
    ensures !(s[i] == '*' && i + 1 < |s| && s[i + 1] == '*') ==> forall e: nat :: !IsStrong(s, i, e)
    ensures !(s[i] == '*' && i + 1 < |s| && s[i + 1] != '*' && s[i + 1] != ' ') ==> forall e: nat :: !IsEm(s, i, e)
    ensures s[i] != '[' ==> forall c: nat, e: nat :: !IsLink(s, i, c, e)
  {
    forall e: nat | IsStrong(s, i, e) ensures s[i] == '*' && i + 1 < |s| && s[i + 1] == '*' {
      assert s[i..i + 2][0] == s[i] && s[i..i + 2][1] == s[i + 1];
    }
  }

  lemma CodeMeans(s: string, i: nat)
    requires i < |s| && s[i] == '`'
    ensures var e := Find(s, i + 1, '`');
            (i + 1 < e < |s| <==> IsCode(s, i, e)) && forall k: nat :: IsCode(s, i, k) ==> k == e
  {
    hide Find;
    var e := Find(s, i + 1, '`');
    forall k: nat | IsCode(s, i, k) ensures k == e {
    }
  }

  lemma StrongMeans(s: string, i: nat)
    requires i + 1 < |s| && s[i] == '*' && s[i + 1] == '*'
    ensures var e := FindStr(s, i + 2, "**");
            (i + 2 < e < |s| <==> IsStrong(s, i, e)) && forall k: nat :: IsStrong(s, i, k) ==> k == e
  {
    hide FindStr;
    var e := FindStr(s, i + 2, "**");
    assert s[i..i + 2] == "**";
  }

  lemma EmMeans(s: string, i: nat)
    requires i + 1 < |s| && s[i] == '*' && s[i + 1] != '*' && s[i + 1] != ' '
    ensures var e := Find(s, i + 1, '*');
            (i + 1 < e < |s| && s[e - 1] != ' ' <==> IsEm(s, i, e)) && forall k: nat :: IsEm(s, i, k) ==> k == e
  {
    hide Find;
    var e := Find(s, i + 1, '*');
  }

  lemma LinkMeans(s: string, i: nat, base: Option<string>)
    requires i < |s| && s[i] == '['
    ensures var r := LinkHead(s, i, base);
            if r.None? then forall c: nat, e: nat :: !IsLink(s, i, c, e)
            else
              var h := r.value;
              var c, e := h.piece.hi, h.next - 1;
              && h.piece.lo == i + 1 && c + 2 <= e && IsLink(s, i, c, e)
              && (h.piece.Link? ==> LeadsTo(s[c + 2..e], base, h.piece.href))
              && (h.piece.BareLink? ==> !IsWeb(s[c + 2..e]) && !(IsBelow(s[c + 2..e]) && base.Some?))
  {
    hide FindStr, Find, IsLink, IsHttp, IsRelative, IsWeb, IsBelow;
    LinkFound(s, i);
    var c := FindStr(s, i + 1, "](");
    if c < |s| && '\n' !in s[i + 1..c] {
      var e := Find(s, c + 2, ')');
      if e < |s| { WebIs(s[c + 2..e]); }
    }
  }

  lemma LinkFound(s: string, i: nat)
    requires i < |s| && s[i] == '['
    ensures var c := FindStr(s, i + 1, "](");
            if c == |s| || '\n' in s[i + 1..c] then forall c2: nat, e: nat :: !IsLink(s, i, c2, e)
            else
              var e := Find(s, c + 2, ')');
              (e < |s| ==> IsLink(s, i, c, e)) && (e == |s| ==> forall c2: nat, e2: nat :: !IsLink(s, i, c2, e2))
  {
    hide FindStr, Find;
    var c := FindStr(s, i + 1, "](");
    NoNewline(s, i, c);
    forall c2: nat, e2: nat | IsLink(s, i, c2, e2) ensures c2 == c {
      SameClose(s, i, c, c2, e2);
    }
  }

  lemma SameClose(s: string, i: nat, c: nat, c2: nat, e2: nat)
    requires i < |s| && c == FindStr(s, i + 1, "](") && IsLink(s, i, c2, e2)
    ensures c2 == c
  {
    hide FindStr, HasAt;
  }

  lemma NoNewline(s: string, i: nat, c: nat)
    requires i < c <= |s|
    ensures '\n' in s[i + 1..c] <==> exists k :: i < k < c && s[k] == '\n'
  {
    if k :| i < k < c && s[k] == '\n' { assert s[i + 1..c][k - i - 1] == s[k]; }
  }

  lemma WebIs(url: string)
    ensures IsHttp(url) <==> IsWeb(url)
    ensures IsRelative(url) <==> IsBelow(url)
  {
    if IsHttp(url) {
      var h := if |url| > 7 && "http://" <= url then "http://" else "https://";
      assert h in ["http://", "https://"] && h <= url && |url| > |h|;
    }
  }

  /** Inline text is its marks one after the other. */
  ghost predicate InlineIs(s: string, i: nat, ts: seq<Token>, base: Option<string>)
    requires i <= |s|
    decreases |s| - i
  {
    if i == |s| then ts == []
    else exists next: nat, k: nat :: i < next <= |s| && k <= |ts| && PieceIs(s, i, next, ts[..k], base) && InlineIs(s, next, ts[k..], base)
  }

  lemma {:induction false} InlineMeans(s: string, i: nat, base: Option<string>)
    requires i <= |s|
    ensures InlineIs(s, i, InlineFrom(s, i, base), base)
    decreases |s| - i
  {
    hide PieceIs, PieceTokens, HeadOf;
    if i < |s| {
      var next, ts := HeadOf(s, i, base).next, PieceTokens(s, i, base);
      PieceMeans(s, i, base);
      InlineMeans(s, next, base);
      var all := ts + InlineFrom(s, next, base);
      assert all[..|ts|] == ts && all[|ts|..] == InlineFrom(s, next, base);
    }
  }

  /** An element of a document: its marks between its tags, and a newline. */
  lemma ElementIs(n: Name, s: string, base: Option<string>) returns (ts: seq<Token>)
    ensures Element(n, s, base) == [Open(n)] + ts + [Close(n), Ch('\n')] && InlineIs(s, 0, ts, base)
  {
    hide InlineFrom, InlineIs;
    ts := InlineFrom(s, 0, base);
    InlineMeans(s, 0, base);
    assert [Close(n)] + [Ch('\n')] == [Close(n), Ch('\n')];
  }
}
