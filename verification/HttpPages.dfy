/** The pages that the HTTP server sends as WML text (wml_paginate of
    src/wap_gateway/wbxml.c): a browser that reads one gets its title, blocks and links. */
module HttpPages {
  import opened Ascii
  import opened WmlString
  import opened Wbxml
  import opened WmlParser
  import opened WmlPrinter
  import opened WmlForm
  import opened SeamText
  import opened Paginator
  import opened PageNav
  import opened Deck

  // ---- Cutting keeps trees normal -------------------------------------------------------------

  lemma {:induction false} NormalAppend(a: seq<Node>, b: seq<Node>, depth: nat)
    requires AllNormal(a, depth) && AllNormal(b, depth)
    ensures AllNormal(a + b, depth)
  {
    hide Normal;
    if a == [] {
      assert a + b == b;
    } else {
      assert (a + b)[0] == a[0] && (a + b)[1..] == a[1..] + b;
      NormalAppend(a[1..], b, depth);
    }
  }

  lemma {:induction false} NormalCut(ns: seq<Node>, i: nat, depth: nat)
    requires i <= |ns| && AllNormal(ns, depth)
    ensures AllNormal(ns[..i], depth) && AllNormal(ns[i..], depth)
  {
    hide Normal;
    if i > 0 {
      NormalCut(ns[1..], i - 1, depth);
      assert ns[..i][0] == ns[0] && ns[..i][1..] == ns[1..][..i - 1] && ns[1..][i - 1..] == ns[i..];
    }
  }

  lemma TextKidNormal(t: string, depth: nat)
    ensures AllNormal(TextKid(t), depth)
  {
    NoneNormal(depth);
    if t != "" { OneNormal(Text(t), depth); }
  }

  /** A text that starts or ends in a word is normal where it was. */
  lemma PieceNormal(t: string, i: nat, j: nat)
    requires i < j <= |t| && (NormalText(t) || t == " ") && (t[i] != ' ' || t[j - 1] != ' ')
    ensures NormalText(t[i..j])
  {
    var u := t[i..j];
    assert u[0] == t[i] && u[|u| - 1] == t[j - 1];
    assert forall k :: 0 <= k < |u| ==> u[k] == t[i + k];
  }

  /** A tidied seam ends the head in a word, or between children that may end one. */
  ghost predicate CleanSeam(blk: Node, s: Seam)
    requires ValidSeam(blk, s)
  {
    && (s.cut > 0 ==> blk.kids[s.m].text[s.cut - 1] != ' ')
    && (s.cut == 0 && s.m > 0 ==> blk.kids[s.m - 1] != Text(" "))
  }

  lemma {:induction false} CutsEndWords(t: string, i: nat, max: nat, k: nat)
    requires 1 <= i && k < |CutsFrom(t, i, max)|
    ensures var c := CutsFrom(t, i, max)[k]; 1 <= c <= |t| && (c < |t| ==> t[c - 1] != ' ')
    decreases |t| + 1 - i
  {
    if EndsWord(t, i) {
      if k > 0 { CutsEndWords(t, i + 1, max - 1, k - 1); }
    } else {
      CutsEndWords(t, i + 1, max, k);
    }
  }

  /** The cut found ends in a word: the whole text would not have fitted. */
  lemma CutEndsWord(f: Frame, cur: seq<Node>, blk: Node, m: nat)
    requires blk.Elem? && m < |blk.kids| && blk.kids[m].Text? && !Fits(f, cur + [PrefixOf(blk, m + 1, "")])
    ensures var c := TextCut(f, cur, blk, m); c > 0 ==> blk.kids[m].text[c - 1] != ' '
  {
    hide Fits, CutsFrom, MostWords, BetweenWords;
    var t := blk.kids[m].text;
    var cuts := WordCuts(t);
    var n := MostWords(f, cur, blk, m, cuts, 0, |cuts|);
    var c := TextCut(f, cur, blk, m);
    TextCutFits(f, cur, blk, m);
    if t != "" { WholePrefix(blk, m); }
    if n > 0 { CutsEndWords(t, 1, MAX_WORDS, n - 1); }
  }

  lemma WholePrefix(blk: Node, m: nat)
    requires blk.Elem? && m < |blk.kids| && blk.kids[m].Text? && blk.kids[m].text != ""
    ensures var t := blk.kids[m].text; t[..|t|] == t && PrefixOf(blk, m, t) == PrefixOf(blk, m + 1, "")
  {
    var t := blk.kids[m].text;
    assert blk.kids[..m + 1] == blk.kids[..m] + [Text(t)];
    assert blk.kids[..m + 1] + [] == blk.kids[..m + 1];
  }

  lemma {:induction false} TrimEndsWord(t: string, end: nat)
    requires BetweenWords(t, end)
    ensures var r := TrimTail(t, end); r > 0 ==> t[r - 1] != ' '
    decreases end
  {
    hide EndsLine;
    var e := TrimSpaces(t, end);
    if e > 0 {
      var start := WordStart(t, e);
      if !EndsLine(t[start..e]) { TrimEndsWord(t, start); }
    }
  }

  lemma SpaceTrims()
    ensures TrimTail(" ", 1) == 0
  {
    assert TrimSpaces(" ", 0) == 0 && TrimSpaces(" ", 1) == 0;
  }

  lemma {:induction false} LargestStops(f: Frame, cur: seq<Node>, blk: Node, m: nat)
    requires blk.Elem? && m <= |blk.kids|
    ensures var r := LargestFit(f, cur, blk, m); r < |blk.kids| ==> !Fits(f, cur + [PrefixOf(blk, r + 1, "")])
    decreases |blk.kids| - m
  {
    hide Fits;
    if m < |blk.kids| && Fits(f, cur + [PrefixOf(blk, m + 1, "")]) { LargestStops(f, cur, blk, m + 1); }
  }

  lemma SeamIsClean(f: Frame, cur: seq<Node>, blk: Node, m: nat)
    requires blk.Elem? && KidsOk(blk.name, blk.kids) && m < |blk.kids| && m == LargestFit(f, cur, blk, 0)
    ensures CleanSeam(blk, TidySeam(blk, FirstSeam(f, cur, blk, m)))
  {
    hide Fits, LargestFit, TextCut, TrimTail, NormalText, InlineGap;
    LargestStops(f, cur, blk, 0);
    if blk.kids[m].Text? { CutEndsWord(f, cur, blk, m); }
    var s := FirstSeam(f, cur, blk, m);
    if s.cut == 0 && m > 0 && blk.kids[m - 1].Text? {
      var t := blk.kids[m - 1].text;
      TrimEndsWord(t, |t|);
      SpaceTrims();
      if m > 1 { assert KidOk(blk.name, blk.kids, m - 2); }
    }
  }

  lemma HeadKidsOk(blk: Node, s: Seam)
    requires ValidSeam(blk, s) && CleanSeam(blk, s) && KidsOk(blk.name, blk.kids)
    ensures KidsOk(blk.name, HeadOf(blk, s).kids)
  {
    hide NormalText, InlineGap;
    var kids, head := blk.kids, HeadOf(blk, s).kids;
    assert KidOk(blk.name, kids, s.m);
    forall i | 0 <= i < |head| ensures KidOk(blk.name, head, i) {
      if i < s.m {
        assert KidOk(blk.name, kids, i);
        assert head[..i] == kids[..i];
      } else {
        PieceNormal(kids[s.m].text, 0, s.cut);
      }
    }
  }

  lemma {:induction false} SkipStarts(t: string)
    ensures var u := SkipSeparators(t); |u| <= |t| && u == t[|t| - |u|..] && (u != "" ==> u[0] != ' ')
    decreases |t|
  {
    hide SkipSpaces, HasAlnum, IsSeparator, Words, Find;
    var u := SkipSpaces(t);
    SkipSpacesEnd(t);
    var n := Find(u, 0, ' ');
    if !(n == 0 || HasAlnum(u[..n]) || !IsSeparator(u[..n])) {
      SkipStarts(u[n..]);
      TailOfTail(t, u, n, SkipSeparators(u[n..]));
    }
  }

  lemma TailOfTail(t: string, u: string, n: nat, v: string)
    requires |u| <= |t| && u == t[|t| - |u|..] && n <= |u| && |v| <= |u| - n && v == u[n..][|u| - n - |v|..]
    ensures v == t[|t| - |v|..]
  {}

  lemma {:induction false} SkipSpacesEnd(t: string)
    ensures SkipSpaces(t) == t[|t| - |SkipSpaces(t)|..]
  {
    if t != "" && t[0] == ' ' { SkipSpacesEnd(t[1..]); }
  }

  lemma RestTextNormal(t: string, cut: nat)
    requires cut <= |t| && (NormalText(t) || t == " ") && SkipSeparators(t[cut..]) != ""
    ensures NormalText(SkipSeparators(t[cut..]))
  {
    hide NormalText, SkipSeparators;
    var u := SkipSeparators(t[cut..]);
    SkipStarts(t[cut..]);
    TailOfTail(t, t, cut, u);
    PieceNormal(t, |t| - |u|, |t|);
    assert t[|t| - |u|..|t|] == t[|t| - |u|..];
  }

  /** A gap depends on the sibling before it only. */
  lemma GapKept(name: string, a: seq<Node>, b: seq<Node>)
    requires a != [] && b != []
    ensures a[|a| - 1] == b[|b| - 1] ==> InlineGap(name, a) == InlineGap(name, b)
  {}

  /** Children from an element on. */
  lemma TailKidsOk(name: string, kids: seq<Node>, j: nat)
    requires KidsOk(name, kids) && j <= |kids| && (j < |kids| ==> kids[j].Elem?)
    ensures KidsOk(name, kids[j..])
  {
    hide NormalText, InlineGap;
    var tail := kids[j..];
    forall i | 0 <= i < |tail| ensures KidOk(name, tail, i) {
      assert KidOk(name, kids, j + i);
      if i > 0 { GapKept(name, kids[..j + i], tail[..i]); }
    }
  }

  /** A text in front of an element. */
  lemma LedKidsOk(name: string, u: string, kids: seq<Node>)
    requires NormalText(u) && KidsOk(name, kids) && (kids != [] ==> kids[0].Elem?)
    ensures KidsOk(name, [Text(u)] + kids)
  {
    hide NormalText, InlineGap;
    var led := [Text(u)] + kids;
    forall i | 0 <= i < |led| ensures KidOk(name, led, i) {
      if i > 0 {
        assert KidOk(name, kids, i - 1);
        if i > 1 { GapKept(name, kids[..i - 1], led[..i]); }
      }
    }
  }

  lemma RestKidsOk(blk: Node, s: Seam)
    requires ValidSeam(blk, s) && KidsOk(blk.name, blk.kids)
    ensures KidsOk(blk.name, RestKids(blk, s))
  {
    hide NormalText, SkipSeparators, InlineGap;
    var name, kids := blk.name, blk.kids;
    assert KidOk(name, kids, s.m);
    hide KidsOk;
    if kids[s.m].Text? {
      var u, tail := SkipSeparators(kids[s.m].text[s.cut..]), kids[s.m + 1..];
      TailKidsOk(name, kids, s.m + 1);
      if u == "" {
        assert RestKids(blk, s) == tail;
      } else {
        RestTextNormal(kids[s.m].text, s.cut);
        LedKidsOk(name, u, tail);
      }
    } else {
      TailKidsOk(name, kids, s.m);
    }
  }

  /** Both halves of a cut block are normal. */
  lemma SplitNormal(f: Frame, cur: seq<Node>, blk: Node, depth: nat)
    requires blk.Elem? && Normal(blk, depth)
    ensures var r := SplitToFit(f, cur, blk);
            r.Split? ==> r.head.Elem? && Normal(r.head, depth) && AllNormal(r.rest, depth) && forall n | n in r.rest :: n.Elem?
  {
    hide LargestFit, TidySeam, FirstSeam, HeadOf, RestOf, KidsOk, CleanSeam, AllNormal, ValidName, ValidAttrs, IsVoidTag;
    var r := SplitToFit(f, cur, blk);
    if r.Split? {
      var m := LargestFit(f, cur, blk, 0);
      var s := TidySeam(blk, FirstSeam(f, cur, blk, m));
      SeamIsClean(f, cur, blk, m);
      HalvesNormal(blk, s, depth);
    }
  }

  lemma HalvesNormal(blk: Node, s: Seam, depth: nat)
    requires blk.Elem? && Normal(blk, depth) && ValidSeam(blk, s) && CleanSeam(blk, s)
    ensures HeadOf(blk, s).Elem? && Normal(HeadOf(blk, s), depth)
    ensures AllNormal(RestOf(blk, s), depth) && forall n | n in RestOf(blk, s) :: n.Elem?
  {
    hide KidsOk, CleanSeam, AllNormal, ValidName, ValidAttrs, IsVoidTag, TextKid, SkipSeparators;
    HeadKidsOk(blk, s);
    RestKidsOk(blk, s);
    NormalCut(blk.kids, s.m, depth + 1);
    NormalCut(blk.kids, s.m + 1, depth + 1);
    var head := if blk.kids[s.m].Text? then blk.kids[s.m].text[..s.cut] else "";
    TextKidNormal(head, depth + 1);
    NormalAppend(blk.kids[..s.m], TextKid(head), depth + 1);
    if blk.kids[s.m].Text? {
      var t := SkipSeparators(blk.kids[s.m].text[s.cut..]);
      TextKidNormal(t, depth + 1);
      NormalAppend(TextKid(t), blk.kids[s.m + 1..], depth + 1);
    }
    NoneNormal(depth);
    if RestKids(blk, s) != [] { OneNormal(Elem(blk.name, blk.attrs, RestKids(blk, s)), depth); }
  }

  lemma NoneNormal(depth: nat)
    ensures AllNormal([], depth)
  {}

  lemma OneNormal(n: Node, depth: nat)
    requires Normal(n, depth)
    ensures AllNormal([n], depth)
  {
    hide Normal;
    assert [n][1..] == [];
  }

  ghost predicate NormalBlocks(blocks: seq<Node>, depth: nat) {
    AllNormal(blocks, depth) && forall n | n in blocks :: n.Elem?
  }

  ghost predicate NormalPages(pages: seq<seq<Node>>, depth: nat) {
    forall i :: 0 <= i < |pages| ==> NormalBlocks(pages[i], depth)
  }

  lemma BlocksAppend(a: seq<Node>, b: seq<Node>, depth: nat)
    requires NormalBlocks(a, depth) && NormalBlocks(b, depth)
    ensures NormalBlocks(a + b, depth)
  {
    hide AllNormal;
    NormalAppend(a, b, depth);
  }

  lemma OneBlock(n: Node, depth: nat)
    requires n.Elem? && Normal(n, depth)
    ensures NormalBlocks([n], depth)
  {
    hide Normal, AllNormal;
    OneNormal(n, depth);
  }

  lemma FirstBlock(blocks: seq<Node>, depth: nat)
    requires NormalBlocks(blocks, depth) && blocks != []
    ensures blocks[0].Elem? && Normal(blocks[0], depth) && NormalBlocks(blocks[1..], depth)
  {
    hide Normal;
  }

  lemma {:induction false} PackNormal(f: Frame, queue: seq<Node>, cur: seq<Node>, depth: nat)
    requires NormalBlocks(queue, depth) && NormalBlocks(cur, depth)
    ensures NormalPages(Pack(f, queue, cur), depth)
    decreases Weight(queue), |cur|
  {
    hide Fits, SplitToFit, TooSmall, Normal, NormalBlocks;
    NothingNormal(depth);
    if queue != [] {
      var blk := queue[0];
      FirstBlock(queue, depth);
      OneBlock(blk, depth);
      BlocksAppend(cur, [blk], depth);
      if Fits(f, cur + [blk]) {
        PackNormal(f, queue[1..], cur + [blk], depth);
      } else {
        var r := WorthSplit(f, cur, blk);
        if r.Split? {
          SplitNormal(f, cur, blk, depth);
          SplitIsLighter(f, cur, blk);
          WeightPut(r.rest, queue[1..]);
          OneBlock(r.head, depth);
          AreBlocks(r.rest, depth);
          BlocksAppend(cur, [r.head], depth);
          BlocksAppend(r.rest, queue[1..], depth);
          PackNormal(f, r.rest + queue[1..], [], depth);
        } else if cur == [] {
          PackNormal(f, queue[1..], [], depth);
        } else {
          PackNormal(f, queue, [], depth);
        }
      }
    }
  }

  lemma NothingNormal(depth: nat)
    ensures NormalBlocks([], depth)
  {}

  lemma AreBlocks(blocks: seq<Node>, depth: nat)
    requires AllNormal(blocks, depth) && forall n | n in blocks :: n.Elem?
    ensures NormalBlocks(blocks, depth)
  {}

  // ---- The text of a page ----------------------------------------------------------------------

  const XML_INSIDE: string := "?xml version=\"1.0\" encoding=\""
  const XML_OPEN: string := "<" + XML_INSIDE
  const DOCTYPE_NAME: string := "!DOCTYPE wml PUBLIC "
  const DOCTYPE_ID: string := "\"-//WAPFORUM//DTD WML 1.1//EN\" "
  const DOCTYPE_URI: string := "\"http://www.wapforum.org/DTD/wml_1.1.xml\""
  const DOCTYPE: string := DOCTYPE_NAME + (DOCTYPE_ID + DOCTYPE_URI)

  /** The declaration inside its angle brackets. */
  function XmlInside(encoding: string): string { XML_INSIDE + encoding + "\"?" }

  /** Nodes, each on its line. */
  function Lines(ns: seq<Node>): string {
    if ns == [] then "" else Print(ns[0]) + ("\n" + Lines(ns[1..]))
  }

  function CardTag(title: string): seq<Attribute> { [Attribute("id", "p"), Attribute("title", title)] }

  function Inner(nodes: seq<Node>): string { Lines(nodes) + (EndTag("card") + ("\n" + (EndTag("wml") + "\n"))) }

  function Body(title: string, nodes: seq<Node>): string {
    "<" + ("wml" + (PrintAttrs([]) + (">" + ("\n" + ("<" + ("card" + (PrintAttrs(CardTag(title)) + (">" + ("\n" + Inner(nodes))))))))))
  }

  /** The page as wml_paginate prints it. */
  function PageText(encoding: string, title: string, nodes: seq<Node>): string {
    "<" + (XmlInside(encoding) + (">" + ("\n" + ("<" + (DOCTYPE + (">" + ("\n" + Body(title, nodes))))))))
  }

  // ---- Reading it --------------------------------------------------------------------------------

  /** A declaration is skipped. */
  lemma DeclReads(x: string, rest: string, stack: Stack)
    requires |x| >= 2 && (x[0] == '?' || (x[0] == '!' && x[1] != '-')) && '>' !in x
    ensures ParseFrom("<" + (x + (">" + rest)), stack) == ParseFrom(rest, stack)
  {
    hide ParseFrom, Find, FindStr;
    var s := "<" + (x + (">" + rest));
    assert s[0] == '<' && s[1] == x[0] && s[2] == x[1];
    NoComment(s);
    assert forall i :: 1 <= i < |x| + 1 ==> s[i] == x[i - 1] && x[i - 1] in x;
    assert s[|x| + 1] == '>' && s[|x| + 2..] == rest;
    FindFrom1(s, |x| + 1);
    assert ParseStep(s, stack) == Step(|x| + 2, stack);
    Resume(s, |x| + 2, rest, stack, stack);
  }

  lemma NoComment(s: string)
    requires |s| >= 3 && s[0] == '<' && (s[1] == '?' || s[2] != '-')
    ensures !HasAt(s, 0, "<!--")
  {
    if |s| >= 4 { assert s[0..4][1] == s[1] && s[0..4][2] == s[2]; }
  }

  lemma FindFrom1(s: string, at: nat)
    requires 1 <= at < |s| && s[at] == '>' && forall i :: 1 <= i < at ==> s[i] != '>'
    ensures PastAngle(s, 1) == at + 1
  {
    hide Find;
    var e := Find(s, 1, '>');
  }

  /** A line end outside running text is skipped. */
  lemma LineEndReads(rest: string, stack: Stack)
    requires (rest == "" || rest[0] == '<') && LowerAll(Top(stack).name) !in TEXT_PARENTS
    ensures ParseFrom("\n" + rest, stack) == ParseFrom(rest, stack)
  {
    hide ParseFrom, Find, TEXT_PARENTS, LowerAll;
    var s := "\n" + rest;
    assert s[0] == '\n' && (rest != "" ==> s[1] == '<');
    FindIs(s, '<', 1);
    assert s[..1] == "\n" && s[1..] == rest;
    LineEndIsBlank();
    assert ParseStep(s, stack) == Step(1, stack);
    Resume(s, 1, rest, stack, stack);
  }

  lemma LineEndIsBlank()
    ensures MakeText("\n") == ""
  {
    PlainReads('\n', "");
    NothingDecodes();
    assert ['\n'] + "" == "\n";
  }

  lemma NotTextParents()
    ensures LowerAll(ROOT.name) !in TEXT_PARENTS && LowerAll("wml") !in TEXT_PARENTS && LowerAll("card") !in TEXT_PARENTS
  {
    assert LowerAll(ROOT.name)[0] == '#' && LowerAll("wml")[0] == 'w' && LowerAll("card")[0] == 'c';
    assert forall x | x in TEXT_PARENTS :: x[0] != '#' && x[0] != 'w' && x[0] != 'c';
  }

  lemma PrintStarts(n: Node)
    requires n.Elem?
    ensures Print(n) != "" && Print(n)[0] == '<'
  {
    hide PrintAll, PrintAttrs;
  }

  lemma LinesStart(ns: seq<Node>, rest: string)
    requires (forall n | n in ns :: n.Elem?) && rest != "" && rest[0] == '<'
    ensures var s := Lines(ns) + rest; s != "" && s[0] == '<'
  {
    hide Print;
    if ns != [] { PrintStarts(ns[0]); }
  }

  lemma {:induction false} LinesRead(ns: seq<Node>, rest: string, stack: Stack)
    requires NormalBlocks(ns, |stack|) && rest != "" && rest[0] == '<' && LowerAll(Top(stack).name) !in TEXT_PARENTS
    ensures ParseFrom(Lines(ns) + rest, stack) == ParseFrom(rest, AddKids(stack, ns))
    decreases |ns|
  {
    hide ParseFrom, Print, Normal, AllNormal, TEXT_PARENTS, LowerAll;
    if ns == [] {
      assert "" + rest == rest;
      AddNone(stack);
    } else {
      var more := Lines(ns[1..]) + rest;
      FirstBlock(ns, |stack|);
      Assoc(Print(ns[0]), "\n" + Lines(ns[1..]), rest);
      Assoc("\n", Lines(ns[1..]), rest);
      NodeReads(ns[0], "\n" + more, stack);
      LinesStart(ns[1..], rest);
      var after := AddKids(stack, [ns[0]]);
      LineEndReads(more, after);
      LinesRead(ns[1..], rest, after);
      AddTwice(stack, [ns[0]], ns[1..]);
      assert [ns[0]] + ns[1..] == ns;
    }
  }

  lemma CardNames(title: string)
    ensures ValidName("wml") && ValidName("card") && ValidAttrs([]) && ValidAttrs(CardTag(title))
    ensures !IsVoidTag("wml") && !IsVoidTag("card")
  {
    assert ValidName("id") && ValidName("title");
    assert LowerAll("wml")[0] == 'w' && LowerAll("card")[0] == 'c';
  }

  /** An end tag closes the element on top, which goes to its parent. */
  lemma CloseReads(o: Open, rest: string, stack: Stack)
    requires ValidName(o.name)
    ensures var whole: Stack := stack + [o];
            ParseFrom(EndTag(o.name) + rest, whole) == ParseFrom(rest, AddKids(stack, [Elem(o.name, o.attrs, o.kids)]))
  {
    hide ParseFrom, ParseStep, EndTag;
    var whole: Stack := stack + [o];
    EndTagShape(o.name, rest);
    EndTagReads(o.name, rest, whole);
    assert whole[..|whole| - 1] == stack;
    assert (EndTag(o.name) + rest)[|EndTag(o.name)|..] == rest;
    Resume(EndTag(o.name) + rest, |EndTag(o.name)|, rest, whole, AddKids(stack, [Elem(o.name, o.attrs, o.kids)]));
  }

  /** A start tag opens its element. */
  lemma OpenReads(name: string, attrs: seq<Attribute>, rest: string, stack: Stack)
    requires ValidName(name) && ValidAttrs(attrs) && !IsVoidTag(name) && |stack| < STACK_MAX
    ensures ParseFrom("<" + (name + (PrintAttrs(attrs) + (">" + rest))), stack) == ParseFrom(rest, stack + [Open(name, attrs, [])])
  {
    hide ParseFrom, ParseStep, PrintAttrs, ValidName, ValidAttrs, IsVoidTag;
    var s := "<" + (name + (PrintAttrs(attrs) + (">" + rest)));
    OpenStep(name, attrs, rest, stack);
    TagShape(name, PrintAttrs(attrs), rest);
    Resume(s, |s| - |rest|, rest, stack, stack + [Open(name, attrs, [])]);
  }

  lemma OpenStep(name: string, attrs: seq<Attribute>, rest: string, stack: Stack)
    requires ValidName(name) && ValidAttrs(attrs) && !IsVoidTag(name) && |stack| < STACK_MAX
    ensures var s := "<" + (name + (PrintAttrs(attrs) + (">" + rest)));
            s != "" && |rest| <= |s| && ParseStep(s, stack) == Step(|s| - |rest|, stack + [Open(name, attrs, [])])
  {
    hide ParseStep, PrintAttrs, ValidName, ValidAttrs, IsVoidTag, AddKids;
    StartTagReads(name, attrs, ">", rest, stack);
    assert |">"| != |"/>"|;
  }

  lemma TagShape(name: string, attrs: string, rest: string)
    ensures var s := "<" + (name + (attrs + (">" + rest))); s != "" && |rest| <= |s| && s[|s| - |rest|..] == rest
  {}

  /** The tree a browser gets. */
  function PageTree(title: string, nodes: seq<Node>): Node {
    Elem(ROOT.name, [], [Elem("wml", [], [Elem("card", CardTag(title), nodes)])])
  }

  lemma InnerReads(title: string, nodes: seq<Node>, stack: Stack)
    requires NormalBlocks(nodes, 3) && stack == [ROOT, Open("wml", [], []), Open("card", CardTag(title), [])]
    ensures ParseFrom(Inner(nodes), stack) == [ROOT.(kids := [Elem("wml", [], [Elem("card", CardTag(title), nodes)])])]
  {
    hide ParseFrom, NormalBlocks, EndTag, Lines, TEXT_PARENTS, LowerAll, ValidName, ValidAttrs, IsVoidTag;
    CardNames(title);
    NotTextParents();
    var s1 := "\n" + (EndTag("wml") + "\n");
    var card, wml := Elem("card", CardTag(title), nodes), Elem("wml", [], [Elem("card", CardTag(title), nodes)]);
    EndTagStarts("card", s1);
    LinesRead(nodes, EndTag("card") + s1, stack);
    assert [] + nodes == nodes;
    var base: Stack := [ROOT, Open("wml", [], [])];
    assert AddKids(stack, nodes) == base + [Open("card", CardTag(title), nodes)];
    CloseReads(Open("card", CardTag(title), nodes), s1, base);
    assert [] + [card] == [card] && [] + [wml] == [wml];
    assert AddKids(base, [card]) == [ROOT] + [Open("wml", [], [card])];
    EndTagStarts("wml", "\n");
    LineEndReads(EndTag("wml") + "\n", AddKids(base, [card]));
    CloseReads(Open("wml", [], [card]), "\n", [ROOT]);
    assert "\n" + "" == "\n";
    LineEndReads("", AddKids([ROOT], [wml]));
    NothingMore(AddKids([ROOT], [wml]));
  }

  lemma NothingMore(stack: Stack)
    ensures ParseFrom("", stack) == stack
  {}

  lemma EndTagStarts(name: string, rest: string)
    ensures var s := EndTag(name) + rest; s != "" && s[0] == '<'
  {}

  lemma BodyReads(title: string, nodes: seq<Node>)
    requires NormalBlocks(nodes, 3)
    ensures ParseFrom(Body(title, nodes), [ROOT]) == [ROOT.(kids := [Elem("wml", [], [Elem("card", CardTag(title), nodes)])])]
  {
    hide ParseFrom, NormalBlocks, Inner, PrintAttrs, TEXT_PARENTS, LowerAll, ValidName, ValidAttrs, IsVoidTag;
    CardNames(title);
    NotTextParents();
    var root: Stack := [ROOT];
    var wml: Stack := root + [Open("wml", [], [])];
    var card: Stack := wml + [Open("card", CardTag(title), [])];
    var inside := "\n" + Inner(nodes);
    var cardText := "<" + ("card" + (PrintAttrs(CardTag(title)) + (">" + inside)));
    OpenReads("wml", [], "\n" + cardText, root);
    LineEndReads(cardText, wml);
    OpenReads("card", CardTag(title), inside, wml);
    InnerStarts(nodes);
    LineEndReads(Inner(nodes), card);
    assert card == [ROOT, Open("wml", [], []), Open("card", CardTag(title), [])];
    InnerReads(title, nodes, card);
  }

  lemma InnerStarts(nodes: seq<Node>)
    requires NormalBlocks(nodes, 3)
    ensures Inner(nodes) != "" && Inner(nodes)[0] == '<'
  {
    hide Lines, AllNormal;
    EndTagStarts("card", "\n" + (EndTag("wml") + "\n"));
    LinesStart(nodes, EndTag("card") + ("\n" + (EndTag("wml") + "\n")));
  }

  lemma DoctypeSpelled()
    ensures |DOCTYPE| >= 2 && DOCTYPE[0] == '!' && DOCTYPE[1] == 'D' && '>' !in DOCTYPE
  {
    hide DOCTYPE_NAME, DOCTYPE_ID, DOCTYPE_URI;
    NameSpelled();
    IdSpelled();
    UriSpelled();
  }

  lemma NameSpelled()
    ensures |DOCTYPE_NAME| >= 2 && DOCTYPE_NAME[0] == '!' && DOCTYPE_NAME[1] == 'D' && '>' !in DOCTYPE_NAME
  {
    hide DOCTYPE_ID, DOCTYPE_URI;
  }

  lemma IdSpelled()
    ensures '>' !in DOCTYPE_ID
  {
    hide DOCTYPE_NAME, DOCTYPE_URI;
  }

  lemma UriSpelled()
    ensures '>' !in DOCTYPE_URI
  {
    hide DOCTYPE_NAME, DOCTYPE_ID;
  }

  lemma XmlSpelled(encoding: string)
    requires '>' !in encoding
    ensures var x := XmlInside(encoding); |x| >= 2 && x[0] == '?' && '>' !in x
  {
    hide XML_INSIDE;
    InsideSpelled();
  }

  lemma InsideSpelled()
    ensures |XML_INSIDE| >= 2 && XML_INSIDE[0] == '?' && '>' !in XML_INSIDE
  {}

  /** Reading the text of a page gives the deck of its one card. */
  lemma PageReads(encoding: string, title: string, nodes: seq<Node>)
    requires '>' !in encoding && NormalBlocks(nodes, 3)
    ensures Parse(PageText(encoding, title, nodes)) == PageTree(title, nodes)
  {
    hide ParseFrom, NormalBlocks, Body, XmlInside, DOCTYPE, TEXT_PARENTS, LowerAll;
    var root: Stack := [ROOT];
    NotTextParents();
    XmlSpelled(encoding);
    DoctypeSpelled();
    var body := Body(title, nodes);
    var doctype := "<" + (DOCTYPE + (">" + ("\n" + body)));
    DeclReads(XmlInside(encoding), "\n" + doctype, root);
    LineEndReads(doctype, root);
    DeclReads(DOCTYPE, "\n" + body, root);
    BodyStarts(title, nodes);
    LineEndReads(body, root);
    BodyReads(title, nodes);
  }

  lemma BodyStarts(title: string, nodes: seq<Node>)
    ensures Body(title, nodes) != "" && Body(title, nodes)[0] == '<'
  {
    hide Inner, PrintAttrs;
  }

  // ---- How the server prints it --------------------------------------------------------------------

  lemma LinesNext(ns: seq<Node>, i: nat)
    requires i < |ns|
    ensures Lines(ns[i..]) == Print(ns[i]) + ("\n" + Lines(ns[i + 1..]))
  {
    hide Print;
    assert ns[i..][1..] == ns[i + 1..];
  }

  lemma LinesEnd(ns: seq<Node>)
    ensures Lines(ns[|ns|..]) == "" && ns[0..] == ns
  {}

  /** The loops over a page's blocks and links. */
  method PutLines(b: Buf, ns: seq<Node>)
    modifies b
    ensures b.d == old(b.d) + Lines(ns)
  {
    hide Print, Lines;
    LinesEnd(ns);
    for i := 0 to |ns|
      invariant b.d + Lines(ns[i..]) == old(b.d) + Lines(ns)
    {
      LinesNext(ns, i);
      ghost var was := b.d;
      PrintNode(b, ns[i]);
      b.Put("\n");
      Assoc(was, Print(ns[i]), "\n" + Lines(ns[i + 1..]));
      Assoc(was + Print(ns[i]), "\n", Lines(ns[i + 1..]));
    }
    assert b.d + "" == b.d;
  }

  lemma {:induction false} LinesAppend(a: seq<Node>, b: seq<Node>)
    ensures Lines(a + b) == Lines(a) + Lines(b)
  {
    hide Print;
    if a == [] {
      assert a + b == b;
    } else {
      assert (a + b)[0] == a[0] && (a + b)[1..] == a[1..] + b;
      LinesAppend(a[1..], b);
      Assoc(Print(a[0]), "\n" + Lines(a[1..]), Lines(b));
      Assoc("\n", Lines(a[1..]), Lines(b));
    }
  }

  /** wml_paginate's output, once the page is built. */
  method PutPage(b: Buf, encoding: string, title: string, blocks: seq<Node>, nav: seq<Node>)
    modifies b
    ensures b.d == old(b.d) + PageText(encoding, title, blocks + nav)
  {
    hide Print, Lines, DOCTYPE, PrintAttr;
    b.Put(XML_OPEN);
    b.Put(encoding);
    b.Put("\"?>\n<");
    b.Put(DOCTYPE);
    b.Put(">\n<wml>\n<card id=\"p\"");
    PutPrintedAttr(b, Attribute("title", title));
    b.Put(">\n");
    ghost var head := b.d;
    HeadIs(old(b.d), encoding, title, head);
    PutLines(b, blocks);
    PutLines(b, nav);
    b.Put("</card>\n</wml>\n");
    LinesAppend(blocks, nav);
    TailIs(head, blocks, nav, b.d);
    PageIs(old(b.d), encoding, title, blocks + nav, head);
  }

  /** Everything in front of the blocks. */
  function Head(encoding: string, title: string): string {
    XML_OPEN + encoding + "\"?>\n<" + DOCTYPE + ">\n<wml>\n<card id=\"p\"" + PrintAttr(Attribute("title", title)) + ">\n"
  }

  lemma HeadIs(was: string, encoding: string, title: string, head: string)
    requires head == was + XML_OPEN + encoding + "\"?>\n<" + DOCTYPE + ">\n<wml>\n<card id=\"p\"" + PrintAttr(Attribute("title", title)) + ">\n"
    ensures head == was + Head(encoding, title)
  {
    hide PrintAttr, DOCTYPE, XML_OPEN;
    var t := PrintAttr(Attribute("title", title));
    Assoc(was, XML_OPEN, encoding);
    Assoc(was, XML_OPEN + encoding, "\"?>\n<");
    Assoc(was, XML_OPEN + encoding + "\"?>\n<", DOCTYPE);
    Assoc(was, XML_OPEN + encoding + "\"?>\n<" + DOCTYPE, ">\n<wml>\n<card id=\"p\"");
    Assoc(was, XML_OPEN + encoding + "\"?>\n<" + DOCTYPE + ">\n<wml>\n<card id=\"p\"", t);
    Assoc(was, XML_OPEN + encoding + "\"?>\n<" + DOCTYPE + ">\n<wml>\n<card id=\"p\"" + t, ">\n");
  }

  lemma TailIs(head: string, blocks: seq<Node>, nav: seq<Node>, text: string)
    requires text == head + Lines(blocks) + Lines(nav) + "</card>\n</wml>\n" && Lines(blocks + nav) == Lines(blocks) + Lines(nav)
    ensures text == head + Inner(blocks + nav)
  {
    hide Lines;
    Assoc(head, Lines(blocks), Lines(nav));
    Assoc(head, Lines(blocks + nav), "</card>\n</wml>\n");
    assert EndTag("card") + ("\n" + (EndTag("wml") + "\n")) == "</card>\n</wml>\n";
  }

  lemma PageIs(was: string, encoding: string, title: string, nodes: seq<Node>, head: string)
    requires head == was + Head(encoding, title)
    ensures head + Inner(nodes) == was + PageText(encoding, title, nodes)
  {
    hide Inner, Head, PageText;
    Assoc(was, Head(encoding, title), Inner(nodes));
    HeadText(encoding, title, Inner(nodes), nodes);
  }

  lemma HeadText(encoding: string, title: string, rest: string, nodes: seq<Node>)
    requires rest == Inner(nodes)
    ensures Head(encoding, title) + rest == PageText(encoding, title, nodes)
  {
    hide Inner, DOCTYPE, XML_INSIDE;
    var t := PrintAttr(Attribute("title", title));
    TagAttrs(title);
    hide PrintAttr, PrintAttrs;
    JoinShape(("<" + XML_INSIDE) + encoding + "\"?>\n<" + DOCTYPE, t, rest);
    CardShape(t, rest);
    HeadShape(XML_INSIDE, encoding, DOCTYPE, "<wml>\n<card id=\"p\"" + t + ">\n" + rest);
  }

  lemma JoinShape(p: string, t: string, rest: string)
    ensures p + ">\n<wml>\n<card id=\"p\"" + t + ">\n" + rest == p + ">\n" + ("<wml>\n<card id=\"p\"" + t + ">\n" + rest)
  {}

  lemma CardShape(t: string, rest: string)
    ensures "<wml>\n<card id=\"p\"" + t + ">\n" + rest
         == "<" + ("wml" + ("" + (">" + ("\n" + ("<" + ("card" + ((" id=\"p\"" + t) + (">" + ("\n" + rest)))))))))
  {}

  lemma HeadShape(x: string, e: string, d: string, body: string)
    ensures ("<" + x) + e + "\"?>\n<" + d + ">\n" + body
         == "<" + ((x + e + "\"?") + (">" + ("\n" + ("<" + (d + (">" + ("\n" + body)))))))
  {}

  lemma TagAttrs(title: string)
    ensures PrintAttrs([]) == "" && PrintAttrs(CardTag(title)) == " id=\"p\"" + PrintAttr(Attribute("title", title))
  {
    var a, b := Attribute("id", "p"), Attribute("title", title);
    assert WmlPrinter.Escape("p", true) == "p" by {
      assert "p"[1..] == "" && WmlPrinter.Escape("", true) == "" && EscapeChar('p', true) + "" == "p";
    }
    hide WmlPrinter.Escape;
    assert PrintAttr(a) == " id=\"p\"";
    assert CardTag(title)[1..] == [b] && [b][1..] == [];
    assert PrintAttrs([b]) == PrintAttr(b) + PrintAttrs([]);
    assert PrintAttr(b) + "" == PrintAttr(b);
  }

  // ---- From the source ------------------------------------------------------------------------------

  /** How deep elements with children nest in a tree. */
  function Height(n: Node): nat
    decreases n, 1
  {
    if n.Text? || n.kids == [] then 0 else 1 + Highest(n.kids)
  }

  function Highest(ns: seq<Node>): nat
    decreases ns, 0
  {
    if ns == [] then 0
    else if Height(ns[0]) > Highest(ns[1..]) then Height(ns[0]) else Highest(ns[1..])
  }

  /** A normal tree is normal wherever it is not too high. */
  lemma {:induction false} NormalElsewhere(n: Node, d: nat, e: nat)
    requires Normal(n, d) && e + Height(n) <= STACK_MAX
    ensures Normal(n, e)
    decreases n, 1
  {
    hide KidsOk, ValidName, ValidAttrs, IsVoidTag;
    if n.Elem? && n.kids != [] { AllElsewhere(n.kids, d + 1, e + 1); }
  }

  lemma {:induction false} AllElsewhere(ns: seq<Node>, d: nat, e: nat)
    requires AllNormal(ns, d) && e + Highest(ns) <= STACK_MAX
    ensures AllNormal(ns, e)
    decreases ns, 0
  {
    hide Normal, Height;
    if ns != [] {
      NormalElsewhere(ns[0], d, e);
      AllElsewhere(ns[1..], d, e);
    }
  }

  lemma {:induction false} CardNormal(n: Node, d: nat) returns (e: nat)
    requires Normal(n, d)
    ensures forall c | c in FindCard(n) :: Normal(c, e) && Height(c) <= Height(n)
    decreases n, 1
  {
    hide LowerAll, KidsOk, ValidName, ValidAttrs, IsVoidTag;
    e := d;
    if n.Elem? && LowerAll(n.name) != "card" {
      if n.kids != [] { e := CardInNormal(n.kids, d + 1); } else { assert FindCardIn([]) == []; }
    }
  }

  lemma {:induction false} CardInNormal(ns: seq<Node>, d: nat) returns (e: nat)
    requires AllNormal(ns, d)
    ensures forall c | c in FindCardIn(ns) :: Normal(c, e) && Height(c) <= Highest(ns)
    decreases ns, 0
  {
    hide Normal, Height, FindCard;
    e := d;
    if ns != [] {
      if FindCard(ns[0]) != [] { e := CardNormal(ns[0], d); } else { e := CardInNormal(ns[1..], d); }
    }
  }

  lemma {:induction false} ElementsNormal(ns: seq<Node>, depth: nat)
    requires AllNormal(ns, depth)
    ensures NormalBlocks(ElementsOf(ns), depth)
  {
    hide Normal;
    if ns != [] {
      ElementsNormal(ns[1..], depth);
      if ns[0].Elem? {
        OneBlock(ns[0], depth);
        BlocksAppend([ns[0]], ElementsOf(ns[1..]), depth);
      } else {
        assert [] + ElementsOf(ns[1..]) == ElementsOf(ns[1..]);
      }
    }
  }

  /** A source whose tree is tidy and leaves room for the two elements around a page. */
  predicate Printable(root: Node) { root.Elem? && Tidy(root) && Height(root) <= STACK_MAX - 2 }

  lemma BlocksNormal(s: string)
    requires Printable(Parse(s))
    ensures NormalBlocks(BlocksOf(Parse(s)), 3)
  {
    hide Parse, Tidy, Normal, AllNormal, KidsOk, FindCard, ElementsOf, NormalBlocks, LowerAll, Highest;
    var root := Parse(s);
    ParseNormalExactly(s);
    RootIsNoCard(s);
    var e := CardInNormal(root.kids, 1);
    var card := CardOf(root);
    if FindCard(root) == [] {
      HigherThanKids(root);
      AllElsewhere(root.kids, 1, 3);
    } else {
      assert card in FindCard(root);
      HigherThanKids(root);
      HigherThanKids(card);
      KidsNormal(card, e);
      AllElsewhere(card.kids, e + 1, 3);
    }
    ElementsNormal(card.kids, 3);
  }

  lemma RootIsNoCard(s: string)
    ensures var root := Parse(s); root.Elem? && FindCard(root) == FindCardIn(root.kids)
  {
    hide Parse;
    ParseLoose(s);
    assert LowerAll(ROOT.name)[0] == '#';
  }

  lemma HigherThanKids(n: Node)
    requires n.Elem?
    ensures Highest(n.kids) < Height(n) || (Highest(n.kids) == 0 && Height(n) == 0)
  {
    hide Highest;
    if n.kids == [] { NoneHigh(); }
  }

  lemma NoneHigh()
    ensures Highest([]) == 0
  {}

  lemma KidsNormal(n: Node, d: nat)
    requires n.Elem? && Normal(n, d)
    ensures AllNormal(n.kids, d + 1)
  {
    hide KidsOk, ValidName, ValidAttrs, IsVoidTag;
  }

  lemma LinkNormal(words: string, href: string)
    requires NormalText(words)
    ensures NormalBlocks([NavLink(words, href)], 3)
  {
    hide NormalText;
    var a := Elem("a", [Attribute("href", href)], [Text(words)]);
    LinkNames();
    assert [Text(words)][1..] == [];
    assert AllNormal([Text(words)], 5);
    assert KidsOk("a", [Text(words)]) && KidsOk("p", [a]);
    assert Normal(a, 4);
    OneNormal(a, 4);
    OneBlock(NavLink(words, href), 3);
  }

  lemma LinkNames()
    ensures ValidName("a") && ValidName("p") && ValidName("href") && !IsVoidTag("a") && !IsVoidTag("p")
  {
    assert LowerAll("a") == "a" && LowerAll("p") == "p";
  }

  lemma WordsNormal()
    ensures NormalText(PREV) && NormalText(NEXT)
  {
    assert PREV[0] == '<' && NEXT[0] == 'N';
  }

  lemma NavNormal(uri: string, k: nat, n: nat)
    ensures NormalBlocks(NavFor(uri, k, n), 3)
  {
    hide SetPage, NavLink, NormalBlocks, NormalText, PREV, NEXT;
    NothingNormal(3);
    WordsNormal();
    var prev, next := if k > 0 then [NavLink(PREV, SetPage(uri, k - 1, HREF_BUF))] else [],
      if k < n - 1 then [NavLink(NEXT, SetPage(uri, k + 1, HREF_BUF))] else [];
    if k > 0 { LinkNormal(PREV, SetPage(uri, k - 1, HREF_BUF)); }
    if k < n - 1 { LinkNormal(NEXT, SetPage(uri, k + 1, HREF_BUF)); }
    BlocksAppend(prev, next, 3);
  }

  lemma PagesNormal(title: string, blocks: seq<Node>, uri: string, base: string, pageBytes: nat)
    requires NormalBlocks(blocks, 3)
    ensures NormalPages(PagesFor(title, blocks, uri, base, pageBytes), 3)
  {
    hide FitsWhole, FrameFor, Pack, NormalBlocks;
    NothingNormal(3);
    PackNormal(FrameFor(title, uri, base, pageBytes), blocks, [], 3);
  }

  /** For every source whose tree is tidy and not too deep, every address, page and
      packet size: a browser that reads the text sent for the page gets one card with
      the page's title, blocks and links. */
  lemma HttpPageReads(src: string, uri: string, page: int, pageBytes: nat, encoding: string)
    requires Printable(Parse(src)) && '>' !in encoding
    ensures var pg := Build(Parse(src), uri, false, page, pageBytes);
            Parse(PageText(encoding, pg.title, pg.pages[pg.page] + pg.nav)) == PageTree(pg.title, pg.pages[pg.page] + pg.nav)
  {
    hide Parse, Printable, PagesFor, BlocksOf, BaseTitle, TitleFor, NavFor, NormalBlocks, PageText;
    IsElement(Parse(src));
    var root := Parse(src);
    var pg := Build(root, uri, false, page, pageBytes);
    BlocksNormal(src);
    PagesNormal(BaseTitle(root), BlocksOf(root), uri, "", pageBytes);
    NavNormal(uri, pg.page, |pg.pages|);
    BlocksAppend(pg.pages[pg.page], pg.nav, 3);
    PageReads(encoding, pg.title, pg.pages[pg.page] + pg.nav);
  }

  lemma IsElement(root: Node)
    requires Printable(root)
    ensures root.Elem?
  {}
}
