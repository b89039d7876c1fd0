/** From the source text to the packet: every page that the gateway sends for a
    NUL-free deck decodes to its title, blocks and links, and the pages together
    show the card. */
module Sending {
  import opened Ascii
  import opened Wbxml
  import opened WmlParser
  import opened SeamText
  import opened Paginator
  import opened PageNav
  import opened Deck
  import opened PageBound
  import opened Conservation

  // ---- Reading makes clean trees -----------------------------------------------------------

  lemma Utf8NulFree(cp: nat)
    requires 0 < cp <= 0x10FFFF
    ensures NulFree(Utf8(cp))
  {}

  lemma EntityNulFree(name: string)
    ensures NulFree(EntityText(name))
  {
    hide Utf8, Strtoul;
    Utf8NulFree(0xA0);
    if |name| > 1 && name[0] == '#' {
      var cp := if name[1] == 'x' || name[1] == 'X' then Strtoul(name[2..], 16) else Strtoul(name[1..], 10);
      if 0 < cp <= 0x10FFFF { Utf8NulFree(cp); }
    }
  }

  lemma {:induction false} DecodeNulFree(s: string)
    requires NulFree(s)
    ensures NulFree(DecodeEntities(s))
    decreases |s|
  {
    hide EntityText, EntityEnd;
    if s != "" {
      if KnownEntity(s) {
        EntityNulFree(s[1..EntityEnd(s)]);
        DecodeNulFree(s[EntityEnd(s) + 1..]);
      } else {
        DecodeNulFree(s[1..]);
      }
    }
  }

  lemma {:induction false} CollapseNulFree(s: string, space: bool)
    requires NulFree(s)
    ensures NulFree(Collapse(s, space))
    decreases |s|
  {
    if s != "" { CollapseNulFree(s[1..], IsBlank(s[0])); }
  }

  lemma TextNulFree(s: string)
    requires NulFree(s)
    ensures NulFree(MakeText(s))
  {
    hide DecodeEntities, Collapse;
    DecodeNulFree(s);
    CollapseNulFree(DecodeEntities(s), false);
  }

  lemma RestNulFree(name: string, s: string)
    requires NulFree(name) && NulFree(s)
    ensures NulFree(ReadRest(name, s).text)
  {
    hide DecodeEntities, SpaceLen, BareLen, Find;
    var sp := SpaceLen(s);
    if sp < |s| && s[sp] == '=' {
      var after := s[sp + 1..];
      var v := after[SpaceLen(after)..];
      if v != "" && (v[0] == '"' || v[0] == '\'') {
        DecodeNulFree(v[1..Find(v, 1, v[0])]);
      } else {
        DecodeNulFree(v[..BareLen(v)]);
      }
    }
  }

  lemma SliceNulFree(s: string, i: nat, j: nat)
    requires i <= j <= |s| && NulFree(s)
    ensures NulFree(s[i..j]) && (j == |s| ==> s[i..j] == s[i..])
  {}

  lemma ConsClean(a: Attribute, attrs: seq<Attribute>)
    requires NulFree(a.value) && CleanAttrs(attrs)
    ensures CleanAttrs([a] + attrs)
  {
    hide NulFree;
  }

  lemma {:induction false} ScanClean(s: string)
    requires NulFree(s)
    ensures CleanAttrs(ScanAttrs(s).attrs)
    decreases |s|
  {
    hide NameLen, ReadRest, NulFree, ScanAttrs, CleanAttrs;
    if s == "" || s[0] == '>' {
      NoAttrs(s);
    } else {
      assert s[0..] == s;
      var k := NameLen(s);
      if k == 0 {
        SliceNulFree(s, 1, |s|);
        ScanClean(s[1..]);
        SkipNext(s, 0);
      } else {
        var name := ShortName(s[..k]);
        SliceNulFree(s, 0, |name|);
        SliceNulFree(s, k, |s|);
        assert name == s[0..|name|];
        var v := ReadRest(name, s[k..]);
        RestNulFree(name, s[k..]);
        SliceNulFree(s, k + v.used, |s|);
        ScanClean(s[k + v.used..]);
        AttrNext(s, 0, k, name, v);
        ConsClean(Attribute(name, v.text), ScanAttrs(s[k + v.used..]).attrs);
      }
    }
  }

  lemma NoAttrs(s: string)
    requires s == "" || s[0] == '>'
    ensures CleanAttrs(ScanAttrs(s).attrs)
  {}

  // ---- The open elements stay clean ---------------------------------------------------------

  ghost predicate CleanOpen(o: Open) { CleanAttrs(o.attrs) && CleanAll(o.kids) }

  ghost predicate CleanStack(stack: seq<Open>) { forall i :: 0 <= i < |stack| ==> CleanOpen(stack[i]) }

  lemma OneClean(n: Node)
    requires Clean(n)
    ensures CleanAll([n])
  {
    assert [n][1..] == [];
  }

  lemma AddClean(stack: Stack, kids: seq<Node>)
    requires CleanStack(stack) && CleanAll(kids)
    ensures CleanStack(AddKids(stack, kids))
  {
    hide CleanAttrs, CleanAll;
    assert CleanOpen(Top(stack));
    CleanAppend(Top(stack).kids, kids);
  }

  lemma {:induction false} CloseClean(stack: Stack, depth: nat)
    requires depth >= 1 && CleanStack(stack)
    ensures CleanStack(CloseTo(stack, depth))
    decreases |stack|
  {
    hide CleanAttrs, AddKids;
    if |stack| > depth {
      var top := Top(stack);
      assert CleanOpen(top);
      var n := Elem(top.name, top.attrs, top.kids);
      OneClean(n);
      hide CleanOpen;
      AddClean(stack[..|stack| - 1], [n]);
      CloseClean(AddKids(stack[..|stack| - 1], [n]), depth);
    }
  }

  lemma StepClean(s: string, stack: Stack)
    requires s != "" && NulFree(s) && CleanStack(stack)
    ensures CleanStack(ParseStep(s, stack).stack)
  {
    hide AddKids, CloseTo, MakeText, ScanAttrs, Matching, NameLen, PastAngle, FindStr, Find, CleanAll, CleanOpen, CleanAttrs;
    if s[0] != '<' {
      var t := MakeText(s[..Find(s, 0, '<')]);
      TextNulFree(s[..Find(s, 0, '<')]);
      OneClean(Text(t));
      OneClean(Text(" "));
      AddClean(stack, [Text(t)]);
      AddClean(stack, [Text(" ")]);
    } else if At(s, 1) == '/' {
      var k := NameLen(s[2..]);
      var d := Matching(stack, ShortName(s[2..2 + k]), |stack| - 1);
      if d > 0 { CloseClean(stack, d); }
    } else {
      var k := NameLen(s[1..]);
      if k > 0 {
        var attrs := ScanAttrs(s[1 + k..]).attrs;
        ScanClean(s[1 + k..]);
        NewClean(ShortName(s[1..1 + k]), attrs);
        AddClean(stack, [Elem(ShortName(s[1..1 + k]), attrs, [])]);
      }
    }
  }

  lemma NewClean(name: string, attrs: seq<Attribute>)
    requires CleanAttrs(attrs)
    ensures CleanOpen(Open(name, attrs, [])) && CleanAll([Elem(name, attrs, [])])
  {
    OneClean(Elem(name, attrs, []));
  }

  lemma {:induction false} ParseFromClean(s: string, stack: Stack)
    requires NulFree(s) && CleanStack(stack)
    ensures CleanStack(ParseFrom(s, stack))
    decreases |s|
  {
    hide ParseStep, CleanStack;
    if s != "" {
      var st := ParseStep(s, stack);
      StepClean(s, stack);
      ParseFromClean(s[st.used..], st.stack);
    }
  }

  /** Every NUL-free text is read as a clean tree. */
  lemma ParseClean(s: string)
    requires NulFree(s)
    ensures Clean(Parse(s)) && Parse(s).Elem?
  {
    hide ParseFrom, CloseTo;
    assert CleanStack([ROOT]);
    ParseFromClean(s, [ROOT]);
    CloseClean(ParseFrom(s, [ROOT]), 1);
    assert CleanOpen(CloseTo(ParseFrom(s, [ROOT]), 1)[0]);
  }

  // ---- Cutting keeps them clean ---------------------------------------------------------------

  lemma {:induction false} CleanSlices(a: seq<Node>, b: seq<Node>)
    requires CleanAll(a + b)
    ensures CleanAll(a) && CleanAll(b)
    decreases |a|
  {
    if a == [] {
      assert a + b == b;
    } else {
      assert (a + b)[0] == a[0] && (a + b)[1..] == a[1..] + b;
      CleanSlices(a[1..], b);
    }
  }

  lemma CleanCut(ns: seq<Node>, i: nat)
    requires i <= |ns| && CleanAll(ns)
    ensures CleanAll(ns[..i]) && CleanAll(ns[i..])
  {
    assert ns[..i] + ns[i..] == ns;
    CleanSlices(ns[..i], ns[i..]);
  }

  lemma CleanAt(ns: seq<Node>, i: nat)
    requires i < |ns| && CleanAll(ns)
    ensures Clean(ns[i])
  {
    CleanCut(ns, i);
    assert ns[i..][0] == ns[i];
  }

  lemma TextKidClean(t: string)
    requires NulFree(t)
    ensures CleanAll(TextKid(t))
  {
    if t != "" { OneClean(Text(t)); }
  }

  lemma SkipNulFree(t: string)
    requires NulFree(t)
    ensures NulFree(SkipSeparators(t))
  {
    hide SkipSeparators;
    FreeIs(t);
    SkipAddsNothing(t, NUL);
    FreeIs(SkipSeparators(t));
  }

  lemma NoneClean()
    ensures CleanAll([])
  {}

  /** Both halves of a cut block are clean. */
  lemma SeamClean(blk: Node, s: Seam)
    requires ValidSeam(blk, s) && Clean(blk)
    ensures Clean(HeadOf(blk, s)) && CleanAll(RestOf(blk, s))
  {
    hide SkipSeparators, TextKid, CleanAttrs;
    CleanCut(blk.kids, s.m);
    CleanCut(blk.kids, s.m + 1);
    CleanAt(blk.kids, s.m);
    var edge := blk.kids[s.m];
    if edge.Text? {
      TextKidClean(edge.text[..s.cut]);
      SkipNulFree(edge.text[s.cut..]);
      TextKidClean(SkipSeparators(edge.text[s.cut..]));
      CleanAppend(blk.kids[..s.m], TextKid(edge.text[..s.cut]));
      CleanAppend(TextKid(SkipSeparators(edge.text[s.cut..])), blk.kids[s.m + 1..]);
    } else {
      TextKidClean("");
      CleanAppend(blk.kids[..s.m], TextKid(""));
    }
    if RestOf(blk, s) != [] { OneClean(RestOf(blk, s)[0]); }
  }

  lemma SplitClean(f: Frame, cur: seq<Node>, blk: Node)
    requires Clean(blk)
    ensures var r := SplitToFit(f, cur, blk); r.Split? ==> Clean(r.head) && CleanAll(r.rest)
  {
    hide HeadOf, RestOf, TidySeam, FirstSeam, LargestFit, Clean, CleanAll, BetweenWords;
    var r := SplitToFit(f, cur, blk);
    if r.Split? { SeamClean(blk, TidySeam(blk, FirstSeam(f, cur, blk, LargestFit(f, cur, blk, 0)))); }
  }

  ghost predicate CleanPages(pages: seq<seq<Node>>) { forall i :: 0 <= i < |pages| ==> CleanAll(pages[i]) }

  lemma {:induction false} PackClean(f: Frame, queue: seq<Node>, cur: seq<Node>)
    requires CleanAll(queue) && CleanAll(cur)
    ensures CleanPages(Pack(f, queue, cur))
    decreases Weight(queue), |cur|
  {
    hide Fits, SplitToFit, TooSmall, Clean, CleanAll;
    NoneClean();
    if queue != [] {
      var blk := queue[0];
      CleanAt(queue, 0);
      CleanCut(queue, 1);
      OneClean(blk);
      CleanAppend(cur, [blk]);
      if Fits(f, cur + [blk]) {
        PackClean(f, queue[1..], cur + [blk]);
      } else {
        var r := WorthSplit(f, cur, blk);
        if r.Split? {
          SplitClean(f, cur, blk);
          SplitIsLighter(f, cur, blk);
          WeightPut(r.rest, queue[1..]);
          OneClean(r.head);
          CleanAppend(cur, [r.head]);
          CleanAppend(r.rest, queue[1..]);
          PackClean(f, r.rest + queue[1..], []);
        } else if cur == [] {
          assert [] + [blk] == [blk];
          PackClean(f, queue[1..], []);
        } else {
          PackClean(f, queue, []);
        }
      }
    }
  }

  // ---- The card, its title and its links ----------------------------------------------------------

  lemma {:induction false} CardClean(n: Node)
    requires Clean(n)
    ensures CleanAll(FindCard(n))
    decreases n, 1
  {
    hide LowerAll;
    if n.Elem? {
      if LowerAll(n.name) == "card" { OneClean(n); } else { CardInClean(n.kids); }
    }
  }

  lemma {:induction false} CardInClean(ns: seq<Node>)
    requires CleanAll(ns)
    ensures CleanAll(FindCardIn(ns))
    decreases ns, 0
  {
    if ns != [] {
      CardClean(ns[0]);
      CardInClean(ns[1..]);
    }
  }

  lemma {:induction false} AttrNulFree(attrs: seq<Attribute>, name: string)
    requires CleanAttrs(attrs)
    ensures NulFree(AttrOf(attrs, name))
  {
    hide SameFold;
    if attrs != [] { AttrNulFree(attrs[1..], name); }
  }

  lemma {:induction false} ElementsClean(ns: seq<Node>)
    requires CleanAll(ns)
    ensures CleanAll(ElementsOf(ns))
  {
    if ns != [] {
      ElementsClean(ns[1..]);
      if ns[0].Elem? {
        OneClean(ns[0]);
        CleanAppend([ns[0]], ElementsOf(ns[1..]));
      } else {
        assert [] + ElementsOf(ns[1..]) == ElementsOf(ns[1..]);
      }
    }
  }

  lemma DeckClean(root: Node)
    requires root.Elem? && Clean(root)
    ensures CleanAll(BlocksOf(root)) && NulFree(BaseTitle(root))
  {
    hide FindCard, ElementsOf, AttrOf, ShortTitle;
    CardClean(root);
    var card := CardOf(root);
    assert Clean(card);
    ElementsClean(card.kids);
    AttrNulFree(card.attrs, "title");
    PrefixNulFree(ShortTitle(AttrOf(card.attrs, "title")), AttrOf(card.attrs, "title"));
  }

  lemma PrefixNulFree(a: string, b: string)
    requires a <= b && NulFree(b)
    ensures NulFree(a)
  {}

  lemma TitleNulFree(title: string, k: nat, n: nat)
    requires NulFree(title)
    ensures NulFree(TitleFor(title, k, n))
  {
    hide Decimal;
    DigitsNulFree(Decimal(k + 1));
    DigitsNulFree(Decimal(n));
  }

  lemma DigitsNulFree(ds: string)
    requires forall i :: 0 <= i < |ds| ==> IsDigit(ds[i])
    ensures NulFree(ds)
  {}

  lemma FreeIs(s: string)
    ensures NulFree(s) <==> NUL !in s
  {}

  lemma StrippedNulFree(u: string)
    requires NulFree(u)
    ensures NulFree(Stripped(u))
  {
    hide ParamAt, DigitsEnd, Spliced, Truncated, Find;
    var t := Truncated(u, URI_BUF);
    CutShort(u, URI_BUF);
    PrefixNulFree(t, u);
    var v := NoFragment(t);
    PrefixNulFree(v, t);
    FreeIs(v);
    var p := ParamAt(v, 0);
    if p < |v| {
      ParamRoom(v, p);
      var end := DigitsEnd(v, p + |PARAM|);
      SplicedFrom(v, p, end, NUL);
      FreeIs(Spliced(v, p, end));
    }
  }

  lemma CutShort(s: string, size: nat)
    ensures Truncated(s, size) <= s
  {}

  lemma PageNulFree(u: string, k: nat, size: nat)
    requires NulFree(u)
    ensures NulFree(SetPage(u, k, size))
  {
    hide Stripped, Decimal, Truncated;
    StrippedNulFree(u);
    DigitsNulFree(Decimal(k));
    CutShort(WithPage(Stripped(u), k), size);
    PrefixNulFree(SetPage(u, k, size), WithPage(Stripped(u), k));
  }

  lemma LinkClean(words: string, href: string)
    requires NulFree(words) && NulFree(href)
    ensures CleanAll([NavLink(words, href)])
  {
    OneClean(Text(words));
    var a := Elem("a", [Attribute("href", href)], [Text(words)]);
    OneClean(a);
    OneClean(NavLink(words, href));
  }

  lemma NavClean(uri: string, k: nat, n: nat)
    requires NulFree(uri)
    ensures CleanAll(NavFor(uri, k, n))
  {
    hide SetPage, NavLink, CleanAll;
    NoneClean();
    var prev, next := if k > 0 then [NavLink(PREV, SetPage(uri, k - 1, HREF_BUF))] else [],
      if k < n - 1 then [NavLink(NEXT, SetPage(uri, k + 1, HREF_BUF))] else [];
    if k > 0 {
      PageNulFree(uri, k - 1, HREF_BUF);
      LinkClean(PREV, SetPage(uri, k - 1, HREF_BUF));
    }
    if k < n - 1 {
      PageNulFree(uri, k + 1, HREF_BUF);
      LinkClean(NEXT, SetPage(uri, k + 1, HREF_BUF));
    }
    CleanAppend(prev, next);
  }

  lemma BaseNulFree(uri: string)
    requires NulFree(uri)
    ensures NulFree(UriBase(uri))
  {
    hide PathAt, FindStr, Truncated;
    if IsAbsolute(uri) {
      CutShort(uri[..PathAt(uri)], BASE_BUF);
      PrefixNulFree(UriBase(uri), uri[..PathAt(uri)]);
    }
  }

  lemma PagesClean(title: string, blocks: seq<Node>, uri: string, base: string, pageBytes: nat)
    requires CleanAll(blocks)
    ensures CleanPages(PagesFor(title, blocks, uri, base, pageBytes))
  {
    hide FitsWhole, FrameFor, Pack, CleanAll;
    NoneClean();
    PackClean(FrameFor(title, uri, base, pageBytes), blocks, []);
  }

  /** For every NUL-free source and address: whichever page is asked for, the bytes
      sent decode to that page's title, blocks and links, with nothing left over,
      and all the pages together show what the card shows. */
  lemma PageSentDecodes(src: string, uri: string, page: int, pageBytes: nat)
    requires NulFree(src) && NulFree(uri)
    ensures Parse(src).Elem?
    ensures var root := Parse(src);
            var pg := Build(root, uri, true, page, pageBytes);
            && DecodeDeck(CompilePage(root, uri, page, pageBytes))
               == Parsed(CardMeaning(pg.title, pg.pages[pg.page], pg.nav, pg.base), "")
            && Conserves(BlocksOf(root), pg.pages)
            && Kept(AllItems(Flatten(pg.pages))) == Kept(AllItems(BlocksOf(root)))
  {
    hide Parse, DecodeDeck, CompileCard, CardMeaning, PagesFor, BlocksOf, BaseTitle, UriBase, TitleFor, NavFor,
      Conserves, Kept, AllItems, Flatten, CleanAll, Clean;
    var root := Parse(src);
    ParseClean(src);
    DeckClean(root);
    var pg := Build(root, uri, true, page, pageBytes);
    DeckConserves(root, uri, true, page, pageBytes);
    PagesClean(BaseTitle(root), BlocksOf(root), uri, UriBase(uri), pageBytes);
    TitleNulFree(BaseTitle(root), pg.page, |pg.pages|);
    NavClean(uri, pg.page, |pg.pages|);
    BaseNulFree(uri);
    CardDecodes(pg.title, pg.pages[pg.page], pg.nav, pg.base);
  }
}
