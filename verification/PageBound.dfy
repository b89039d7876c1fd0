/** Every page the gateway sends fits the packet it was cut for. */
module PageBound {
  import opened Ascii
  import opened WmlString
  import opened WmlTokens
  import opened Wbxml
  import opened SeamText
  import opened Paginator
  import opened PageNav
  import opened Measure
  import opened Deck

  // ---- Packed pages are within the limit --------------------------------------------------

  /** The block's own text children have no variable references. */
  predicate PlainKids(blk: Node) {
    blk.Elem? ==> forall i :: 0 <= i < |blk.kids| && blk.kids[i].Text? ==> '$' !in blk.kids[i].text
  }

  predicate PlainBlocks(blocks: seq<Node>) { forall i :: 0 <= i < |blocks| ==> PlainKids(blocks[i]) }

  /** The first word of text child m still fits on a page with the children before it. */
  predicate FirstWordFits(f: Frame, blk: Node, m: nat)
    requires blk.Elem? && m < |blk.kids| && blk.kids[m].Text?
  {
    var cuts := WordCuts(blk.kids[m].text);
    cuts != [] && CutFits(f, [], blk, m, cuts[0])
  }

  /** Nothing of child m fits behind the children before it. */
  predicate NothingFits(f: Frame, blk: Node, m: nat)
    requires blk.Elem? && m < |blk.kids|
  {
    !Fits(f, [PrefixOf(blk, m + 1, "")]) && (blk.kids[m].Text? ==> !FirstWordFits(f, blk, m))
  }

  /** The first child is a text in which no word can end a line. */
  predicate OpensDangling(blk: Node)
    requires blk.Elem? && blk.kids != []
  {
    blk.kids[0].Text? && blk.kids[0].text != "" && TrimTail(blk.kids[0].text, |blk.kids[0].text|) == 0
  }

  /** A block for which there is no cut: a text or an empty element; nothing of its
      first child fits a page; or its first child fits but is only separators and
      opening brackets, and nothing of the second fits beside it. */
  predicate NoCut(f: Frame, blk: Node) {
    || blk.Text? || blk.kids == []
    || NothingFits(f, blk, 0)
    || (Fits(f, [PrefixOf(blk, 1, "")]) && OpensDangling(blk) && |blk.kids| > 1 && NothingFits(f, blk, 1))
  }

  /** A block that does not fit a page of its own and has no cut. */
  predicate Oversized(f: Frame, blk: Node) { !Fits(f, [blk]) && NoCut(f, blk) }

  predicate PageOk(f: Frame, page: seq<Node>) { Fits(f, page) || (|page| == 1 && Oversized(f, page[0])) }

  lemma LastBlock(cur: seq<Node>, n: Node, base: string)
    ensures CompileAll(cur + [n], base) == CompileAll(cur, base) + Compile(n, base)
  {
    hide Compile, CompileAll;
    CompileAllAppend(cur, [n], base);
    OneCompiled(n, base);
  }

  lemma SmallerPage(f: Frame, a: seq<Node>, b: seq<Node>)
    requires |CompileAll(a, f.base)| <= |CompileAll(b, f.base)| && |CompileAll(b, f.base)| >= 3
    requires Fits(f, b)
    ensures Fits(f, a)
  {
    hide CompileCard, CompileAll, Encode;
    CardLength(f.title, a, [], f.base);
    CardLength(f.title, b, [], f.base);
    NoNodes(f.base);
    FillerLength();
    assert CompileAll(a, f.base) + "" == CompileAll(a, f.base);
    assert CompileAll(b, f.base) + "" == CompileAll(b, f.base);
  }

  lemma NoNodes(base: string)
    ensures CompileAll([], base) == ""
  {}

  /** Fewer bytes of children, fewer bytes of block. */
  lemma SmallerBlock(name: string, attrs: seq<Attribute>, a: seq<Node>, b: seq<Node>, base: string)
    requires |CompileAll(a, base)| <= |CompileAll(b, base)|
    ensures |Compile(Elem(name, attrs, a), base)| <= |Compile(Elem(name, attrs, b), base)|
    ensures |CompileAll(b, base)| <= |Compile(Elem(name, attrs, b), base)|
  {
    hide ElementCode, AttrsBytes, CompileAll;
    var code := ElementCode(LowerAll(name));
    if code >= 0 {
      ElementShorter(code, AttrsBytes(attrs, base), CompileAll(a, base), AttrsBytes(attrs, base), CompileAll(b, base));
    }
  }

  lemma ShorterText(t: string, keep: nat, base: string)
    requires '$' !in t && keep < |t|
    ensures |CompileAll(TextKid(t[..keep]), base)| <= |CompileAll([Text(t)], base)|
    ensures |CompileAll([Text(t)], base)| >= 3
  {
    hide Encode;
    OneCompiled(Text(t), base);
    PlainLength(t);
    if t[..keep] != "" {
      OneCompiled(Text(t[..keep]), base);
      PlainLength(t[..keep]);
    }
  }

  /** Backing the seam up into a text child keeps the head within what was measured. */
  lemma TidyFits(f: Frame, cur: seq<Node>, blk: Node, m: nat, keep: nat)
    requires blk.Elem? && 0 < m <= |blk.kids| && blk.kids[m - 1].Text?
    requires '$' !in blk.kids[m - 1].text && keep < |blk.kids[m - 1].text|
    requires Fits(f, cur + [PrefixOf(blk, m, "")])
    ensures Fits(f, cur + [PrefixOf(blk, m - 1, blk.kids[m - 1].text[..keep])])
  {
    hide Fits, Compile, CompileAll, TextKid;
    var t := blk.kids[m - 1].text;
    var a, b := PrefixOf(blk, m - 1, t[..keep]), PrefixOf(blk, m, "");
    assert TextKid("") == [] by { NoText(); }
    assert b.kids == blk.kids[..m - 1] + [Text(t)];
    ShorterText(t, keep, f.base);
    CompileAllAppend(blk.kids[..m - 1], [Text(t)], f.base);
    CompileAllAppend(blk.kids[..m - 1], TextKid(t[..keep]), f.base);
    SmallerBlock(blk.name, blk.attrs, a.kids, b.kids, f.base);
    LastBlock(cur, a, f.base);
    LastBlock(cur, b, f.base);
    SmallerPage(f, cur + [a], cur + [b]);
  }

  lemma NoText()
    ensures TextKid("") == []
  {}

  lemma SeamFits(f: Frame, cur: seq<Node>, blk: Node, m: nat)
    requires PlainKids(blk) && blk.Elem? && m < |blk.kids| && m == LargestFit(f, cur, blk, 0)
    ensures var s := TidySeam(blk, FirstSeam(f, cur, blk, m));
            s != Seam(0, 0) ==> Fits(f, cur + [HeadOf(blk, s)])
  {
    hide Fits, TextCut, TrimTail, LargestFit, BetweenWords, MostWords;
    var s0 := FirstSeam(f, cur, blk, m);
    var s := TidySeam(blk, s0);
    if s0.cut > 0 {
      TextCutFits(f, cur, blk, m);
    } else if m > 0 {
      if s != s0 {
        TidyFits(f, cur, blk, m, s.cut);
      } else {
        assert blk.kids[m].Text? ==> blk.kids[m].text[..0] == "";
      }
    }
  }

  lemma SplitFits(f: Frame, cur: seq<Node>, blk: Node)
    requires PlainKids(blk)
    ensures var r := SplitToFit(f, cur, blk); r.Split? ==> Fits(f, cur + [r.head])
  {
    hide Fits, TidySeam, FirstSeam, HeadOf, RestOf, LargestFit, PlainKids;
    if blk.Elem? && blk.kids != [] {
      var m := LargestFit(f, cur, blk, 0);
      if m < |blk.kids| { SeamFits(f, cur, blk, m); }
    }
  }

  lemma {:induction false} SkipAddsNothing(t: string, c: char)
    requires c !in t
    ensures c !in SkipSeparators(t)
    decreases |t|
  {
    var u := SkipSpaces(t);
    SpacesAddNothing(t, c);
    var n := Find(u, 0, ' ');
    if !(n == 0 || HasAlnum(u[..n]) || !IsSeparator(u[..n])) { SkipAddsNothing(u[n..], c); }
  }

  lemma {:induction false} SpacesAddNothing(t: string, c: char)
    requires c !in t
    ensures c !in SkipSpaces(t)
  {
    if t != "" && t[0] == ' ' { SpacesAddNothing(t[1..], c); }
  }

  lemma RestPlain(blk: Node, s: Seam)
    requires PlainKids(blk) && ValidSeam(blk, s)
    ensures PlainBlocks(RestOf(blk, s))
  {
    hide SkipSeparators;
    if blk.kids[s.m].Text? { SkipAddsNothing(blk.kids[s.m].text[s.cut..], '$'); }
  }

  lemma SplitPlain(f: Frame, cur: seq<Node>, blk: Node)
    requires PlainKids(blk)
    ensures var r := SplitToFit(f, cur, blk); r.Split? ==> PlainBlocks(r.rest)
  {
    hide Fits, TidySeam, FirstSeam, HeadOf, RestOf, LargestFit, PlainKids, PlainBlocks;
    if blk.Elem? && blk.kids != [] {
      var m := LargestFit(f, cur, blk, 0);
      if m < |blk.kids| { RestPlain(blk, TidySeam(blk, FirstSeam(f, cur, blk, m))); }
    }
  }

  predicate PagesOk(f: Frame, pages: seq<seq<Node>>) { forall k :: 0 <= k < |pages| ==> PageOk(f, pages[k]) }

  lemma ConsOk(f: Frame, page: seq<Node>, pages: seq<seq<Node>>)
    requires PageOk(f, page) && PagesOk(f, pages)
    ensures PagesOk(f, [page] + pages)
  {
    hide PageOk;
  }

  /** Every page is within the limit, or holds one block that cannot be split. */
  lemma {:induction false} PackFits(f: Frame, queue: seq<Node>, cur: seq<Node>)
    requires PlainBlocks(queue) && (cur == [] || Fits(f, cur))
    ensures PagesOk(f, Pack(f, queue, cur))
    decreases Weight(queue), |cur|
  {
    hide Fits, SplitToFit, TooSmall, PlainKids;
    if queue != [] {
      var blk := queue[0];
      if Fits(f, cur + [blk]) {
        PackFits(f, queue[1..], cur + [blk]);
      } else {
        var r := WorthSplit(f, cur, blk);
        if r.Split? {
          SplitFits(f, cur, blk);
          SplitPlain(f, cur, blk);
          SplitIsLighter(f, cur, blk);
          WeightPut(r.rest, queue[1..]);
          PackFits(f, r.rest + queue[1..], []);
          ConsOk(f, cur + [r.head], Pack(f, r.rest + queue[1..], []));
        } else if cur == [] {
          LonePage(f, blk);
          PackFits(f, queue[1..], []);
          ConsOk(f, [blk], Pack(f, queue[1..], []));
        } else {
          PackFits(f, queue, []);
          ConsOk(f, cur, Pack(f, queue, []));
        }
      }
    }
  }

  lemma LonePage(f: Frame, blk: Node)
    requires PlainKids(blk) && !Fits(f, [] + [blk]) && WorthSplit(f, [], blk).NoSplit?
    ensures PageOk(f, [blk])
  {
    hide Fits, SplitToFit, NoCut, PlainKids;
    assert [] + [blk] == [blk];
    RefusedExactly(f, blk);
  }

  // ---- When a block is refused -------------------------------------------------------------------

  lemma {:induction false} CutsIncrease(t: string, i: nat, max: nat, k: nat)
    requires 1 <= i && k < |CutsFrom(t, i, max)|
    ensures i <= CutsFrom(t, i, max)[0] <= CutsFrom(t, i, max)[k]
    decreases |t| + 1 - i
  {
    hide EndsWord;
    if EndsWord(t, i) {
      if k > 0 { CutsIncrease(t, i + 1, max - 1, k - 1); }
    } else {
      CutsIncrease(t, i + 1, max, k);
    }
  }

  /** Fewer words fit where more do. */
  lemma FewerWordsFit(f: Frame, cur: seq<Node>, blk: Node, m: nat, a: nat, b: nat)
    requires blk.Elem? && m < |blk.kids| && blk.kids[m].Text? && '$' !in blk.kids[m].text
    requires a <= b && 0 < b && CutFits(f, cur, blk, m, b)
    ensures CutFits(f, cur, blk, m, a)
  {
    hide Fits;
    if a < b {
      var t := blk.kids[m].text[..b];
      var kids := blk.kids[..m] + [Text(t)];
      var other := Elem(blk.name, blk.attrs, kids);
      assert t != "" && kids[..m + 1] == kids && kids[..m] == blk.kids[..m] && t[..a] == blk.kids[m].text[..a];
      assert kids + [] == kids;
      assert PrefixOf(other, m + 1, "") == PrefixOf(blk, m, t);
      TidyFits(f, cur, other, m + 1, a);
    }
  }

  lemma {:induction false} SearchFinds(f: Frame, blk: Node, m: nat, cuts: seq<nat>, lo: nat, hi: nat)
    requires blk.Elem? && m < |blk.kids| && blk.kids[m].Text? && lo <= hi <= |cuts| && hi > 0
    requires CutFits(f, [], blk, m, cuts[0])
    ensures MostWords(f, [], blk, m, cuts, lo, hi) > 0
    decreases hi - lo
  {
    hide CutFits;
    if lo < hi {
      var mid := (lo + hi + 1) / 2;
      if CutFits(f, [], blk, m, cuts[mid - 1]) {
        SearchFinds(f, blk, m, cuts, mid, hi);
      } else {
        SearchFinds(f, blk, m, cuts, lo, mid - 1);
      }
    }
  }

  /** The search finds a cut exactly when the first word fits. */
  lemma CutFoundExactly(f: Frame, blk: Node, m: nat)
    requires blk.Elem? && m < |blk.kids| && blk.kids[m].Text? && '$' !in blk.kids[m].text
    ensures TextCut(f, [], blk, m) > 0 <==> FirstWordFits(f, blk, m)
  {
    hide CutFits, CutsFrom, BetweenWords, MostWords;
    var t := blk.kids[m].text;
    var cuts := WordCuts(t);
    var n := MostWords(f, [], blk, m, cuts, 0, |cuts|);
    MostWordsFit(f, [], blk, m, cuts, 0, |cuts|);
    if n > 0 {
      CutsBetweenWords(t, 1, MAX_WORDS, n - 1);
      CutsIncrease(t, 1, MAX_WORDS, n - 1);
      FewerWordsFit(f, [], blk, m, cuts[0], cuts[n - 1]);
    } else if cuts != [] && CutFits(f, [], blk, m, cuts[0]) {
      SearchFinds(f, blk, m, cuts, 0, |cuts|);
    }
  }

  /** How many children fit, from the first ones. */
  lemma LargestFitIs(f: Frame, blk: Node)
    requires blk.Elem? && blk.kids != [] && !Fits(f, [blk])
    ensures var m := LargestFit(f, [], blk, 0);
            && m < |blk.kids|
            && (m == 0 <==> !Fits(f, [PrefixOf(blk, 1, "")]))
            && (m == 1 <==> Fits(f, [PrefixOf(blk, 1, "")]) && |blk.kids| > 1 && !Fits(f, [PrefixOf(blk, 2, "")]))
  {
    hide Fits;
    var n := |blk.kids|;
    assert blk.kids[..n] == blk.kids && blk.kids + [] == blk.kids;
    assert PrefixOf(blk, n, "") == blk;
    assert [] + [blk] == [blk] && [] + [PrefixOf(blk, 1, "")] == [PrefixOf(blk, 1, "")];
    var m := LargestFit(f, [], blk, 0);
    if n > 1 { assert [] + [PrefixOf(blk, 2, "")] == [PrefixOf(blk, 2, "")]; }
    assert m > 0 ==> m == LargestFit(f, [], blk, 1);
  }

  /** A block too large for a page of its own is refused exactly when it has no cut. */
  lemma RefusedExactly(f: Frame, blk: Node)
    requires PlainKids(blk) && !Fits(f, [blk])
    ensures SplitToFit(f, [], blk).NoSplit? <==> NoCut(f, blk)
  {
    hide Fits, LargestFit, TextCut, FirstWordFits, HeadOf, RestOf, TrimTail, BetweenWords;
    if blk.Elem? && blk.kids != [] {
      LargestFitIs(f, blk);
      var m := LargestFit(f, [], blk, 0);
      if blk.kids[m].Text? { CutFoundExactly(f, blk, m); }
      assert SplitToFit(f, [], blk).NoSplit? <==> TidySeam(blk, FirstSeam(f, [], blk, m)) == Seam(0, 0);
    }
  }

  lemma BarDangles()
    ensures TrimTail("|", 1) == 0
  {
    var t := "|";
    assert TrimSpaces(t, 1) == 1 && WordStart(t, 1) == 0;
    assert t[0..1] == "|" && !EndsLine("|");
    assert TrimSpaces(t, 0) == 0;
  }

  /** A block that opens with a bare separator beside which the next child does not
      fit is never cut, however many children follow and however small they are. */
  lemma LeadingBarRefuses(f: Frame, name: string, attrs: seq<Attribute>, kid: Node, more: seq<Node>)
    requires var blk := Elem(name, attrs, [Text("|"), kid] + more);
             PlainKids(blk) && !Fits(f, [blk]) && kid.Elem?
             && Fits(f, [PrefixOf(blk, 1, "")]) && !Fits(f, [PrefixOf(blk, 2, "")])
    ensures SplitToFit(f, [], Elem(name, attrs, [Text("|"), kid] + more)).NoSplit?
  {
    hide Fits, SplitToFit, TrimTail;
    var blk := Elem(name, attrs, [Text("|"), kid] + more);
    assert blk.kids[0] == Text("|") && blk.kids[1] == kid;
    BarDangles();
    RefusedExactly(f, blk);
  }

  // ---- Links and title never take more than was kept for them ------------------------------

  lemma TokensOfLink()
    ensures LowerAll("p") == "p" && ElementCode("p") == 0x20
    ensures LowerAll("a") == "a" && ElementCode("a") == 0x1C
    ensures LowerAll("href") == "href" && AttrCode("href") == ATTR_HREF
  {}

  lemma LinkAttr(href: string, base: string)
    ensures AttrsBytes([Attribute("href", href)], base)
            == [ATTR_HREF as char] + Encode(LinkedValue(ATTR_HREF, href, base))
  {
    hide AttrCode, Encode, LinkedValue;
    TokensOfLink();
    var a := Attribute("href", href);
    assert AttrBytes(a, base) == [ATTR_HREF as char] + Encode(LinkedValue(ATTR_HREF, href, base));
    assert [a][1..] == [];
    assert AttrsBytes([], base) == "";
  }

  lemma AnchorLength(words: string, href: string, base: string)
    ensures |Compile(Elem("a", [Attribute("href", href)], [Text(words)]), base)|
            == 4 + |Encode(words)| + |Encode(LinkedValue(ATTR_HREF, href, base))|
  {
    hide ElementCode, AttrsBytes, LinkedValue, Encode;
    TokensOfLink();
    LinkAttr(href, base);
    OneCompiled(Text(words), base);
    EncodeStarts(words);
  }

  lemma LinkLength(words: string, href: string, base: string)
    ensures |Compile(NavLink(words, href), base)|
            == 6 + |Encode(words)| + |Encode(LinkedValue(ATTR_HREF, href, base))|
  {
    hide ElementCode, LinkedValue, Encode;
    TokensOfLink();
    var a := Elem("a", [Attribute("href", href)], [Text(words)]);
    AnchorLength(words, href, base);
    OneCompiled(a, base);
    assert AttrsBytes([], base) == "";
  }

  lemma TwoNodes(a: Node, b: Node, base: string)
    ensures CompileAll([a, b], base) == Compile(a, base) + Compile(b, base)
  {
    hide Compile, CompileAll;
    assert [a, b] == [a] + [b];
    CompileAllAppend([a], [b], base);
    OneCompiled(a, base);
    OneCompiled(b, base);
  }

  /** The reserve is exactly the two worst links. */
  lemma NavCostIs(title: string, path: string, base: string)
    ensures NavCost(title, path, base) == |CompileAll(WorstNav(path), base)|
  {
    hide CompileCard, CompileAll, Encode, NavLink, SetPage, Compile;
    var nav := WorstNav(path);
    CardLength(title, [], nav, base);
    CardLength(title, [], [], base);
    NoNodes(base);
    FillerLength();
    TwoNodes(nav[0], nav[1], base);
    LinkLength(PREV, SetPage(path, 98, HREF_BUF), base);
    assert "" + CompileAll(nav, base) == CompileAll(nav, base);
    assert "" + "" == "";
  }

  lemma SmallDecimal(k: nat)
    requires k <= 99
    ensures |Decimal(k)| <= 2
    ensures k >= 10 ==> |Decimal(k)| == 2
  {}

  lemma StrippedShort(u: string)
    ensures |Stripped(u)| < URI_BUF
  {
    hide ParamAt, DigitsEnd, FindStr;
    var v := NoFragment(Truncated(u, URI_BUF));
    var p := ParamAt(v, 0);
    if p < |v| { ParamRoom(v, p); }
  }

  /** Writing a page number up to 99 takes no more room than writing 98 or 99. */
  lemma PageLength(path: string, j: nat, worst: nat)
    requires j <= 99 && 10 <= worst <= 99
    ensures SetPage(path, j, HREF_BUF) == WithPage(Stripped(path), j)
    ensures |SetPage(path, j, HREF_BUF)| <= |SetPage(path, worst, HREF_BUF)|
  {
    hide Stripped, Decimal;
    StrippedShort(path);
    SmallDecimal(j);
    SmallDecimal(worst);
  }

  // ---- A plain absolute URI ---------------------------------------------------------------------

  /** scheme://host/path, short enough for the buffers, its host without
      query or fragment characters, its path (less a page number) with one
      leading slash, no '$'. */
  predicate PlainUri(uri: string) {
    && IsAbsolute(uri) && PathAt(uri) < |uri| < URI_BUF && 0 < PathAt(uri) < BASE_BUF
    && '$' !in uri && IsAlpha(uri[0])
    && PlainHost(uri[..PathAt(uri)]) && SiteRelative(Stripped(uri[PathAt(uri)..]))
  }

  predicate PlainHost(host: string) { '?' !in host && '&' !in host && '#' !in host }

  lemma ParamShift(host: string, path: string)
    requires host != "" && IsAlpha(host[0]) && PlainHost(host) && path != "" && path[0] == '/'
    ensures ParamAt(host + path, 0) == |host| + ParamAt(path, 0)
  {
    hide ParamAt, IsParam, PlainHost;
    var u := host + path;
    ParamAtIsFirst(path, 0);
    ParamAtIsFirst(u, 0);
    forall q | 0 <= q < |u| ensures IsParam(u, q) == (q >= |host| && IsParam(path, q - |host|)) {
      ParamShiftAt(host, path, q);
    }
    var p := ParamAt(path, 0);
    if p < |path| {
      assert IsParam(u, |host| + p);
    }
    var r := ParamAt(u, 0);
    if r < |u| {
      assert IsParam(path, r - |host|);
    }
  }

  lemma ParamShiftAt(host: string, path: string, q: nat)
    requires host != "" && IsAlpha(host[0]) && PlainHost(host) && path != "" && path[0] == '/'
    requires q < |host + path|
    ensures IsParam(host + path, q) == (q >= |host| && IsParam(path, q - |host|))
  {
    var u := host + path;
    if q == 0 {
      assert u[0] == host[0];
      FirstOfParam(u, 0);
    } else if q <= |host| {
      assert u[q - 1] == host[q - 1] && host[q - 1] in host;
      if q == |host| { FirstOfParam(path, 0); }
    } else {
      var d := q - |host|;
      assert u[q - 1] == path[d - 1];
      if q + |PARAM| <= |u| { assert u[q..q + |PARAM|] == path[d..d + |PARAM|]; }
    }
  }

  lemma {:induction false} DigitsEndShift(b: string, v: string, i: nat)
    requires i <= |v|
    ensures DigitsEnd(b + v, |b| + i) == |b| + DigitsEnd(v, i)
    decreases |v| - i
  {
    if i < |v| && IsDigit(v[i]) {
      assert (b + v)[|b| + i] == v[i];
      DigitsEndShift(b, v, i + 1);
    }
  }

  lemma DropLastShift(host: string, x: string)
    requires host != "" && PlainHost(host)
    ensures DropLastSep(host + x) == host + DropLastSep(x)
  {
    if x == "" {
      assert host + x == host && host[|host| - 1] in host;
    } else {
      assert (host + x)[..|host + x| - 1] == host + x[..|x| - 1];
    }
  }

  lemma CutShift(host: string, v: string, i: nat, j: nat)
    requires i <= |v| && j <= |v|
    ensures (host + v)[..|host| + i] + (host + v)[|host| + j..] == host + (v[..i] + v[j..])
  {
    var u := host + v;
    assert u[..|host| + i] == host + v[..i];
    assert u[|host| + j..] == v[j..];
    Assoc(host, v[..i], v[j..]);
  }

  lemma SpanShift(host: string, v: string, p: nat, end: nat)
    requires 0 < p <= end <= |v|
    ensures var (i, j) := Span(v, p, end); Span(host + v, |host| + p, |host| + end) == (|host| + i, |host| + j)
  {
    assert At(host + v, |host| + end) == At(v, end);
    assert (host + v)[|host| + p - 1] == v[p - 1];
  }

  lemma SplicedShift(host: string, v: string, p: nat, end: nat)
    requires 0 < p <= end <= |v|
    ensures Spliced(host + v, |host| + p, |host| + end) == host + Spliced(v, p, end)
  {
    hide Span;
    SpanShift(host, v, p, end);
    var (i, j) := Span(v, p, end);
    CutShift(host, v, i, j);
  }

  /** The host plays no part in taking a page number off. */
  lemma DropParamShift(host: string, path: string)
    requires host != "" && IsAlpha(host[0]) && PlainHost(host) && path != "" && path[0] == '/'
    ensures DropParam(host + path) == host + DropParam(path)
  {
    hide ParamAt, DigitsEnd, DropLastSep, Spliced, PlainHost, HasAt;
    ParamShift(host, path);
    var p := ParamAt(path, 0);
    if p < |path| {
      ParamRoom(path, p);
      ParamNotFirst(path);
      DigitsEndShift(host, path, p + |PARAM|);
      var end := DigitsEnd(path, p + |PARAM|);
      SplicedShift(host, path, p, end);
      DropLastShift(host, Spliced(path, p, end));
    }
  }

  lemma ParamNotFirst(path: string)
    requires path != "" && path[0] == '/' && ParamAt(path, 0) < |path|
    ensures ParamAt(path, 0) > 0
  {
    hide ParamAt;
    FirstOfParam(path, 0);
  }

  lemma StrippedShift(host: string, path: string)
    requires host != "" && IsAlpha(host[0]) && PlainHost(host) && path != "" && path[0] == '/'
    requires |host + path| < URI_BUF
    ensures Stripped(host + path) == host + Stripped(path)
  {
    hide DropParam;
    var cut := NoFragment(path);
    FragmentShift(host, path);
    assert cut != "" && cut[0] == '/' by { PathKept(path); }
    DropParamShift(host, cut);
  }

  lemma PathKept(path: string)
    requires path != "" && path[0] == '/'
    ensures NoFragment(path) != "" && NoFragment(path)[0] == '/'
  {}

  lemma FragmentShift(host: string, path: string)
    requires PlainHost(host)
    ensures NoFragment(host + path) == host + NoFragment(path)
  {
    hide Find;
    var u := host + path;
    FindSkips(host, path, 0);
    FindShift(host, path, 0, '#');
    assert u[..|host| + Find(path, 0, '#')] == host + path[..Find(path, 0, '#')];
  }

  lemma {:induction false} FindSkips(host: string, path: string, i: nat)
    requires '#' !in host && i <= |host|
    ensures Find(host + path, i, '#') == Find(host + path, |host|, '#')
    decreases |host| - i
  {
    if i < |host| {
      assert (host + path)[i] == host[i] && host[i] in host;
      FindSkips(host, path, i + 1);
    }
  }

  lemma WithPageShift(host: string, b: string, k: int)
    requires PlainHost(host)
    ensures WithPage(host + b, k) == host + WithPage(b, k)
  {
    hide Decimal, PARAM;
    assert '?' in host + b <==> '?' in b;
    if k > 0 {
      Assoc(host, b, [SepFor(b)]);
      Assoc(host, b + [SepFor(b)], PARAM + Decimal(k));
    }
  }

  /** A link made from the whole URI is the host followed by the link made from its path. */
  lemma LinkShift(uri: string, j: nat)
    requires PlainUri(uri) && j <= 99
    ensures SetPage(uri, j, HREF_BUF) == UriBase(uri) + SetPage(UriPath(uri), j, HREF_BUF)
  {
    hide Stripped, WithPage, SetPage, PathAt;
    var at := PathAt(uri);
    var host, path := uri[..at], uri[at..];
    assert uri == host + path;
    PageLength(uri, j, 99);
    PageLength(path, j, 99);
    StrippedShift(host, path);
    WithPageShift(host, Stripped(path), j);
  }

  // ---- The bound --------------------------------------------------------------------------------

  lemma RealLink(words: string, uri: string, j: nat, worst: nat, basep: string)
    requires PlainUri(uri) && j <= 99 && 10 <= worst <= 99 && Shorter(UriBase(uri), basep)
    ensures |Compile(NavLink(words, SetPage(uri, j, HREF_BUF)), UriBase(uri))|
         <= |Compile(NavLink(words, SetPage(UriPath(uri), worst, HREF_BUF)), basep)|
  {
    hide Encode, Compile, NavLink, SetPage, Stripped, PlainUri;
    var path, base := UriPath(uri), UriBase(uri);
    var sent, kept := SetPage(uri, j, HREF_BUF), SetPage(path, worst, HREF_BUF);
    LinkLength(words, sent, base);
    LinkLength(words, kept, basep);
    LinkShift(uri, j);
    PageLength(path, j, worst);
    HrefKinds(uri, j, worst);
    PlainLength(sent);
    EncodePrefix(basep, kept);
    PlainLength(kept);
  }

  /** The real link is absolute and gets no base; the one measured is site-relative and does. */
  lemma HrefKinds(uri: string, j: nat, worst: nat)
    requires PlainUri(uri) && j <= 99 && 10 <= worst <= 99
    ensures var sent, kept := SetPage(uri, j, HREF_BUF), SetPage(UriPath(uri), worst, HREF_BUF);
            !SiteRelative(sent) && '$' !in sent && SiteRelative(kept) && '$' !in kept
  {
    hide SetPage, Stripped, WithPage;
    var path := UriPath(uri);
    LinkShift(uri, j);
    assert uri[0] == UriBase(uri)[0];
    PageLength(path, worst, 99);
    PageLength(path, j, 99);
    PathHead(Stripped(path), worst);
    PlainSet(path, worst);
    PlainSet(path, j);
  }

  lemma PlainSet(path: string, j: nat)
    requires '$' !in path
    ensures '$' !in WithPage(Stripped(path), j)
  {
    hide ParamAt, DigitsEnd, Spliced, FindStr, Find, Decimal;
    var v := NoFragment(Truncated(path, URI_BUF));
    assert '$' !in v;
    var p := ParamAt(v, 0);
    if p < |v| {
      ParamRoom(v, p);
      SplicedFrom(v, p, DigitsEnd(v, p + |PARAM|), '$');
    }
    if j > 0 {
      var d := Decimal(j);
      assert forall c :: c in d ==> IsDigit(c);
      assert '$' !in PARAM;
    }
  }

  lemma PathHead(b: string, k: nat)
    requires SiteRelative(b)
    ensures SiteRelative(WithPage(b, k))
  {
    hide Decimal;
    if k > 0 && |b| == 1 { assert WithPage(b, k)[1] == SepFor(b); }
  }

  lemma RealNav(uri: string, k: nat, n: nat, basep: string)
    requires PlainUri(uri) && k < n <= 99 && Shorter(UriBase(uri), basep)
    ensures |CompileAll(NavFor(uri, k, n), UriBase(uri))| <= |CompileAll(WorstNav(UriPath(uri)), basep)|
  {
    hide PlainUri, Compile, CompileAll, NavLink, SetPage, UriBase, UriPath;
    var base, w := UriBase(uri), WorstNav(UriPath(uri));
    var prev, next := NavLink(PREV, SetPage(uri, k - 1, HREF_BUF)), NavLink(NEXT, SetPage(uri, k + 1, HREF_BUF));
    TwoNodes(w[0], w[1], basep);
    if k > 0 { RealLink(PREV, uri, k - 1, 98, basep); }
    if k < n - 1 { RealLink(NEXT, uri, k + 1, 99, basep); }
    if k > 0 && k < n - 1 {
      TwoNodes(prev, next, base);
      assert NavFor(uri, k, n) == [prev, next];
    } else if k > 0 {
      OneCompiled(prev, base);
      assert NavFor(uri, k, n) == [prev];
    } else if k < n - 1 {
      OneCompiled(next, base);
      assert NavFor(uri, k, n) == [next];
    } else {
      NoNodes(base);
      assert NavFor(uri, k, n) == [];
    }
  }

  lemma TitleLength(title: string, k: nat, n: nat)
    requires '$' !in title && k < n <= 99
    ensures |Encode(TitleFor(title, k, n))| <= |Encode(title + LONGEST_SUFFIX)|
  {
    hide Encode, Decimal;
    SmallDecimal(k + 1);
    SmallDecimal(n);
    var a, b := Decimal(k + 1), Decimal(n);
    assert forall c :: c in a ==> IsDigit(c);
    assert forall c :: c in b ==> IsDigit(c);
    assert '$' !in LONGEST_SUFFIX;
    PlainLength(TitleFor(title, k, n));
    PlainLength(title + LONGEST_SUFFIX);
  }

  /** A page within the limit is, with its real title, links and base, within the packet. */
  lemma FinalSize(title: string, uri: string, k: nat, n: nat, page: seq<Node>, pageBytes: nat)
    requires PlainUri(uri) && '$' !in title && k < n <= 99
    requires var f := FrameFor(title, uri, UriBase(uri), pageBytes);
             Fits(f, page) && pageBytes > NavCost(f.title, UriPath(uri), f.base) + MIN_LIMIT
    ensures |CompileCard(TitleFor(title, k, n), page, NavFor(uri, k, n), UriBase(uri))| <= pageBytes
  {
    hide CompileCard, CompileAll, Encode, NavFor, TitleFor, UriPath, NavCost, PlainUri, MeasureBase, WorstNav, CardBody;
    var base := UriBase(uri);
    var f := FrameFor(title, uri, base, pageBytes);
    BasesOk(uri);
    TitleLength(title, k, n);
    NavCostIs(f.title, UriPath(uri), f.base);
    RealNav(uri, k, n, f.base);
    CompileAllShorter(page, base, f.base);
    var x, y := CompileAll(page, base), CompileAll(NavFor(uri, k, n), base);
    CardLength(TitleFor(title, k, n), page, NavFor(uri, k, n), base);
    CardLength(f.title, page, [], f.base);
    BodyWithNav(x, y);
    NoNodes(f.base);
    BodyShorter(x, CompileAll(page, f.base));
    SilentTogether(page, base, f.base);
  }

  lemma SilentTogether(page: seq<Node>, b1: string, b2: string)
    ensures CompileAll(page, b1) == "" <==> CompileAll(page, b2) == ""
  {
    AllSilentCompile(page, b1);
    AllSilentCompile(page, b2);
  }

  lemma BodyShorter(x: string, y: string)
    ensures |x| <= |y| && (x == "" <==> y == "") ==> |CardBody(x + "")| <= |CardBody(y + "")|
  {
    assert x + "" == x && y + "" == y;
  }

  lemma BasesOk(uri: string)
    requires PlainUri(uri)
    ensures Shorter(UriBase(uri), MeasureBase(UriBase(uri)))
  {
    assert '$' !in REFERENCE_BASE;
  }

  lemma WholeSize(title: string, uri: string, blocks: seq<Node>, pageBytes: nat)
    requires PlainUri(uri) && FitsWhole(title, blocks, UriBase(uri), pageBytes)
    ensures |CompileCard(title, blocks, [], UriBase(uri))| <= pageBytes
  {
    hide CompileCard, CompileAll, Encode, PlainUri, MeasureBase, CardBody;
    var base := UriBase(uri);
    var basep := MeasureBase(base);
    BasesOk(uri);
    CompileAllShorter(blocks, base, basep);
    CardLength(title, blocks, [], base);
    CardLength(title, blocks, [], basep);
    NoNodes(base);
    NoNodes(basep);
    SilentTogether(blocks, base, basep);
    BodyShorter(CompileAll(blocks, base), CompileAll(blocks, basep));
  }

  lemma EmptyPageFits(title: string, uri: string, base: string, pageBytes: nat)
    requires '$' !in title && |title| <= TITLE_MAX
    ensures Fits(FrameFor(title, uri, base, pageBytes), [])
  {
    hide CompileCard, Encode, CompileAll, UriPath, NavCost, MeasureBase;
    var f := FrameFor(title, uri, base, pageBytes);
    CardLength(f.title, [], [], f.base);
    NoNodes(f.base);
    FillerLength();
    assert '$' !in LONGEST_SUFFIX;
    PlainLength(title + LONGEST_SUFFIX);
    assert "" + "" == "";
  }

  /** The page bound: whatever page of whatever deck the gateway compiles is at
      most `pageBytes` long, unless it is one block that could not be split. */
  lemma PageWithinPacket(root: Node, uri: string, page: int, pageBytes: nat)
    requires root.Elem? && PlainUri(uri)
    requires '$' !in BaseTitle(root) && PlainBlocks(BlocksOf(root))
    requires var f := FrameFor(BaseTitle(root), uri, UriBase(uri), pageBytes);
             pageBytes > NavCost(f.title, UriPath(uri), f.base) + MIN_LIMIT
    requires |Build(root, uri, true, page, pageBytes).pages| <= 99
    ensures var pg := Build(root, uri, true, page, pageBytes);
            var f := FrameFor(BaseTitle(root), uri, UriBase(uri), pageBytes);
            || |CompilePage(root, uri, page, pageBytes)| <= pageBytes
            || (|pg.pages[pg.page]| == 1 && Oversized(f, pg.pages[pg.page][0]))
  {
    hide CompileCard, FitsWhole, PackAll, FrameFor, PlainUri, UriBase, UriPath, Oversized, Fits,
      BlocksOf, PlainBlocks, NavCost, NavFor, TitleFor;
    var title, blocks, base := BaseTitle(root), BlocksOf(root), UriBase(uri);
    var f := FrameFor(title, uri, base, pageBytes);
    var pg := Build(root, uri, true, page, pageBytes);
    if FitsWhole(title, blocks, base, pageBytes) {
      WholeSize(title, uri, blocks, pageBytes);
      SinglePage(title, uri);
    } else {
      PackAllOk(title, uri, blocks, pageBytes);
      var p := pg.pages[pg.page];
      assert PageOk(f, p);
      if Fits(f, p) { FinalSize(title, uri, pg.page, |pg.pages|, p, pageBytes); }
    }
  }

  lemma SinglePage(title: string, uri: string)
    ensures TitleFor(title, 0, 1) == title && NavFor(uri, 0, 1) == []
  {}

  lemma PackAllOk(title: string, uri: string, blocks: seq<Node>, pageBytes: nat)
    requires '$' !in title && |title| <= TITLE_MAX && PlainBlocks(blocks)
    ensures var f := FrameFor(title, uri, UriBase(uri), pageBytes);
            forall k :: 0 <= k < |PackAll(f, blocks)| ==> PageOk(f, PackAll(f, blocks)[k])
  {
    hide Pack, FrameFor, Fits, Oversized, PlainBlocks;
    PackFits(FrameFor(title, uri, UriBase(uri), pageBytes), blocks, []);
    EmptyPageFits(title, uri, UriBase(uri), pageBytes);
  }
}
