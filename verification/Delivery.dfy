/** The gateway and the HTTP server cut the same deck: paged_build of
    src/wap_gateway/wbxml.c is given the absolute URI by one and its path by the other. */
module Delivery {
  import opened Ascii
  import opened WmlString
  import opened WmlTokens
  import opened Wbxml
  import opened Paginator
  import opened PageNav
  import opened Measure
  import opened Deck
  import opened PageBound

  /** The bytes kept for the links of a page asked for with this path. */
  function Reserve(path: string): nat { |CompileAll(WorstNav(path), REFERENCE_BASE)| }

  /** The two page lists for one deck. */
  function GatewayPages(uri: string, title: string, blocks: seq<Node>, pageBytes: nat): seq<seq<Node>> {
    PagesFor(title, blocks, uri, UriBase(uri), pageBytes)
  }

  function HttpPages(uri: string, title: string, blocks: seq<Node>, pageBytes: nat): seq<seq<Node>> {
    PagesFor(title, blocks, UriPath(uri), "", pageBytes)
  }

  predicate ShortBase(uri: string) { IsAbsolute(uri) && |UriBase(uri)| <= |REFERENCE_BASE| }

  lemma FrameIs(title: string, uri: string, base: string, pageBytes: nat)
    requires |base| <= |REFERENCE_BASE|
    ensures FrameFor(title, uri, base, pageBytes)
            == Frame(title + LONGEST_SUFFIX, REFERENCE_BASE, LimitFor(pageBytes, Reserve(UriPath(uri))))
  {
    hide UriPath, NavCost, WorstNav;
    NavCostIs(title + LONGEST_SUFFIX, UriPath(uri), REFERENCE_BASE);
  }

  lemma EqualReserve(uri: string, title: string, blocks: seq<Node>, pageBytes: nat)
    requires ShortBase(uri) && Reserve(UriPath(uri)) == Reserve(UriPath(UriPath(uri)))
    ensures GatewayPages(uri, title, blocks, pageBytes) == HttpPages(uri, title, blocks, pageBytes)
  {
    hide UriPath, UriBase, FrameFor, PackAll, Reserve;
    FrameIs(title, uri, UriBase(uri), pageBytes);
    FrameIs(title, UriPath(uri), "", pageBytes);
  }

  // ---- A deck that shows the limit: nothing but line breaks -----------------------------------

  function Break(): Node { Elem("br", [], []) }

  function Breaks(n: nat): (r: seq<Node>)
    ensures |r| == n
  {
    if n == 0 then [] else [Break()] + Breaks(n - 1)
  }

  lemma {:induction false} BreaksAppend(n: nat)
    ensures Breaks(n) + [Break()] == Breaks(n + 1)
  {
    if n > 0 { BreaksAppend(n - 1); }
  }

  lemma BreakCompiles(base: string)
    ensures |Compile(Break(), base)| == 1
  {
    assert LowerAll("br") == "br" && ElementCode("br") == 0x26;
    assert CompileAll([], base) == "" && AttrsBytes([], base) == "";
  }

  lemma {:induction false} BreaksCompile(n: nat, base: string)
    ensures |CompileAll(Breaks(n), base)| == n
  {
    hide Compile, Break;
    if n > 0 {
      BreakCompiles(base);
      BreaksCompile(n - 1, base);
      assert Breaks(n)[1..] == Breaks(n - 1);
    }
  }

  lemma BreaksCard(title: string, n: nat, base: string)
    requires '$' !in title && n > 0
    ensures |CompileCard(title, Breaks(n), [], base)| == 16 + |title| + n
  {
    hide CompileCard, CompileAll, Encode, Breaks;
    CardLength(title, Breaks(n), [], base);
    BreaksCompile(n, base);
    NoNodes(base);
    PlainLength(title);
  }

  lemma BreakIsWhole(f: Frame, cur: seq<Node>)
    ensures WorthSplit(f, cur, Break()) == NoSplit
  {}

  /** With 24 bytes taken by the card itself, the first page holds limit - 24 breaks. */
  lemma {:induction false} FirstPage(f: Frame, n: nat, k: nat)
    requires f.title == LONGEST_SUFFIX && f.limit > 24 && k <= f.limit - 24 < n + k
    ensures Pack(f, Breaks(n), Breaks(k)) != [] && |Pack(f, Breaks(n), Breaks(k))[0]| == f.limit - 24
    decreases n
  {
    hide Break, WorthSplit, PageSize, Weight;
    var blk := Breaks(n)[0];
    assert blk == Break() && Breaks(n)[1..] == Breaks(n - 1);
    BreaksAppend(k);
    assert PageSize(f, Breaks(k + 1)) == 24 + k + 1 by { BreaksPage(f, k + 1); }
    if k < f.limit - 24 {
      FirstPage(f, n - 1, k + 1);
    } else {
      BreakIsWhole(f, Breaks(k));
    }
  }

  lemma BreaksPage(f: Frame, n: nat)
    requires f.title == LONGEST_SUFFIX && n > 0
    ensures PageSize(f, Breaks(n)) == 24 + n
  {
    hide CompileCard, Breaks;
    assert '$' !in LONGEST_SUFFIX && |LONGEST_SUFFIX| == 8;
    BreaksCard(f.title, n, f.base);
  }

  /** Different reserves cut some deck differently. */
  lemma DifferentReserve(uri: string) returns (blocks: seq<Node>, pageBytes: nat)
    requires ShortBase(uri) && Reserve(UriPath(uri)) != Reserve(UriPath(UriPath(uri)))
    ensures GatewayPages(uri, "", blocks, pageBytes) != HttpPages(uri, "", blocks, pageBytes)
  {
    hide UriPath, UriBase, FrameFor, Pack, Reserve, CompileCard, Breaks;
    var path := UriPath(uri);
    var r1, r2 := Reserve(path), Reserve(UriPath(path));
    pageBytes := r1 + r2 + MIN_LIMIT + 1;
    var n := pageBytes + 1;
    blocks := Breaks(n);
    FrameIs("", uri, UriBase(uri), pageBytes);
    FrameIs("", path, "", pageBytes);
    var f1, f2 := FrameFor("", uri, UriBase(uri), pageBytes), FrameFor("", path, "", pageBytes);
    BreaksCard("", n, REFERENCE_BASE);
    assert "" + LONGEST_SUFFIX == LONGEST_SUFFIX;
    NoBreaks();
    FirstPage(f1, n, 0);
    FirstPage(f2, n, 0);
    assert GatewayPages(uri, "", blocks, pageBytes) == Pack(f1, blocks, []);
    assert HttpPages(uri, "", blocks, pageBytes) == Pack(f2, blocks, []);
  }

  lemma NoBreaks()
    ensures Breaks(0) == []
  {}

  ghost predicate AlwaysSamePages(uri: string) {
    forall title, blocks, pageBytes ::
      GatewayPages(uri, title, blocks, pageBytes) == HttpPages(uri, title, blocks, pageBytes)
  }

  // ---- A deck that shows the base: line breaks and one link of the site -----------------------

  function LinkDeck(): (r: seq<Node>)
    ensures |r| == 201
  {
    Breaks(200) + [NavLink("x", "/")]
  }

  lemma LinkDeckPlain()
    ensures PlainBlocks(LinkDeck())
  {
    hide Breaks;
    AllBreaks(200);
  }

  lemma {:induction false} AllBreaks(n: nat)
    ensures forall i :: 0 <= i < n ==> Breaks(n)[i] == Break()
  {
    hide Break;
    if n > 0 { AllBreaks(n - 1); }
  }

  lemma LinkDeckSize(title: string, base: string)
    requires '$' !in title && '$' !in base
    ensures |CompileCard(title, LinkDeck(), [], base)| == 228 + |title| + |base|
  {
    hide CompileCard, CompileAll, Encode, Breaks, Compile, NavLink;
    var n := NavLink("x", "/");
    CardLength(title, LinkDeck(), [], base);
    CompileAllAppend(Breaks(200), [n], base);
    BreaksCompile(200, base);
    OneCompiled(n, base);
    LinkLength("x", "/", base);
    assert SiteRelative("/");
    EncodePrefix(base, "/");
    PlainLength("/");
    PlainLength("x");
    PlainLength(title);
    NoNodes(base);
  }

  /** A host longer than the reference one cuts some deck differently, whatever the path. */
  lemma LongBaseDiffers(uri: string)
    requires |UriBase(uri)| > |REFERENCE_BASE| && '$' !in UriBase(uri)
    ensures !AlwaysSamePages(uri)
  {
    hide CompileCard, LinkDeck, PackAll, UriPath, UriBase, FrameFor;
    var blocks, base := LinkDeck(), UriBase(uri);
    assert '$' !in REFERENCE_BASE && '$' !in "";
    LinkDeckSize("", base);
    LinkDeckSize("", REFERENCE_BASE);
    var pageBytes := |CompileCard("", blocks, [], REFERENCE_BASE)|;
    assert HttpPages(uri, "", blocks, pageBytes) == [blocks];
    var f := FrameFor("", uri, base, pageBytes);
    assert GatewayPages(uri, "", blocks, pageBytes) == PackAll(f, blocks);
    NotOnOnePage(uri, base, pageBytes);
  }

  lemma NotOnOnePage(uri: string, base: string, pageBytes: nat)
    requires |base| > |REFERENCE_BASE| && '$' !in base && MIN_LIMIT <= pageBytes <= 228 + |base|
    ensures PackAll(FrameFor("", uri, base, pageBytes), LinkDeck()) != [LinkDeck()]
  {
    hide CompileCard, LinkDeck, Pack, UriPath, NavCost, WorstNav, CompileAll, Oversized;
    var f := FrameFor("", uri, base, pageBytes);
    assert "" + LONGEST_SUFFIX == LONGEST_SUFFIX && '$' !in LONGEST_SUFFIX;
    NavCostIs(LONGEST_SUFFIX, UriPath(uri), base);
    LinkDeckSize(LONGEST_SUFFIX, base);
    LinkDeckPlain();
    PackFits(f, LinkDeck(), []);
    var pages := Pack(f, LinkDeck(), []);
    assert |pages| > 0 ==> PageOk(f, pages[0]);
  }

  // ---- A block that opens with a bar ---------------------------------------------------------------

  /** "|", an element of 30 line breaks, and k more line breaks. */
  function BarBlock(k: nat): Node { Elem("p", [], [Text("|"), Elem("b", [], Breaks(30))] + Breaks(k)) }

  lemma ElementLength(name: string, kids: seq<Node>, base: string, code: int)
    requires ElementCode(LowerAll(name)) == code && 0 <= code < 0x40 && CompileAll(kids, base) != ""
    ensures |Compile(Elem(name, [], kids), base)| == 2 + |CompileAll(kids, base)|
  {
    hide ElementCode, CompileAll, Compile;
    ElementIs(name, kids, base, code);
  }

  lemma BarTokens()
    ensures ElementCode(LowerAll("p")) == 0x20 && ElementCode(LowerAll("b")) == 0x24
  {
    assert LowerAll("p") == "p" && LowerAll("b") == "b";
  }

  /** A paragraph on a page of its own, without title: sixteen bytes and its own. */
  lemma ParagraphPage(f: Frame, kids: seq<Node>)
    requires f.title == "" && CompileAll(kids, f.base) != ""
    ensures PageSize(f, [Elem("p", [], kids)]) == 18 + |CompileAll(kids, f.base)|
  {
    hide CompileCard, CompileAll, Compile, ElementCode, Encode;
    var n := Elem("p", [], kids);
    BarTokens();
    ElementLength("p", kids, f.base, 0x20);
    CardLength("", [n], [], f.base);
    OneCompiled(n, f.base);
    NoNodes(f.base);
    assert '$' !in "";
    PlainLength("");
    assert Compile(n, f.base) + "" == Compile(n, f.base);
  }

  lemma BarContent(k: nat, base: string)
    ensures |CompileAll([Text("|")], base)| == 3 && |CompileAll([Elem("b", [], Breaks(30))], base)| == 32
    ensures |CompileAll([Text("|"), Elem("b", [], Breaks(30))] + Breaks(k), base)| == 35 + k
  {
    hide CompileAll, Compile, ElementCode, Encode, Breaks;
    var bar, kid := Text("|"), Elem("b", [], Breaks(30));
    BarTokens();
    BreaksCompile(30, base);
    BreaksCompile(k, base);
    ElementLength("b", Breaks(30), base, 0x24);
    assert [bar] + [kid] == [bar, kid];
    CompileAllAppend([bar], [kid], base);
    CompileAllAppend([bar, kid], Breaks(k), base);
    OneCompiled(bar, base);
    OneCompiled(kid, base);
    TextCompiles("|", base);
    assert '$' !in "|";
    PlainLength("|");
  }

  lemma TextCompiles(t: string, base: string)
    ensures Compile(Text(t), base) == Encode(t)
  {
    hide Encode;
  }

  /** Such a block is never cut for a page of 51 bytes, though its second child alone
      fits one and the last k take one byte each. */
  lemma LeadingBarExample(k: nat)
    ensures var f := Frame("", "", 51);
            SplitToFit(f, [], BarBlock(k)).NoSplit? && Fits(f, [Elem("p", [], [Elem("b", [], Breaks(30))])])
  {
    hide CompileCard, CompileAll, Compile, Breaks, SplitToFit;
    var f, kid := Frame("", "", 51), Elem("b", [], Breaks(30));
    var blk := BarBlock(k);
    BarContent(k, "");
    BarContent(0, "");
    NoBreaks();
    assert [Text("|"), kid] + [] == [Text("|"), kid];
    assert blk.kids[..1] + TextKid("") == [Text("|")] && blk.kids[..2] + TextKid("") == [Text("|"), kid];
    ParagraphPage(f, [Text("|")]);
    ParagraphPage(f, [Text("|"), kid]);
    ParagraphPage(f, [kid]);
    ParagraphPage(f, blk.kids);
    AllBreaks(k);
    assert PlainKids(blk);
    LeadingBarRefuses(f, "p", [], kid, Breaks(k));
  }

  // ---- Exactly when both sides agree ------------------------------------------------------------

  /** Both delivery paths cut every deck alike exactly when the host is no longer
      than the reference one and the same room is kept for links to the path and to
      what paged_build takes for its path. */
  lemma SamePagesExactly(uri: string)
    requires IsAbsolute(uri) && '$' !in UriBase(uri)
    ensures AlwaysSamePages(uri) <==>
            |UriBase(uri)| <= |REFERENCE_BASE| && Reserve(UriPath(uri)) == Reserve(UriPath(UriPath(uri)))
  {
    hide GatewayPages, HttpPages, Reserve, UriPath, UriBase;
    if |UriBase(uri)| > |REFERENCE_BASE| {
      LongBaseDiffers(uri);
    } else if Reserve(UriPath(uri)) == Reserve(UriPath(UriPath(uri))) {
      forall title, blocks, pageBytes
        ensures GatewayPages(uri, title, blocks, pageBytes) == HttpPages(uri, title, blocks, pageBytes)
      {
        EqualReserve(uri, title, blocks, pageBytes);
      }
    } else {
      var blocks, pageBytes := DifferentReserve(uri);
    }
  }

  /** A path with no "://" in it is its own path, so both sides agree. */
  lemma OrdinaryPathsAgree(uri: string)
    requires ShortBase(uri) && !IsAbsolute(UriPath(uri))
    ensures AlwaysSamePages(uri)
  {
    hide GatewayPages, HttpPages, Reserve;
    forall title, blocks, pageBytes
      ensures GatewayPages(uri, title, blocks, pageBytes) == HttpPages(uri, title, blocks, pageBytes)
    {
      EqualReserve(uri, title, blocks, pageBytes);
    }
  }

  // ---- Where they differ: a URI inside the query --------------------------------------------

  lemma SuffixHasNoParam(path: string, at: nat)
    requires !HasParam(path) && at < |path| && path[at] == '/'
    ensures !HasParam(path[at..])
  {
    hide ParamAt, HasParam;
    var q := path[at..];
    forall i | 0 <= i < |q| ensures !IsParam(q, i) {
      if i == 0 {
        FirstOfParam(q, 0);
      } else {
        NoParamIn(path, at + i);
        if i + |PARAM| <= |q| { assert q[i..i + |PARAM|] == path[at + i..at + i + |PARAM|]; }
      }
    }
    NoParamFrom(q);
  }

  lemma ReserveIs(p: string)
    requires !HasParam(p) && '#' !in p && '$' !in p && |p| < URI_BUF && p != ""
    ensures var shown := 2 * (|p| + 12);
            Reserve(p) == 30 + shown + if SiteRelative(p) then 2 * |REFERENCE_BASE| else 0
  {
    hide NavLink, Compile, CompileAll, SetPage, Stripped, Decimal, Encode, HasParam;
    var a, b := SetPage(p, 98, HREF_BUF), SetPage(p, 99, HREF_BUF);
    TwoNodes(NavLink(PREV, a), NavLink(NEXT, b), REFERENCE_BASE);
    LinkLength(PREV, a, REFERENCE_BASE);
    LinkLength(NEXT, b, REFERENCE_BASE);
    PlainLength(PREV);
    PlainLength(NEXT);
    ReservedHref(p, 98);
    ReservedHref(p, 99);
  }

  lemma ReservedHref(p: string, k: nat)
    requires !HasParam(p) && '#' !in p && '$' !in p && |p| < URI_BUF && p != "" && 10 <= k <= 99
    ensures |Encode(LinkedValue(ATTR_HREF, SetPage(p, k, HREF_BUF), REFERENCE_BASE))|
            == |p| + 12 + if SiteRelative(p) then |REFERENCE_BASE| else 0
  {
    hide Stripped, Decimal, Encode, HasParam;
    var href := SetPage(p, k, HREF_BUF);
    PageLength(p, k, 99);
    PlainStripped(p);
    SmallDecimal(k);
    PlainSet(p, k);
    PlainLength(href);
    assert href[0] == p[0] && (|p| >= 2 ==> href[1] == p[1]) && (|p| == 1 ==> href[1] == SepFor(p));
    assert '$' !in REFERENCE_BASE;
    if SiteRelative(p) { EncodePrefix(REFERENCE_BASE, href); }
  }

  /** A path of a request: from the root of the site, without fragment, page
      parameter or variables, and short enough. */
  predicate OrdinaryPath(p: string) {
    SiteRelative(p) && !HasParam(p) && '#' !in p && '$' !in p && |p| < URI_BUF
  }

  /** Both delivery paths cut every deck alike exactly when the host is no longer
      than the reference one and the path has no "://" in it. A path that has (a URI
      in its query, say) is measured by the HTTP server as if it started inside it. */
  lemma SamePagesGuard(uri: string)
    requires IsAbsolute(uri) && '$' !in UriBase(uri) && OrdinaryPath(UriPath(uri))
    ensures AlwaysSamePages(uri) <==> |UriBase(uri)| <= |REFERENCE_BASE| && !IsAbsolute(UriPath(uri))
  {
    hide AlwaysSamePages, Reserve, HasParam, PathAt, FindStr, UriBase;
    var p := UriPath(uri);
    SamePagesExactly(uri);
    if IsAbsolute(p) {
      var q := UriPath(p);
      if PathAt(p) < |p| { SuffixHasNoParam(p, PathAt(p)); } else { RootHasNoParam(); }
      ReserveIs(p);
      ReserveIs(q);
      PathIsInside(p);
    }
  }

  lemma RootHasNoParam()
    ensures !HasParam("/")
  {
    hide ParamAt;
    FirstOfParam("/", 0);
    NoParamFrom("/");
  }

  lemma PathIsInside(p: string)
    requires IsAbsolute(p)
    ensures PathAt(p) > 0 && |UriPath(p)| < |p|
  {
    assert FindStr(p, 0, "://") + 3 <= |p|;
  }

  lemma FirstScheme(s: string, at: nat)
    requires at + 3 <= |s| && s[at..at + 3] == "://" && forall i :: 0 <= i < at ==> s[i] != ':'
    ensures FindStr(s, 0, "://") == at
  {
    forall i | 0 <= i < at ensures !HasAt(s, i, "://") {
      if i + 3 <= |s| { assert s[i..i + 3][0] == s[i]; }
    }
    assert HasAt(s, at, "://");
  }

  /** The paths of two such URIs: one that goes on after the inner host, one that does not. */
  const EXAMPLE_PATH: string := "/a?u=x://y/b"
  const SHORT_EXAMPLE: string := "/a?u=x://y"

  lemma ExampleSpelled()
    ensures var p := EXAMPLE_PATH;
            && |p| == 12 && p[0] == '/' && p[1] == 'a' && p[2] == '?' && p[3] == 'u' && p[4] == '=' && p[5] == 'x'
            && p[6] == ':' && p[7] == '/' && p[8] == '/' && p[9] == 'y' && p[10] == '/' && p[11] == 'b'
    ensures var p := SHORT_EXAMPLE;
            && |p| == 10 && p[0] == '/' && p[1] == 'a' && p[2] == '?' && p[3] == 'u' && p[4] == '=' && p[5] == 'x'
            && p[6] == ':' && p[7] == '/' && p[8] == '/' && p[9] == 'y'
  {}

  lemma ExampleOrdinary(p: string)
    requires p == EXAMPLE_PATH || p == SHORT_EXAMPLE
    ensures OrdinaryPath(p) && IsAbsolute(p)
  {
    hide ParamAt, EXAMPLE_PATH, SHORT_EXAMPLE;
    ExampleSpelled();
    assert p[6..9] == "://";
    FirstScheme(p, 6);
    forall i | 0 <= i < |p| ensures !IsParam(p, i) { FirstOfParam(p, i); }
    NoParamFrom(p);
  }

  lemma ExampleHost(p: string)
    requires p == EXAMPLE_PATH || p == SHORT_EXAMPLE
    ensures var uri := "http://h" + p; IsAbsolute(uri) && UriBase(uri) == "http://h" && UriPath(uri) == p
  {
    hide EXAMPLE_PATH, SHORT_EXAMPLE;
    ExampleSpelled();
    var uri := "http://h" + p;
    assert uri[0] == 'h' && uri[1] == 't' && uri[2] == 't' && uri[3] == 'p' && uri[7] == 'h' && uri[8] == '/';
    assert uri[4..7] == "://";
    FirstScheme(uri, 4);
    assert Find(uri, 7, '/') == 8;
    assert uri[8..] == p && uri[..8] == "http://h";
  }

  /** Two addresses whose pages break differently: http://h/a?u=x://y/b and http://h/a?u=x://y. */
  lemma EmbeddedUriExample()
    ensures !AlwaysSamePages("http://h" + EXAMPLE_PATH) && !AlwaysSamePages("http://h" + SHORT_EXAMPLE)
  {
    hide AlwaysSamePages, ParamAt, PathAt, IsAbsolute, OrdinaryPath, EXAMPLE_PATH, SHORT_EXAMPLE, UriBase, UriPath;
    assert '$' !in "http://h";
    ExampleHost(EXAMPLE_PATH);
    ExampleHost(SHORT_EXAMPLE);
    ExampleOrdinary(EXAMPLE_PATH);
    ExampleOrdinary(SHORT_EXAMPLE);
    SamePagesGuard("http://h" + EXAMPLE_PATH);
    SamePagesGuard("http://h" + SHORT_EXAMPLE);
  }

  /** A long host: http://a.rather.long.host.name. */
  const LONG_HOST: string := "http://a.rather.long.host.name"

  lemma LongHostExample(path: string)
    requires path != "" && path[0] == '/'
    ensures !AlwaysSamePages(LONG_HOST + path)
  {
    hide AlwaysSamePages, UriBase;
    var uri := LONG_HOST + path;
    LongHostIs(path);
    assert '$' !in LONG_HOST && |LONG_HOST| > |REFERENCE_BASE|;
    LongBaseDiffers(uri);
  }

  lemma LongHostSpelled()
    ensures var h := LONG_HOST;
            && |h| == 30 && h[0] == 'h' && h[1] == 't' && h[2] == 't' && h[3] == 'p' && h[4] == ':' && h[5] == '/' && h[6] == '/'
            && forall i :: 7 <= i < 30 ==> h[i] != '/'
  {}

  lemma LongHostIs(path: string)
    requires path != "" && path[0] == '/'
    ensures UriBase(LONG_HOST + path) == LONG_HOST
  {
    hide LONG_HOST, Find;
    LongHostSpelled();
    var uri := LONG_HOST + path;
    assert forall i :: 0 <= i < 30 ==> uri[i] == LONG_HOST[i];
    assert uri[4..7] == "://";
    FirstScheme(uri, 4);
    assert uri[30] == '/';
    assert Find(uri, 7, '/') == 30;
    assert uri[..30] == LONG_HOST;
  }

  // ---- Walking from page to page keeps the pages -----------------------------------------------

  lemma SchemeStays(host: string, a: string, b: string)
    requires IsAbsolute(host + a) && PathAt(host + a) == |host| && b != "" && b[0] == '/'
    ensures IsAbsolute(host + b) && PathAt(host + b) == |host|
  {
    hide Find;
    var u, v := host + a, host + b;
    var s := FindStr(u, 0, "://");
    assert s + 3 <= |host|;
    forall i | 0 <= i <= s ensures HasAt(v, i, "://") == HasAt(u, i, "://") {
      assert v[i..i + 3] == u[i..i + 3];
    }
    assert HasAt(v, s, "://") && FindStr(v, 0, "://") == s;
    assert v[|host|] == '/';
    forall i | s + 3 <= i < |host| ensures v[i] != '/' { assert u[i] == v[i]; }
  }

  lemma LinkedUri(uri: string, k: nat)
    requires PlainUri(uri) && k <= 99
    ensures var next := SetPage(uri, k, HREF_BUF);
            UriBase(next) == UriBase(uri) && UriPath(next) == SetPage(UriPath(uri), k, HREF_BUF)
  {
    hide Stripped, WithPage, SetPage, PathAt;
    var at := PathAt(uri);
    var host, path := uri[..at], uri[at..];
    assert uri == host + path;
    LinkShift(uri, k);
    PageLength(path, k, 99);
    PathHead(Stripped(path), k);
    var tail := SetPage(path, k, HREF_BUF);
    assert tail != "" && tail[0] == '/';
    SchemeStays(host, path, tail);
    assert (host + tail)[..at] == host && (host + tail)[at..] == tail;
  }

  /** Following a Prev or Next link never moves a page break: the page asked
      for next is cut from the same list of pages. */
  lemma LinksKeepPages(uri: string, k: nat, title: string, blocks: seq<Node>, pageBytes: nat)
    requires PlainUri(uri) && k <= 99
    requires var b := Stripped(UriPath(uri)); Settled(b) && |b| + 10 < URI_BUF
    ensures GatewayPages(SetPage(uri, k, HREF_BUF), title, blocks, pageBytes)
         == GatewayPages(uri, title, blocks, pageBytes)
  {
    hide SetPage, UriBase, UriPath, PackAll, Stripped, PlainUri, Settled, NavLink, CompileCard, GatewayPages, WorstNav;
    var path := UriPath(uri);
    LinkedUri(uri, k);
    SameNav(SetPage(path, k, HREF_BUF), path);
    SamePages(SetPage(uri, k, HREF_BUF), uri, title, blocks, pageBytes);
    RoomyTo99(Stripped(path), k);
    RoomyTo99(Stripped(path), 98);
    RoomyTo99(Stripped(path), 99);
    SetAgain(path, k, 98, HREF_BUF);
    SetAgain(path, k, 99, HREF_BUF);
  }

  /** The pages depend on the address only through its host and the longest links. */
  lemma SamePages(uri: string, other: string, title: string, blocks: seq<Node>, pageBytes: nat)
    ensures (UriBase(uri) == UriBase(other) && WorstNav(UriPath(uri)) == WorstNav(UriPath(other))) ==>
            GatewayPages(uri, title, blocks, pageBytes) == GatewayPages(other, title, blocks, pageBytes)
  {
    hide PackAll, CompileCard, WorstNav, UriBase, UriPath;
  }

  lemma SameNav(path: string, other: string)
    ensures (SetPage(path, 98, HREF_BUF) == SetPage(other, 98, HREF_BUF) &&
             SetPage(path, 99, HREF_BUF) == SetPage(other, 99, HREF_BUF)) ==> WorstNav(path) == WorstNav(other)
  {
    hide SetPage, NavLink;
  }

  lemma RoomyTo99(b: string, k: nat)
    requires k <= 99 && |b| + 10 < URI_BUF
    ensures Roomy(b, k, HREF_BUF)
  {
    hide Decimal;
    SmallDecimal(k);
  }
}
