/** Preparing one page of a deck: find_card, uri_base, utf8_truncate and
    paged_build of src/wap_gateway/wbxml.c. */
module Deck {
  import opened Ascii
  import opened Wbxml
  import opened Paginator
  import opened PageNav

  // ---- The card -----------------------------------------------------------------------

  /** The first element named "card", depth first: none or one. */
  function FindCard(n: Node): (r: seq<Node>)
    ensures |r| <= 1 && forall i :: 0 <= i < |r| ==> r[i].Elem?
    decreases n, 1
  {
    if n.Text? then []
    else if LowerAll(n.name) == "card" then [n]
    else FindCardIn(n.kids)
  }

  function FindCardIn(ns: seq<Node>): (r: seq<Node>)
    ensures |r| <= 1 && forall i :: 0 <= i < |r| ==> r[i].Elem?
    decreases ns, 0
  {
    if ns == [] then []
    else
      var c := FindCard(ns[0]);
      if c != [] then c else FindCardIn(ns[1..])
  }

  /** The value of the first attribute with this name, "" if there is none. */
  function AttrOf(attrs: seq<Attribute>, name: string): string {
    if attrs == [] then ""
    else if SameFold(attrs[0].name, name) then attrs[0].value
    else AttrOf(attrs[1..], name)
  }

  /** The blocks of a card: its element children. */
  function ElementsOf(ns: seq<Node>): (r: seq<Node>)
    ensures forall i :: 0 <= i < |r| ==> r[i].Elem?
  {
    if ns == [] then []
    else (if ns[0].Elem? then [ns[0]] else []) + ElementsOf(ns[1..])
  }

  const TITLE_MAX: nat := 30

  predicate IsContinuation(c: char) { 0x80 <= c as int < 0xC0 }

  function Utf8Cut(s: string, n: nat): (r: nat)
    requires n <= |s|
    ensures r <= n
  {
    if n > 0 && IsContinuation(At(s, n)) then Utf8Cut(s, n - 1) else n
  }

  /** At most TITLE_MAX bytes of the title, never splitting a character. */
  function ShortTitle(s: string): (r: string)
    ensures |r| <= TITLE_MAX
    ensures r <= s
  {
    s[..Utf8Cut(s, if |s| > TITLE_MAX then TITLE_MAX else |s|)]
  }

  // ---- The URI ----------------------------------------------------------------------------

  const BASE_BUF: nat := 512
  const HREF_BUF: nat := 1100

  /** Where the path of an absolute URI starts: |uri| if it has none. */
  function PathAt(uri: string): (r: nat)
    requires FindStr(uri, 0, "://") < |uri|
    ensures r <= |uri|
    ensures r < |uri| ==> uri[r] == '/'
  {
    Find(uri, FindStr(uri, 0, "://") + 3, '/')
  }

  predicate IsAbsolute(uri: string) { FindStr(uri, 0, "://") < |uri| }

  /** "scheme://host[:port]" of an absolute URI, "" for any other. */
  function UriBase(uri: string): string {
    if IsAbsolute(uri) then Truncated(uri[..PathAt(uri)], BASE_BUF) else ""
  }

  function UriPath(uri: string): string {
    if !IsAbsolute(uri) then uri
    else if PathAt(uri) == |uri| then "/"
    else uri[PathAt(uri)..]
  }

  // ---- The measure ---------------------------------------------------------------------------

  const REFERENCE_BASE: string := "http://000.000.000.000:00"
  const LONGEST_SUFFIX: string := " (99/99)"
  const MIN_LIMIT: nat := 128

  function NavLink(words: string, href: string): Node {
    Elem("p", [], [Elem("a", [Attribute("href", href)], [Text(words)])])
  }

  const PREV: string := "<< Prev"
  const NEXT: string := "Next >>"

  /** The base pages are measured with: the reference one, or the real one when longer. */
  function MeasureBase(base: string): string {
    if |base| > |REFERENCE_BASE| then base else REFERENCE_BASE
  }

  function WorstNav(path: string): seq<Node> {
    [NavLink(PREV, SetPage(path, 98, HREF_BUF)), NavLink(NEXT, SetPage(path, 99, HREF_BUF))]
  }

  /** Room kept for the links: the card with them, less the empty card, plus
      the three bytes of filler only the empty one has. */
  function NavCost(title: string, path: string, base: string): int {
    |CompileCard(title, [], WorstNav(path), base)| - |CompileCard(title, [], [], base)| + 3
  }

  function LimitFor(pageBytes: nat, navCost: int): (r: nat)
    ensures r >= MIN_LIMIT
  {
    if pageBytes > navCost + MIN_LIMIT then pageBytes - navCost else MIN_LIMIT
  }

  // ---- The pages -----------------------------------------------------------------------------

  /** What paged_build prepares: all pages, and the requested one's number, title and links. */
  datatype Paged = Paged(pages: seq<seq<Node>>, page: nat, title: string, nav: seq<Node>, base: string)

  function CardOf(root: Node): Node
    requires root.Elem?
    ensures CardOf(root).Elem?
  {
    var c := FindCard(root);
    if c == [] then root else c[0]
  }

  function BlocksOf(root: Node): seq<Node>
    requires root.Elem?
  {
    ElementsOf(CardOf(root).kids)
  }

  function BaseTitle(root: Node): string
    requires root.Elem?
  {
    ShortTitle(AttrOf(CardOf(root).attrs, "title"))
  }

  function FrameFor(title: string, uri: string, base: string, pageBytes: nat): Frame {
    var long, basep := title + LONGEST_SUFFIX, MeasureBase(base);
    Frame(long, basep, LimitFor(pageBytes, NavCost(long, UriPath(uri), basep)))
  }

  predicate FitsWhole(title: string, blocks: seq<Node>, base: string, pageBytes: nat) {
    |CompileCard(title, blocks, [], MeasureBase(base))| <= pageBytes
  }

  /** All the pages of a deck. */
  function PagesFor(title: string, blocks: seq<Node>, uri: string, base: string, pageBytes: nat)
    : (pages: seq<seq<Node>>)
    ensures |pages| > 0
  {
    if FitsWhole(title, blocks, base, pageBytes) then [blocks]
    else PackAll(FrameFor(title, uri, base, pageBytes), blocks)
  }

  function Clamped(page: int, pages: nat): (k: nat)
    requires pages > 0
    ensures k < pages
  {
    if page < 0 then 0 else if page >= pages then pages - 1 else page
  }

  /** The links of page k of n. */
  function NavFor(uri: string, k: nat, n: nat): seq<Node> {
    (if k > 0 then [NavLink(PREV, SetPage(uri, k - 1, HREF_BUF))] else [])
    + (if k < n - 1 then [NavLink(NEXT, SetPage(uri, k + 1, HREF_BUF))] else [])
  }

  function TitleFor(title: string, k: nat, n: nat): string {
    if n > 1 then title + (" (" + Decimal(k + 1) + "/" + Decimal(n) + ")") else title
  }

  function Build(root: Node, uri: string, absolute: bool, page: int, pageBytes: nat): Paged
    requires root.Elem?
  {
    var base := if absolute then UriBase(uri) else "";
    var title, blocks := BaseTitle(root), BlocksOf(root);
    var pages := PagesFor(title, blocks, uri, base, pageBytes);
    var k := Clamped(page, |pages|);
    Paged(pages, k, TitleFor(title, k, |pages|), NavFor(uri, k, |pages|), base)
  }

  /** How pages are measured: the title, the base and the room left by the links. */
  method MakeFrame(baseTitle: string, uri: string, base: string, pageBytes: nat) returns (f: Frame)
    ensures f == FrameFor(baseTitle, uri, base, pageBytes)
  {
    hide UriPath, CompileCard, SetPage, NavLink;
    var basep := if |base| > |REFERENCE_BASE| then base else REFERENCE_BASE;
    var title := baseTitle + LONGEST_SUFFIX;
    var path := UriPath(uri);
    var prevHref := SetPageParam(path, 98, HREF_BUF);
    var nextHref := SetPageParam(path, 99, HREF_BUF);
    var probe := [NavLink(PREV, prevHref), NavLink(NEXT, nextHref)];
    var navCost := |CompileCard(title, [], probe, basep)| - |CompileCard(title, [], [], basep)|;
    navCost := navCost + 3;
    f := Frame(title, basep, if pageBytes > navCost + MIN_LIMIT then pageBytes - navCost else MIN_LIMIT);
  }

  method MakeNav(uri: string, k: nat, n: nat) returns (nav: seq<Node>)
    ensures nav == NavFor(uri, k, n)
  {
    hide SetPage, NavLink;
    nav := [];
    if k > 0 {
      var prevHref := SetPageParam(uri, k - 1, HREF_BUF);
      nav := nav + [NavLink(PREV, prevHref)];
    }
    if k < n - 1 {
      var nextHref := SetPageParam(uri, k + 1, HREF_BUF);
      nav := nav + [NavLink(NEXT, nextHref)];
    }
  }

  method PagedBuild(root: Node, uri: string, absolute: bool, page: int, pageBytes: nat) returns (pg: Paged)
    requires root.Elem?
    ensures pg == Build(root, uri, absolute, page, pageBytes)
  {
    hide CardOf, UriBase, CompileCard, PackAll, FrameFor, ShortTitle, ElementsOf, AttrOf, TitleFor, NavFor;
    var base := "";
    if absolute { base := UriBase(uri); }
    var card := CardOf(root);
    var baseTitle := ShortTitle(AttrOf(card.attrs, "title"));
    var queue := ElementsOf(card.kids);
    var pagev := [queue];
    if |CompileCard(baseTitle, queue, [], MeasureBase(base))| > pageBytes {
      var f := MakeFrame(baseTitle, uri, base, pageBytes);
      pagev := PackPages(f, queue);
    }
    var k := if page < 0 then 0 else if page >= |pagev| then |pagev| - 1 else page;
    var nav := MakeNav(uri, k, |pagev|);
    pg := Paged(pagev, k, TitleFor(baseTitle, k, |pagev|), nav, base);
  }

  /** wbxml_compile_page, once the source is parsed. */
  function CompilePage(root: Node, uri: string, page: int, pageBytes: nat): string
    requires root.Elem?
  {
    var pg := Build(root, uri, true, page, pageBytes);
    CompileCard(pg.title, pg.pages[pg.page], pg.nav, pg.base)
  }
}
