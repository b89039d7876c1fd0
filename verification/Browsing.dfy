/** A reader with a browser: following the links of the pages the gateway sends
    shows every page of the deck, one after the other. */
module Browsing {
  import opened Wbxml
  import opened PageNav
  import opened PageUri
  import opened Deck
  import opened PageBound
  import opened Delivery

  /** Where a link leads. */
  function HrefOf(n: Node): string {
    if n.Elem? && |n.kids| == 1 && n.kids[0].Elem? then AttrOf(n.kids[0].attrs, "href") else ""
  }

  /** The page sent for an address: the one its page parameter asks for. */
  function Served(root: Node, uri: string, pageBytes: nat): Paged
    requires root.Elem?
  {
    Build(root, uri, true, PageParam(uri), pageBytes)
  }

  /** The address reached from `uri` by following the last link n times. */
  function Followed(root: Node, uri: string, n: nat, pageBytes: nat): string
    requires root.Elem?
  {
    if n == 0 then uri
    else
      var nav := Served(root, Followed(root, uri, n - 1, pageBytes), pageBytes).nav;
      if nav == [] then "" else HrefOf(nav[|nav| - 1])
  }

  lemma LinkLeads(words: string, href: string)
    ensures HrefOf(NavLink(words, href)) == href
  {
    var attrs := [Attribute("href", href)];
    assert attrs[0] == Attribute("href", href);
  }

  // ---- The path of an orderly address ----------------------------------------------------------

  lemma SuffixOrderly(u: string, at: nat)
    requires Orderly(u) && at < |u| && u[at] == '/'
    ensures Orderly(u[at..])
  {
    hide DigitsEnd, IsNumbered;
    var v := u[at..];
    assert '#' !in v;
    forall q: nat | IsParam(v, q)
      ensures IsParam(u, at + q)
      ensures IsNumbered(v, q)
    {
      FirstOfParam(v, 0);
      assert u[at + q..at + q + |PARAM|] == v[q..q + |PARAM|];
      assert IsParam(u, at + q);
      NumberShifts(u, at, q);
    }
  }

  lemma NumberShifts(u: string, at: nat, q: nat)
    requires Orderly(u) && at < |u| && IsParam(u, at + q) && IsParam(u[at..], q)
    ensures IsNumbered(u[at..], q)
  {
    hide DigitsEnd, Orderly;
    assert u[..at] + u[at..] == u;
    DigitsEndShift(u[..at], u[at..], q + |PARAM|);
    NumberedTail(u, at + q);
  }

  // ---- The walk -----------------------------------------------------------------------------------

  /** A reader's first address: absolute and plain, orderly, without a page, with
      room for two digits. */
  ghost predicate FirstAddress(uri: string) {
    PlainUri(uri) && Orderly(uri) && !HasParam(uri) && |uri| + 10 < URI_BUF
  }

  /** The address with page k, itself for page 0. */
  function Address(uri: string, k: nat): string { if k == 0 then uri else SetPage(uri, k, HREF_BUF) }

  lemma TwoDigits(uri: string, k: nat)
    requires FirstAddress(uri) && k <= 99
    ensures RoomFor(uri, k, HREF_BUF)
  {
    hide Decimal, PlainUri, Orderly, HasParam;
    SmallDecimal(k);
  }

  lemma PageZero(uri: string)
    requires FirstAddress(uri)
    ensures SetPage(uri, 0, HREF_BUF) == uri && PageParam(uri) == 0
  {
    hide PlainUri, HasParam, NoFragment;
    PlainStripped(uri);
    NoParamMeans(uri);
  }

  /** Page k is asked for there, and the link to page j leads to its address. */
  lemma AtReads(uri: string, k: nat, j: nat)
    requires FirstAddress(uri) && k <= 99 && j <= 99
    ensures PageParam(Address(uri, k)) == k
    ensures SetPage(Address(uri, k), j, HREF_BUF) == Address(uri, j)
  {
    hide SetPage, PageParam, PlainUri, Orderly, HasParam, RoomFor;
    PageZero(uri);
    TwoDigits(uri, k);
    TwoDigits(uri, j);
    OrderlyNavigates(uri, k, j, HREF_BUF);
    OrderlyNavigates(uri, j, k, HREF_BUF);
  }

  /** The pages are the same at every address of the walk. */
  lemma SameList(root: Node, uri: string, k: nat, pageBytes: nat)
    requires root.Elem? && FirstAddress(uri) && k <= 99
    ensures Served(root, Address(uri, k), pageBytes).pages == Served(root, uri, pageBytes).pages
  {
    hide SetPage, PageParam, HasParam, PagesFor, NavFor, TitleFor, BlocksOf, BaseTitle, UriBase, Orderly;
    PageZero(uri);
    var title, blocks := BaseTitle(root), BlocksOf(root);
    PathOrderly(uri);
    LinksKeepPages(uri, k, title, blocks, pageBytes);
  }

  lemma PathOrderly(uri: string)
    requires FirstAddress(uri)
    ensures var b := Stripped(UriPath(uri)); Settled(b) && |b| + 10 < URI_BUF
  {
    hide HasParam, Stripped, Orderly, PathAt, Settled;
    SuffixOrderly(uri, PathAt(uri));
    OrderlySettles(uri[PathAt(uri)..]);
  }

  /** Following Next from the first address shows page n of the deck after n
      steps, for every page there is, and Prev leads back. */
  lemma {:induction false} EveryPageIsShown(root: Node, uri: string, n: nat, pageBytes: nat)
    requires root.Elem? && FirstAddress(uri)
    requires n < |Served(root, uri, pageBytes).pages| <= 99
    ensures var here := Followed(root, uri, n, pageBytes);
            var pg := Served(root, here, pageBytes);
            && here == Address(uri, n)
            && pg.page == n && pg.pages == Served(root, uri, pageBytes).pages
            && (n > 0 ==> pg.nav != [] && HrefOf(pg.nav[0]) == Followed(root, uri, n - 1, pageBytes))
            && |pg.nav| == (if n > 0 then 1 else 0) + (if n < |pg.pages| - 1 then 1 else 0)
  {
    hide SetPage, PageParam, FirstAddress, PagesFor, BlocksOf, BaseTitle, UriBase, NavLink, HrefOf, TitleFor;
    var pages := Served(root, uri, pageBytes).pages;
    if n > 0 {
      EveryPageIsShown(root, uri, n - 1, pageBytes);
      var before := Address(uri, n - 1);
      AtReads(uri, n - 1, n);
      LinkLeads(NEXT, SetPage(before, n, HREF_BUF));
      AtReads(uri, n, n - 1);
      LinkLeads(PREV, SetPage(Address(uri, n), n - 1, HREF_BUF));
    }
    AtReads(uri, n, n);
    SameList(root, uri, n, pageBytes);
  }
}
