/** Which card of a deck is shown, under which title and with which links: find_card,
    utf8_truncate, uri_base and the end of paged_build in src/wap_gateway/wbxml.c. */
module PageHeads {
  import opened Ascii
  import opened Wbxml
  import opened PageNav
  import opened Deck
  import opened Browsing

  // ---- The card ----------------------------------------------------------------------------------

  /** The elements of a tree in the order their start tags stand in the source. */
  function InOrder(n: Node): seq<Node>
    decreases n, 1
  {
    if n.Text? then [] else [n] + AllInOrder(n.kids)
  }

  function AllInOrder(ns: seq<Node>): seq<Node>
    decreases ns, 0
  {
    if ns == [] then [] else InOrder(ns[0]) + AllInOrder(ns[1..])
  }

  predicate IsCard(n: Node) { n.Elem? && LowerAll(n.name) == "card" }

  /** r holds the first card of the list, and nothing if there is none. */
  ghost predicate FirstCard(ns: seq<Node>, r: seq<Node>) {
    if r == [] then forall i :: 0 <= i < |ns| ==> !IsCard(ns[i])
    else exists i :: 0 <= i < |ns| && r == [ns[i]] && IsCard(ns[i]) && forall j :: 0 <= j < i ==> !IsCard(ns[j])
  }

  lemma FirstOf(a: seq<Node>, ra: seq<Node>, b: seq<Node>, rb: seq<Node>)
    requires FirstCard(a, ra) && FirstCard(b, rb)
    ensures FirstCard(a + b, if ra != [] then ra else rb)
  {
    hide IsCard;
    var ns := a + b;
    if ra != [] {
      var i :| 0 <= i < |a| && ra == [a[i]] && IsCard(a[i]) && forall j :: 0 <= j < i ==> !IsCard(a[j]);
      assert ns[i] == a[i] && forall j :: 0 <= j < i ==> ns[j] == a[j];
    } else if rb != [] {
      var i :| 0 <= i < |b| && rb == [b[i]] && IsCard(b[i]) && forall j :: 0 <= j < i ==> !IsCard(b[j]);
      var k := |a| + i;
      assert ns[k] == b[i] && forall j :: 0 <= j < k ==> ns[j] == if j < |a| then a[j] else b[j - |a|];
    }
  }

  /** The card shown is the first one of the source. */
  lemma {:induction false} CardIsFirst(n: Node)
    ensures FirstCard(InOrder(n), FindCard(n))
    decreases n, 1
  {
    if n.Elem? {
      AllCardIsFirst(n.kids);
      var r := if IsCard(n) then [n] else [];
      assert FirstCard([n], r) by { OneCard(n); }
      FirstOf([n], r, AllInOrder(n.kids), FindCardIn(n.kids));
    }
  }

  lemma OneCard(n: Node)
    ensures FirstCard([n], if IsCard(n) then [n] else [])
  {
    if IsCard(n) { assert [n] == [[n][0]]; }
  }

  lemma {:induction false} AllCardIsFirst(ns: seq<Node>)
    ensures FirstCard(AllInOrder(ns), FindCardIn(ns))
    decreases ns, 0
  {
    hide FindCard, InOrder, IsCard;
    if ns != [] {
      CardIsFirst(ns[0]);
      AllCardIsFirst(ns[1..]);
      hide FirstCard;
      FirstOf(InOrder(ns[0]), FindCard(ns[0]), AllInOrder(ns[1..]), FindCardIn(ns[1..]));
    }
  }

  /** The blocks of a card are its element children, all of them and in order. */
  lemma {:induction false} BlocksAre(ns: seq<Node>, n: Node)
    ensures ElementsOf([]) == [] && ElementsOf(ns + [n]) == ElementsOf(ns) + if n.Elem? then [n] else []
  {
    if ns == [] {
      assert ns + [n] == [n] && [n][1..] == [];
    } else {
      assert (ns + [n])[0] == ns[0] && (ns + [n])[1..] == ns[1..] + [n];
      BlocksAre(ns[1..], n);
    }
  }

  // ---- The title ------------------------------------------------------------------------------------

  lemma {:induction false} CutIsLast(s: string, n: nat, m: nat)
    requires m <= n <= |s| && !IsContinuation(At(s, m))
    ensures m <= Utf8Cut(s, n) && (Utf8Cut(s, n) > 0 ==> !IsContinuation(At(s, Utf8Cut(s, n))))
  {
    if m < n && IsContinuation(At(s, n)) { CutIsLast(s, n - 1, m); }
  }

  lemma {:induction false} CutIsWhole(s: string, n: nat)
    requires n <= |s|
    ensures Utf8Cut(s, n) > 0 ==> !IsContinuation(At(s, Utf8Cut(s, n)))
  {
    if n > 0 && IsContinuation(At(s, n)) { CutIsWhole(s, n - 1); }
  }

  /** A title keeps as many of its first 30 bytes as make whole characters; a shorter one
      is kept as it is. */
  lemma TitleKept(s: string, m: nat)
    requires m <= |s| && m <= 30 && !IsContinuation(At(s, m))
    ensures s[..m] <= ShortTitle(s) && |ShortTitle(s)| <= 30
    ensures ShortTitle(s) != "" ==> !IsContinuation(At(s, |ShortTitle(s)|))
    ensures |s| <= 30 ==> ShortTitle(s) == s
  {
    var n := if |s| > 30 then 30 else |s|;
    CutIsLast(s, n, m);
    CutIsWhole(s, n);
    if |s| <= 30 { CutIsLast(s, n, |s|); }
  }

  /** A page of several says in its title which one it is and how many there are. */
  lemma TitleNumbers(title: string, k: nat, n: nat) returns (a: string, b: string)
    ensures (forall i :: 0 <= i < |a| ==> IsDigit(a[i])) && (forall i :: 0 <= i < |b| ==> IsDigit(b[i]))
    ensures Number(a) == k + 1 && Number(b) == n
    ensures TitleFor(title, k, n) == if n > 1 then title + " (" + a + "/" + b + ")" else title
  {
    hide Decimal, Number;
    a, b := Decimal(k + 1), Decimal(n);
    assert title + (" (" + a + "/" + b + ")") == title + " (" + a + "/" + b + ")";
  }

  // ---- The links ---------------------------------------------------------------------------------------

  /** What a link shows. */
  function LabelOf(n: Node): string {
    if n.Elem? && |n.kids| == 1 && n.kids[0].Elem? && |n.kids[0].kids| == 1 && n.kids[0].kids[0].Text?
    then n.kids[0].kids[0].text else ""
  }

  /** Behind a page there is a link back to the one before it and one on to the one after
      it, in that order, each where there is such a page. */
  lemma LinksAre(uri: string, k: nat, n: nat)
    requires k < n
    ensures var nav := NavFor(uri, k, n);
            && |nav| == (if k > 0 then 1 else 0) + (if k + 1 < n then 1 else 0)
            && (k > 0 ==> LabelOf(nav[0]) == "<< Prev" && HrefOf(nav[0]) == SetPage(uri, k - 1, HREF_BUF))
            && (k + 1 < n ==> LabelOf(nav[|nav| - 1]) == "Next >>" && HrefOf(nav[|nav| - 1]) == SetPage(uri, k + 1, HREF_BUF))
  {
    hide SetPage, HrefOf;
    if k > 0 { LinkLeads(PREV, SetPage(uri, k - 1, HREF_BUF)); }
    LinkLeads(NEXT, SetPage(uri, k + 1, HREF_BUF));
  }

  // ---- The address ----------------------------------------------------------------------------------------

  /** An absolute address is its scheme and host followed by its path, which starts with a
      slash; the host has none. */
  lemma AddressParts(uri: string) returns (i: nat)
    requires IsAbsolute(uri) && PathAt(uri) < BASE_BUF
    ensures UriBase(uri) + UriPath(uri) == if PathAt(uri) < |uri| then uri else uri + "/"
    ensures UriPath(uri)[..1] == "/"
    ensures i + 3 <= |UriBase(uri)| && UriBase(uri)[i..i + 3] == "://" && '/' !in UriBase(uri)[i + 3..]
  {
    hide Find, FindStr;
    i := FindStr(uri, 0, "://");
    var p := PathAt(uri);
    var base := UriBase(uri);
    assert base == uri[..p];
    assert base[i..i + 3] == uri[i..i + 3];
    assert forall j :: i + 3 <= j < p ==> uri[j] != '/';
    var host := base[i + 3..];
    assert forall j :: 0 <= j < |host| ==> host[j] == uri[i + 3 + j];
  }

  /** Asked for a page there is not, a deck shows the one nearest to it. */
  lemma NearestPage(page: int, n: nat, j: nat)
    requires j < n
    ensures Distance(page, Clamped(page, n)) <= Distance(page, j)
  {}

  function Distance(a: int, b: int): nat { if a <= b then b - a else a - b }
}
