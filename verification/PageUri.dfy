/** Page links from the URI itself: which addresses navigation works for, and
    addresses for which it does not. */
module PageUri {
  import opened Ascii
  import opened PageNav

  /** The page parameter at p is a number up to the end or the next parameter. */
  predicate IsNumbered(u: string, p: nat)
    requires IsParam(u, p)
  {
    var end := DigitsEnd(u, p + |PARAM|);
    end == |u| || u[end] == '&'
  }

  /** Starts like a path or a scheme, has no fragment, no empty parameter and no
      separator at its end, fits the buffer, and has at most one page parameter,
      which is a number. */
  ghost predicate Orderly(u: string) {
    && u != "" && u[0] != '_' && '#' !in u && |u| < URI_BUF && !EndsWithSep(u)
    && (forall i :: 0 < i < |u| ==> !(IsSep(u[i - 1]) && IsSep(u[i])))
    && (forall p: nat, q: nat :: IsParam(u, p) && IsParam(u, q) ==> p == q)
    && (forall p: nat :: IsParam(u, p) ==> IsNumbered(u, p))
  }

  /** A URI with a page parameter in its parts. */
  lemma ParamParts(u: string, p: nat)
    requires IsParam(u, p) && p > 0
    ensures var end := DigitsEnd(u, p + |PARAM|);
            && u == u[..p - 1] + [u[p - 1]] + (PARAM + (u[p + |PARAM|..end] + u[end..]))
            && AllDigits(u[p + |PARAM|..end])
  {
    hide DigitsEnd;
    var end := DigitsEnd(u, p + |PARAM|);
    var ds := u[p + |PARAM|..end];
    assert u[p..p + |PARAM|] == PARAM;
    assert PARAM + (ds + u[end..]) == u[p..];
  }

  lemma FrontHasNoParam(u: string, p: nat)
    requires Orderly(u) && IsParam(u, p) && p > 0
    ensures !HasParam(u[..p - 1])
  {
    hide ParamAt, Orderly, HasParam, IsNumbered;
    var x := u[..p - 1];
    forall q | 0 <= q < |x| ensures !IsParam(x, q) {
      if IsParam(x, q) {
        assert u[q..q + |PARAM|] == x[q..q + |PARAM|];
        SameParam(u, q, p);
      }
    }
    NoParamFrom(x);
  }

  lemma SameParam(u: string, q: nat, p: nat)
    requires Orderly(u) && IsParam(u, q) && IsParam(u, p)
    ensures q == p
  {
    hide IsNumbered, IsParam;
  }

  /** Without the one parameter there is none. */
  lemma RestHasNoParam(u: string, p: nat, end: nat)
    requires Orderly(u) && IsParam(u, p) && 0 < p && p + |PARAM| <= end < |u| && u[end] == '&'
    ensures !HasParam(u[..p] + u[end + 1..])
  {
    hide ParamAt, Orderly, HasParam, IsNumbered;
    var v := u[..p] + u[end + 1..];
    forall q | 0 <= q < |v| ensures !IsParam(v, q) {
      if IsParam(v, q) {
        var d := end + 1 - p;
        if q + |PARAM| <= p {
          assert u[q..q + |PARAM|] == v[q..q + |PARAM|];
          SameParam(u, q, p);
        } else if q < p {
          NoSepInside(v, q, p - 1 - q);
        } else {
          assert u[q + d..q + d + |PARAM|] == v[q..q + |PARAM|];
          assert u[q + d - 1] == (if q == p then '&' else v[q - 1]);
          SameParam(u, q + d, p);
        }
      }
    }
    NoParamFrom(v);
  }

  /** What is left of an orderly URI without its page has no page and does not
      end in a separator. */
  lemma OrderlySettles(u: string)
    requires Orderly(u)
    ensures Settled(Stripped(u)) && |Stripped(u)| <= |u|
  {
    hide ParamAt, HasParam, DropParam, NoFragment, IsNumbered;
    NoHash(u);
    if !HasParam(u) {
      PlainStripped(u);
    } else {
      var p := FirstParam(u);
      ParamSettles(u, p);
    }
  }

  lemma ParamSettles(u: string, p: nat)
    requires Orderly(u) && IsParam(u, p) && 0 < p < |u|
    ensures Settled(DropParam(u)) && |DropParam(u)| <= |u|
  {
    hide ParamAt, HasParam, DropParam, IsNumbered, DigitsEnd, EndsWithSep, AllDigits;
    var end := DigitsEnd(u, p + |PARAM|);
    var x, sep, ds, tail := u[..p - 1], u[p - 1], u[p + |PARAM|..end], u[end..];
    ParamParts(u, p);
    FrontHasNoParam(u, p);
    NumberedTail(u, p);
    SepBefore(u, p);
    DropWritten(x, sep, ds, tail);
    if tail == "" {
      NoSepAtEnd(x);
    } else {
      RestHasNoParam(u, p, end);
      assert tail[1..] == u[end + 1..];
      assert u[..p] == x + [sep];
      EndKept(u, p, end);
      NoSepAtEnd(u[..p] + u[end + 1..]);
    }
  }

  lemma SepBefore(u: string, p: nat)
    requires Orderly(u) && IsParam(u, p) && 0 < p < |u|
    ensures IsSep(u[p - 1]) && !EndsWithSep(u[..p - 1])
  {
    hide IsNumbered, HasAt;
  }

  lemma NoSepAtEnd(x: string)
    requires !EndsWithSep(x)
    ensures DropLastSep(x) == x
  {}

  lemma FirstParam(u: string) returns (p: nat)
    requires HasParam(u) && u != "" && u[0] != '_'
    ensures IsParam(u, p) && 0 < p < |u|
  {
    hide ParamAt;
    p := ParamAt(u, 0);
    ParamAtIsFirst(u, 0);
    FirstOfParam(u, 0);
  }

  lemma NumberedTail(u: string, p: nat)
    requires Orderly(u) && IsParam(u, p)
    ensures var end := DigitsEnd(u, p + |PARAM|); end == |u| || u[end] == '&'
  {
    assert IsNumbered(u, p);
  }

  lemma EndKept(u: string, p: nat, end: nat)
    requires !EndsWithSep(u) && 0 < p <= end < |u| && u[end] == '&'
    ensures !EndsWithSep(u[..p] + u[end + 1..])
  {
    var v := u[..p] + u[end + 1..];
    assert end + 1 < |u|;
    assert v[|v| - 1] == u[|u| - 1];
  }

  // ---- Navigation from an orderly URI --------------------------------------------------------

  /** There is room to write page k behind the URI. */
  predicate RoomFor(u: string, k: nat, size: nat) {
    |u| + 8 + |Decimal(k)| < size && |u| + 8 + |Decimal(k)| < URI_BUF
  }

  lemma RoomIsThere(u: string, k: nat, size: nat)
    requires Orderly(u) && RoomFor(u, k, size)
    ensures Roomy(Stripped(u), k, size)
  {
    hide Decimal, Stripped, Orderly;
    OrderlySettles(u);
  }

  /** For every orderly URI, setting a page and reading it gives that page, and
      setting it over another equals setting it at once. */
  lemma OrderlyNavigates(u: string, j: nat, k: nat, size: nat)
    requires Orderly(u) && RoomFor(u, j, size) && RoomFor(u, k, size)
    ensures PageParam(SetPage(u, k, size)) == k
    ensures SetPage(SetPage(u, j, size), k, size) == SetPage(u, k, size)
  {
    hide Decimal, Stripped, Orderly, RoomFor, Settled, HasParam, WithPage, PageParam;
    OrderlySettles(u);
    RoomIsThere(u, j, size);
    RoomIsThere(u, k, size);
    SetAgain(u, j, k, size);
    NotTruncated(u, k, size);
    SettledHasNone(Stripped(u));
    ReadBack(Stripped(u), k);
  }

  lemma SettledHasNone(b: string)
    requires Settled(b)
    ensures !HasParam(b)
  {}

  /** Following Next from page 0 of an orderly URI visits page n after n steps,
      and Prev goes back. */
  lemma OrderlyWalk(u: string, n: nat, size: nat)
    requires Orderly(u) && forall k: nat | k <= n :: RoomFor(u, k, size)
    ensures Walk(u, n, size) == SetPage(u, n, size) && PageParam(Walk(u, n, size)) == n
    ensures n > 0 ==> SetPage(Walk(u, n, size), n - 1, size) == Walk(u, n - 1, size)
  {
    hide Decimal, Stripped, Orderly, RoomFor, Settled, Roomy, PageParam;
    OrderlySettles(u);
    forall k: nat | k <= n ensures Roomy(Stripped(u), k, size) { RoomIsThere(u, k, size); }
    WalkVisits(u, n, size);
  }

  // ---- Two URIs for which it does not work -------------------------------------------------------

  const TWO_PAGES: string := "/a?__page=1&__page=2"
  const OPEN_QUERY: string := "/a?"

  lemma ShortHasNoParam(u: string)
    requires |u| < |PARAM|
    ensures !HasParam(u)
  {
    hide ParamAt;
    forall i | 0 <= i < |u| ensures !IsParam(u, i) {}
    NoParamFrom(u);
  }

  lemma DecimalsSpelled()
    ensures Decimal(1) == "1" && Decimal(2) == "2" && Decimal(3) == "3"
  {}

  /** A second page parameter survives and wins: page 3 set, page 2 read. */
  lemma SecondParamExample()
    ensures PageParam(SetPage(TWO_PAGES, 3, 1100)) == 2
  {
    hide ParamAt, HasParam, DropParam, PageParam, Decimal, NoFragment, WithPage;
    var u := TWO_PAGES;
    var b := "/a" + ['?'] + (PARAM + "2");
    ShortHasNoParam("/a");
    DecimalsSpelled();
    assert u == "/a" + ['?'] + (PARAM + ("1" + ("&" + (PARAM + "2"))));
    assert '#' !in u;
    NoHash(u);
    assert AllDigits("1");
    DropWritten("/a", '?', "1", "&" + (PARAM + "2"));
    assert ("&" + (PARAM + "2"))[1..] == PARAM + "2";
    assert b[|b| - 1] == '2';
    NoSepAtEnd(b);
    assert b == WithPage("/a", 2) by { PageTwoSpelled(); }
    ReadBack("/a", 2);
    WrittenParam("/a", '?', "2");
    assert HasParam(b) by { OneIsThere(b); }
    LeftoverWins(b, 3);
    assert |WithPage(b, 3)| < 1100 by { PageThreeShort(b); }
  }

  lemma PageTwoSpelled()
    ensures WithPage("/a", 2) == "/a" + ['?'] + (PARAM + "2")
  {
    hide Decimal;
    DecimalsSpelled();
  }

  lemma PageThreeShort(b: string)
    ensures |WithPage(b, 3)| <= |b| + 9
  {
    hide Decimal;
    DecimalsSpelled();
  }

  lemma OneIsThere(b: string)
    requires ParamAt(b, 0) < |b|
    ensures HasParam(b)
  {}

  /** A bare separator at the end is lost when a page is set again. */
  lemma OpenQueryExample()
    ensures SetPage(SetPage(OPEN_QUERY, 1, 1100), 2, 1100) != SetPage(OPEN_QUERY, 2, 1100)
  {
    hide HasParam, SetPage, Stripped, Decimal;
    ShortHasNoParam(OPEN_QUERY);
    PlainStripped(OPEN_QUERY);
    DecimalsSpelled();
    SetTwice(OPEN_QUERY, 1, 2, 1100);
  }
}
