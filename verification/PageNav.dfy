/** The page number in a URI: wbxml_page_param and wbxml_set_page_param of
    src/wap_gateway/wbxml.c, and walking the pages by their links. */
module PageNav {
  import opened Ascii

  const PARAM: string := "__page="

  predicate IsSep(c: char) { c == '?' || c == '&' }

  /** A page parameter starts at u[p]: the name, at the very start or after a separator. */
  predicate IsParam(u: string, p: nat) { HasAt(u, p, PARAM) && (p == 0 || IsSep(u[p - 1])) }

  /** The first page parameter at or after `from`, |u| if there is none. */
  function ParamAt(u: string, from: nat): (r: nat)
    requires from <= |u|
    ensures from <= r <= |u|
    ensures r < |u| ==> HasAt(u, r, PARAM)
    decreases |u| - from
  {
    var p := FindStr(u, from, PARAM);
    if p == |u| || p == 0 || IsSep(u[p - 1]) then p else ParamAt(u, p + 1)
  }

  predicate HasParam(u: string) { ParamAt(u, 0) < |u| }

  function DigitsEnd(s: string, i: nat): (r: nat)
    requires i <= |s|
    ensures i <= r <= |s|
    ensures forall k :: i <= k < r ==> IsDigit(s[k])
    ensures r < |s| ==> !IsDigit(s[r])
    decreases |s| - i
  {
    if i < |s| && IsDigit(s[i]) then DigitsEnd(s, i + 1) else i
  }

  function DigitValue(c: char): nat
    requires IsDigit(c)
  {
    c as int - '0' as int
  }

  /** The number a string of digits writes. */
  function Number(ds: string): nat
    requires forall i :: 0 <= i < |ds| ==> IsDigit(ds[i])
  {
    if ds == "" then 0 else 10 * Number(ds[..|ds| - 1]) + DigitValue(ds[|ds| - 1])
  }

  function SpacesEnd(s: string, i: nat): (r: nat)
    requires i <= |s|
    ensures i <= r <= |s|
    decreases |s| - i
  {
    if i < |s| && IsSpace(s[i]) then SpacesEnd(s, i + 1) else i
  }

  /** atoi(): optional white space, an optional sign, the digits that follow. */
  function Atoi(s: string): int {
    var i := SpacesEnd(s, 0);
    var neg := At(s, i) == '-';
    var j := if neg || At(s, i) == '+' then i + 1 else i;
    var n: int := Number(s[j..DigitsEnd(s, j)]);
    if neg then -n else n
  }

  /** "%d" of a number that is not negative. */
  function Decimal(n: nat): (s: string)
    ensures |s| > 0
    ensures forall i :: 0 <= i < |s| ==> IsDigit(s[i])
    ensures Number(s) == n
  {
    var d := [(('0' as int) + n % 10) as char];
    if n < 10 then d else Decimal(n / 10) + d
  }

  function PageParam(u: string): int {
    var p := ParamAt(u, 0);
    if p < |u| then Atoi(u[p + |PARAM|..]) else 0
  }

  const URI_BUF: nat := 1024

  /** snprintf into a buffer of `size` bytes. */
  function Truncated(s: string, size: nat): (r: string)
    ensures |s| < size ==> r == s
  {
    if |s| < size then s else if size == 0 then "" else s[..size - 1]
  }

  function NoFragment(u: string): string { u[..Find(u, 0, '#')] }

  function DropLastSep(u: string): string {
    if u != "" && IsSep(u[|u| - 1]) then u[..|u| - 1] else u
  }

  /** What goes with the parameter u[p..end): the '&' after it, or else the separator before it. */
  function Span(u: string, p: nat, end: nat): (r: (nat, nat))
    requires p <= end <= |u|
    ensures r.0 <= r.1 <= |u|
  {
    if At(u, end) == '&' then (p, end + 1)
    else if p > 0 && IsSep(u[p - 1]) then (p - 1, end)
    else (p, end)
  }

  function Spliced(u: string, p: nat, end: nat): string
    requires p <= end <= |u|
  {
    var (i, j) := Span(u, p, end);
    u[..i] + u[j..]
  }

  /** The URI without its first page parameter and that parameter's separator. */
  function DropParam(u: string): string {
    var p := ParamAt(u, 0);
    if p == |u| then u
    else
      DropLastSep(Spliced(u, p, DigitsEnd(u, p + |PARAM|)))
  }

  /** What wbxml_set_page_param keeps of a URI before it writes a page number. */
  function Stripped(u: string): string { DropParam(NoFragment(Truncated(u, URI_BUF))) }

  function WithPage(b: string, k: int): string {
    if k <= 0 then b else b + [if '?' in b then '&' else '?'] + (PARAM + Decimal(k))
  }

  function SetPage(u: string, k: int, size: nat): string { Truncated(WithPage(Stripped(u), k), size) }

  method FindParam(u: string) returns (p: nat)
    ensures p == ParamAt(u, 0)
  {
    hide ParamAt, FindStr;
    p := FindStr(u, 0, PARAM);
    ParamFound(u, 0);
    while p < |u| && p > 0 && !IsSep(u[p - 1])
      invariant p <= |u|
      invariant ParamAt(u, 0) == if p == |u| || p == 0 || IsSep(u[p - 1]) then p else ParamAt(u, p + 1)
      decreases |u| - p
    {
      ParamFound(u, p + 1);
      p := FindStr(u, p + 1, PARAM);
    }
  }

  lemma ParamFound(u: string, from: nat)
    requires from <= |u|
    ensures var p := FindStr(u, from, PARAM);
            ParamAt(u, from) == if p == |u| || p == 0 || IsSep(u[p - 1]) then p else ParamAt(u, p + 1)
  {
    hide FindStr;
  }

  method ReadPageParam(u: string) returns (k: int)
    ensures k == PageParam(u)
  {
    hide ParamAt, Atoi;
    var p := FindParam(u);
    k := if p < |u| then Atoi(u[p + |PARAM|..]) else 0;
  }

  method SkipDigits(u: string, i: nat) returns (end: nat)
    requires i <= |u|
    ensures end == DigitsEnd(u, i)
  {
    end := i;
    while end < |u| && IsDigit(u[end])
      invariant i <= end <= |u|
      invariant DigitsEnd(u, end) == DigitsEnd(u, i)
    {
      end := end + 1;
    }
  }

  method Splice(u: string, from: nat, to: nat) returns (base: string)
    requires from <= to <= |u|
    ensures base == Spliced(u, from, to)
  {
    var p, end := from, to;
    if At(u, end) == '&' { end := end + 1; }
    else if p > 0 && IsSep(u[p - 1]) { p := p - 1; }
    base := u[..p] + u[end..];
  }

  /** The middle of wbxml_set_page_param: removing the parameter at p. */
  method RemoveParam(u: string) returns (base: string)
    ensures base == DropParam(u)
  {
    hide ParamAt, HasAt, DigitsEnd, Spliced;
    base := u;
    var p := FindParam(u);
    if p == |u| { return; }
    ParamRoom(u, p);
    var end := SkipDigits(u, p + |PARAM|);
    base := Splice(u, p, end);
    if |base| != 0 && IsSep(base[|base| - 1]) { base := base[..|base| - 1]; }
  }

  lemma ParamRoom(u: string, p: nat)
    requires HasAt(u, p, PARAM)
    ensures p + |PARAM| <= |u|
  {}

  method SetPageParam(u: string, k: int, size: nat) returns (out: string)
    ensures out == SetPage(u, k, size)
  {
    hide DropParam;
    var base := Truncated(u, URI_BUF);
    base := base[..Find(base, 0, '#')];
    base := RemoveParam(base);
    if k <= 0 { out := Truncated(base, size); }
    else { out := Truncated(base + [if '?' in base then '&' else '?'] + (PARAM + Decimal(k)), size); }
  }

  // ---- Finding the parameter ---------------------------------------------------------

  lemma {:induction false} ParamAtIsFirst(u: string, from: nat)
    requires from <= |u|
    ensures var r := ParamAt(u, from);
            (r < |u| ==> IsParam(u, r)) && forall q :: from <= q < r ==> !IsParam(u, q)
    decreases |u| - from
  {
    hide HasAt, FindStr;
    var p := FindStr(u, from, PARAM);
    if !(p == |u| || p == 0 || IsSep(u[p - 1])) { ParamAtIsFirst(u, p + 1); }
  }

  lemma ParamAtIs(u: string, r: nat)
    requires r < |u| && IsParam(u, r) && forall q :: 0 <= q < r ==> !IsParam(u, q)
    ensures ParamAt(u, 0) == r
  {
    hide ParamAt, IsParam;
    ParamAtIsFirst(u, 0);
    assert !(ParamAt(u, 0) < r);
    assert !(r < ParamAt(u, 0));
  }

  lemma NoParamIn(b: string, q: nat)
    requires !HasParam(b)
    ensures !IsParam(b, q)
  {
    hide ParamAt;
    ParamAtIsFirst(b, 0);
    if q >= |b| { assert !HasAt(b, q, PARAM); }
  }

  lemma NoParamFrom(q: string)
    requires forall i :: 0 <= i < |q| ==> !IsParam(q, i)
    ensures !HasParam(q)
  {
    hide ParamAt, IsParam;
    ParamAtIsFirst(q, 0);
  }

  lemma FirstOfParam(u: string, q: nat)
    requires q < |u| && u[q] != '_'
    ensures !HasAt(u, q, PARAM)
  {
    if q + |PARAM| <= |u| { assert u[q..q + |PARAM|][0] == u[q]; }
  }

  lemma NoSepInside(u: string, q: nat, i: nat)
    requires i < |PARAM| && q + i < |u| && IsSep(u[q + i])
    ensures !HasAt(u, q, PARAM)
  {
    assert !IsSep(PARAM[i]);
    if q + |PARAM| <= |u| { assert u[q..q + |PARAM|][i] == u[q + i]; }
  }

  /** After a URI without one, the parameter WithPage writes is the one found. */
  lemma WrittenParam(b: string, sep: char, ds: string)
    requires !HasParam(b) && IsSep(sep)
    ensures ParamAt(b + [sep] + (PARAM + ds), 0) == |b| + 1
  {
    hide ParamAt, HasParam;
    var u := b + [sep] + (PARAM + ds);
    var at := |b| + 1;
    assert u[at..at + |PARAM|] == PARAM;
    assert u[at - 1] == sep;
    forall q | 0 <= q < at ensures !IsParam(u, q) {
      if q + |PARAM| <= |b| {
        assert b[q..q + |PARAM|] == u[q..q + |PARAM|];
        NoParamIn(b, q);
      } else {
        NoSepInside(u, q, |b| - q);
      }
    }
    ParamAtIs(u, at);
  }

  // ---- Reading back and setting again -------------------------------------------------

  lemma NumberDigitsEnd(ds: string)
    requires forall i :: 0 <= i < |ds| ==> IsDigit(ds[i])
    ensures DigitsEnd(ds, 0) == |ds|
  {
  }

  lemma AtoiDecimal(k: nat)
    ensures Atoi(Decimal(k)) == k
  {
    hide Decimal;
    var s := Decimal(k);
    assert IsDigit(s[0]);
    NumberDigitsEnd(s);
    assert s[0..|s|] == s;
  }

  /** No truncation when page `k` is written after `b`. */
  predicate Roomy(b: string, k: int, size: nat) {
    |WithPage(b, k)| < size && |WithPage(b, k)| < URI_BUF
  }

  function SepFor(b: string): char { if '?' in b then '&' else '?' }

  lemma ReadBack(b: string, k: nat)
    requires !HasParam(b)
    ensures PageParam(WithPage(b, k)) == k
  {
    hide ParamAt, Atoi, Decimal, HasParam;
    if k > 0 {
      var ds := Decimal(k);
      var u := b + [SepFor(b)] + (PARAM + ds);
      WrittenParam(b, SepFor(b), ds);
      assert u[|b| + 1 + |PARAM|..] == ds;
      AtoiDecimal(k);
    } else {
      assert ParamAt(b, 0) == |b| by { NoParamMeans(b); }
    }
  }

  lemma NoParamMeans(b: string)
    requires !HasParam(b)
    ensures ParamAt(b, 0) == |b|
  {}

  lemma {:induction false} SpacesEndStops(x: string, y: string, i: nat)
    requires i <= |x| && y != "" && !IsSpace(y[0])
    ensures SpacesEnd(x + y, i) == SpacesEnd(x, i)
    decreases |x| - i
  {
    if i < |x| && IsSpace(x[i]) { SpacesEndStops(x, y, i + 1); }
  }

  lemma {:induction false} DigitsEndStops(x: string, y: string, i: nat)
    requires i <= |x| && y != "" && !IsDigit(y[0])
    ensures DigitsEnd(x + y, i) == DigitsEnd(x, i)
    decreases |x| - i
  {
    if i < |x| && IsDigit(x[i]) { DigitsEndStops(x, y, i + 1); }
  }

  lemma AtoiStops(x: string, y: string)
    requires y != "" && IsSep(y[0])
    ensures Atoi(x + y) == Atoi(x)
  {
    hide SpacesEnd, DigitsEnd;
    var i := SpacesEnd(x, 0);
    SpacesEndStops(x, y, 0);
    var j := if At(x, i) == '-' || At(x, i) == '+' then i + 1 else i;
    assert At(x + y, i) == (if i < |x| then x[i] else y[0]);
    DigitsEndStops(x, y, j);
    assert (x + y)[j..DigitsEnd(x, j)] == x[j..DigitsEnd(x, j)];
  }

  /** A parameter left behind hides every page number written after it. */
  lemma LeftoverWins(b: string, k: int)
    requires HasParam(b)
    ensures PageParam(WithPage(b, k)) == PageParam(b)
  {
    hide ParamAt, Atoi, Decimal, HasAt;
    var p := ParamAt(b, 0);
    ParamAtIsFirst(b, 0);
    ParamRoom(b, p);
    if k > 0 {
      var more := [SepFor(b)] + (PARAM + Decimal(k));
      var u := b + more;
      assert WithPage(b, k) == u;
      SameFirst(b, more, p);
      assert u[p + |PARAM|..] == b[p + |PARAM|..] + more;
      AtoiStops(b[p + |PARAM|..], more);
    }
  }

  lemma SameFirst(b: string, more: string, p: nat)
    requires p < |b| && IsParam(b, p) && forall q :: 0 <= q < p ==> !IsParam(b, q)
    ensures ParamAt(b + more, 0) == p
  {
    hide ParamAt;
    var u := b + more;
    forall q | 0 <= q <= p ensures IsParam(u, q) == IsParam(b, q) {
      assert HasAt(b, p, PARAM);
      assert q + |PARAM| <= |b| && b[q..q + |PARAM|] == u[q..q + |PARAM|];
    }
    ParamAtIs(u, p);
  }

  /** Reading the page number back: it works, for every number that fits, exactly
      when the URI has no second page parameter. */
  lemma PageReadsBack(u: string, size: nat)
    requires Roomy(Stripped(u), 2, size)
    ensures (forall k: nat | Roomy(Stripped(u), k, size) :: PageParam(SetPage(u, k, size)) == k)
            <==> !HasParam(Stripped(u))
  {
    hide Stripped, PageParam, HasParam, WithPage;
    var b := Stripped(u);
    if HasParam(b) {
      LeftoverWins(b, 1);
      LeftoverWins(b, 2);
      assert Roomy(b, 1, size) by { RoomForOne(b, size); }
      assert PageParam(SetPage(u, 1, size)) != 1 || PageParam(SetPage(u, 2, size)) != 2;
    } else {
      forall k: nat | Roomy(b, k, size) ensures PageParam(SetPage(u, k, size)) == k {
        ReadBack(b, k);
      }
    }
  }

  lemma RoomForOne(b: string, size: nat)
    requires Roomy(b, 2, size)
    ensures Roomy(b, 1, size)
  {
    assert Decimal(1) == "1" && Decimal(2) == "2";
  }

  // ---- Setting twice ---------------------------------------------------------------------

  predicate EndsWithSep(b: string) { b != "" && IsSep(b[|b| - 1]) }

  lemma NoHash(u: string)
    requires '#' !in u
    ensures NoFragment(u) == u
  {
    assert forall i :: 0 <= i < |u| ==> u[i] in u;
    assert u[..|u|] == u;
  }

  lemma PlainStripped(p: string)
    requires !HasParam(p) && '#' !in p && |p| < URI_BUF
    ensures Stripped(p) == p
  {
    hide NoFragment, ParamAt;
    NoHash(p);
    NoParamMeans(p);
  }

  lemma StrippedHasNoHash(u: string)
    ensures '#' !in Stripped(u)
  {
    hide ParamAt, DigitsEnd, Spliced, Truncated;
    var v := NoFragment(Truncated(u, URI_BUF));
    assert '#' !in v;
    var p := ParamAt(v, 0);
    if p < |v| {
      ParamRoom(v, p);
      var end := DigitsEnd(v, p + |PARAM|);
      SplicedFrom(v, p, end, '#');
      assert '#' !in DropLastSep(Spliced(v, p, end));
    }
  }

  lemma SplicedFrom(u: string, p: nat, end: nat, c: char)
    requires p <= end <= |u| && c !in u
    ensures c !in Spliced(u, p, end)
  {
  }

  lemma NoHashInPage(b: string, k: int)
    requires '#' !in b
    ensures '#' !in WithPage(b, k)
  {
    hide Decimal;
    if k > 0 {
      var d := Decimal(k);
      assert forall c :: c in d ==> IsDigit(c);
      assert '#' !in PARAM;
    }
  }

  /** What is left of a URI once the number written after it is taken off again. */
  lemma StripWritten(b: string, j: nat)
    requires !HasParam(b) && '#' !in b && |WithPage(b, j)| < URI_BUF
    ensures Stripped(WithPage(b, j)) == if j > 0 then DropLastSep(b) else b
  {
    hide ParamAt, Decimal, HasParam, DropLastSep, DigitsEnd, NoFragment;
    NoHashInPage(b, j);
    NoHash(WithPage(b, j));
    if j > 0 {
      var ds := Decimal(j);
      var u := b + [SepFor(b)] + (PARAM + ds);
      WrittenParam(b, SepFor(b), ds);
      DigitsToEnd(b + [SepFor(b)] + PARAM, ds);
      assert b + [SepFor(b)] + PARAM + ds == u;
      assert u[..|b|] + u[|u|..] == b;
    } else {
      NoParamMeans(b);
    }
  }

  lemma DigitsToEnd(front: string, ds: string)
    requires forall i :: 0 <= i < |ds| ==> IsDigit(ds[i])
    ensures DigitsEnd(front + ds, |front|) == |front + ds|
  {
    assert forall i :: |front| <= i < |front + ds| ==> (front + ds)[i] == ds[i - |front|];
  }

  /** Setting a page over another gives the same URI as setting it at once,
      exactly when the URI without its number does not end in a separator. */
  lemma SetTwice(u: string, j: nat, k: nat, size: nat)
    requires j > 0 && !HasParam(Stripped(u))
    requires Roomy(Stripped(u), j, size) && Roomy(Stripped(u), k, size)
    ensures SetPage(SetPage(u, j, size), k, size) == SetPage(u, k, size) <==> !EndsWithSep(Stripped(u))
  {
    hide Stripped, HasParam, Decimal;
    var b := Stripped(u);
    StrippedHasNoHash(u);
    StripWritten(b, j);
    if EndsWithSep(b) {
      var c := b[..|b| - 1];
      assert Stripped(SetPage(u, j, size)) == c;
      assert |WithPage(c, k)| == |WithPage(b, k)| - 1;
    }
  }

  /** A URI whose page number can be set over and over. */
  predicate Settled(b: string) { !HasParam(b) && !EndsWithSep(b) }

  predicate AllDigits(ds: string) { forall i :: 0 <= i < |ds| ==> IsDigit(ds[i]) }

  /** Splicing out a parameter that runs to the end or to an `&`. */
  lemma SplicedWritten(x: string, sep: char, front: string, tail: string)
    requires IsSep(sep) && x + [sep] <= front && (tail == "" || tail[0] == '&')
    ensures Spliced(front + tail, |x| + 1, |front|) == if tail == "" then x else x + [sep] + tail[1..]
  {
    var u := front + tail;
    assert u[..|x|] == x && u[..|x| + 1] == x + [sep];
    if tail == "" {
      assert u[|x|] == sep && u[|u|..] == "" && x + "" == x;
    } else {
      assert u[|front| + 1..] == tail[1..];
    }
  }

  lemma DropWritten(x: string, sep: char, ds: string, tail: string)
    requires IsSep(sep) && AllDigits(ds) && !HasParam(x) && (tail == "" || tail[0] == '&')
    ensures var u := x + [sep] + (PARAM + (ds + tail));
            DropParam(u) == DropLastSep(if tail == "" then x else x + [sep] + tail[1..])
  {
    hide ParamAt, HasParam, DropLastSep, DigitsEnd, Spliced;
    var front := x + [sep] + PARAM;
    var u := x + [sep] + (PARAM + (ds + tail));
    Assoc(x + [sep], PARAM, ds + tail);
    Assoc(front, ds, tail);
    WrittenParam(x, sep, ds + tail);
    DigitsToEnd(front, ds);
    if tail == "" {
      assert front + ds + tail == front + ds;
    } else {
      DigitsEndStops(front + ds, tail, |front|);
    }
    SplicedWritten(x, sep, front + ds, tail);
  }

  lemma NoHashWritten(x: string, sep: char, ds: string, tail: string)
    requires IsSep(sep) && AllDigits(ds) && '#' !in x && '#' !in tail
    ensures '#' !in x + [sep] + (PARAM + (ds + tail))
  {
    assert forall c :: c in ds ==> IsDigit(c);
    assert '#' !in PARAM;
  }

  /** A URI with one all-digit page parameter at its end loses just that. */
  lemma LastParamStrips(x: string, sep: char, ds: string)
    requires IsSep(sep) && AllDigits(ds) && '#' !in x && |x| + 1 + |PARAM| + |ds| < URI_BUF
    requires Settled(x)
    ensures Stripped(x + [sep] + (PARAM + (ds + ""))) == x
  {
    hide DropParam, HasParam, NoFragment;
    NoHashWritten(x, sep, ds, "");
    NoHash(x + [sep] + (PARAM + (ds + "")));
    DropWritten(x, sep, ds, "");
  }

  /** One followed by other parameters loses just that and one separator. */
  lemma InnerParamStrips(x: string, sep: char, ds: string, y: string)
    requires IsSep(sep) && AllDigits(ds) && '#' !in x && '#' !in y && |x| + 2 + |PARAM| + |ds| + |y| < URI_BUF
    requires !HasParam(x) && y != "" && !EndsWithSep(y)
    ensures Stripped(x + [sep] + (PARAM + (ds + ("&" + y)))) == x + [sep] + y
  {
    hide DropParam, HasParam, NoFragment;
    NoHashWritten(x, sep, ds, "&" + y);
    NoHash(x + [sep] + (PARAM + (ds + ("&" + y))));
    DropWritten(x, sep, ds, "&" + y);
    assert ("&" + y)[1..] == y;
    assert (x + [sep] + y)[|x + [sep] + y| - 1] == y[|y| - 1];
  }

  // ---- Walking -------------------------------------------------------------------------------

  /** The URI reached from page 0 by following Next n times: each page's link
      is made from the URI that page was asked for with. */
  function Walk(u: string, n: nat, size: nat): string {
    if n == 0 then SetPage(u, 0, size) else SetPage(Walk(u, n - 1, size), n, size)
  }

  lemma SetAgain(u: string, j: nat, k: nat, size: nat)
    requires Settled(Stripped(u))
    requires Roomy(Stripped(u), j, size) && Roomy(Stripped(u), k, size)
    ensures SetPage(SetPage(u, j, size), k, size) == SetPage(u, k, size)
  {
    hide Stripped, HasParam, WithPage;
    if j > 0 {
      SetTwice(u, j, k, size);
    } else {
      StrippedHasNoHash(u);
      StripWritten(Stripped(u), 0);
    }
  }

  /** Following Next from page 0 visits page n after n steps, and Prev goes back. */
  lemma {:induction false} WalkVisits(u: string, n: nat, size: nat)
    requires Settled(Stripped(u))
    requires forall k: nat :: k <= n ==> Roomy(Stripped(u), k, size)
    ensures Walk(u, n, size) == SetPage(u, n, size)
    ensures PageParam(Walk(u, n, size)) == n
    ensures n > 0 ==> SetPage(Walk(u, n, size), n - 1, size) == Walk(u, n - 1, size)
  {
    hide Stripped, PageParam, HasParam, WithPage, EndsWithSep, Roomy;
    if n > 0 {
      WalkVisits(u, n - 1, size);
      SetAgain(u, n - 1, n, size);
      SetAgain(u, n, n - 1, size);
    }
    NotTruncated(u, n, size);
    ReadBack(Stripped(u), n);
  }

  lemma NotTruncated(u: string, k: nat, size: nat)
    requires Roomy(Stripped(u), k, size)
    ensures SetPage(u, k, size) == WithPage(Stripped(u), k)
  {
    hide Stripped;
  }
}
