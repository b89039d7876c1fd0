/** Pages are filled: split_to_fit keeps as much of a block as a page can take,
    and the packing loop of paged_build closes no page that could take more
    (src/wap_gateway/wbxml.c). */
module PageFill {
  import opened Ascii
  import opened WmlString
  import opened Wbxml
  import opened SeamText
  import opened Paginator
  import opened Measure
  import opened PageNav
  import opened Deck
  import opened PageBound

  // ---- The most words ---------------------------------------------------------------------

  /** A word of the text ends just before i. */
  predicate WordEnd(t: string, i: nat) { 0 < i <= |t| && t[i - 1] != ' ' && (i == |t| || t[i] == ' ') }

  /** How many words end within the first i characters. */
  function WordsBy(t: string, i: nat): nat {
    if i == 0 then 0 else WordsBy(t, i - 1) + if WordEnd(t, i) then 1 else 0
  }

  /** Every word end is offered as a cut, up to the size of the table. */
  lemma {:induction false} CutsComplete(t: string, i: nat, max: nat, cut: nat)
    requires 1 <= i <= cut && WordEnd(t, cut) && WordsBy(t, cut) - WordsBy(t, i - 1) <= max
    ensures cut in CutsFrom(t, i, max)
    decreases |t| + 1 - i
  {
    hide WordsBy;
    CountStep(t, i);
    CountGrows(t, i, cut);
    if i < cut { CutsComplete(t, i + 1, if EndsWord(t, i) then max - 1 else max, cut); }
  }

  lemma CountStep(t: string, i: nat)
    requires i > 0
    ensures WordsBy(t, i) == WordsBy(t, i - 1) + if WordEnd(t, i) then 1 else 0
  {}

  lemma {:induction false} CountGrows(t: string, i: nat, j: nat)
    requires i <= j
    ensures WordsBy(t, i) <= WordsBy(t, j)
  {
    if i < j { CountGrows(t, i, j - 1); }
  }

  /** Cuts increase. */
  lemma {:induction false} CutsOrdered(t: string, i: nat, max: nat, j: nat, k: nat)
    requires 1 <= i && j <= k < |CutsFrom(t, i, max)|
    ensures i <= CutsFrom(t, i, max)[j] <= CutsFrom(t, i, max)[k]
    decreases |t| + 1 - i
  {
    hide EndsWord;
    if EndsWord(t, i) {
      if j > 0 {
        CutsOrdered(t, i + 1, max - 1, j - 1, k - 1);
      } else {
        CutsIncrease(t, i, max, k);
      }
    } else {
      CutsOrdered(t, i + 1, max, j, k);
    }
  }

  ghost predicate Ordered(cuts: seq<nat>) { forall j, k :: 0 <= j <= k < |cuts| ==> 1 <= cuts[j] <= cuts[k] }

  lemma WordCutsOrdered(t: string)
    ensures Ordered(WordCuts(t))
  {
    hide CutsFrom;
    var cuts := WordCuts(t);
    forall j, k | 0 <= j <= k < |cuts| ensures 1 <= cuts[j] <= cuts[k] { CutsOrdered(t, 1, MAX_WORDS, j, k); }
  }

  /** The binary search stops at the last cut that fits. */
  lemma {:induction false} SearchLargest(f: Frame, cur: seq<Node>, blk: Node, m: nat, cuts: seq<nat>, lo: nat, hi: nat, k: nat)
    requires blk.Elem? && m < |blk.kids| && blk.kids[m].Text? && '$' !in blk.kids[m].text
    requires lo <= hi <= |cuts| && Ordered(cuts)
    requires MostWords(f, cur, blk, m, cuts, lo, hi) <= k < hi
    ensures !CutFits(f, cur, blk, m, cuts[k])
    decreases hi - lo
  {
    hide CutFits;
    if lo < hi {
      var mid := (lo + hi + 1) / 2;
      if CutFits(f, cur, blk, m, cuts[mid - 1]) {
        SearchLargest(f, cur, blk, m, cuts, mid, hi, k);
      } else if k < mid - 1 {
        SearchLargest(f, cur, blk, m, cuts, lo, mid - 1, k);
      } else if CutFits(f, cur, blk, m, cuts[k]) {
        FewerWordsFit(f, cur, blk, m, cuts[mid - 1], cuts[k]);
      }
    }
  }

  /** The text is cut after the last word that still fits, among the first 4096. */
  lemma TextCutLargest(f: Frame, cur: seq<Node>, blk: Node, m: nat, cut: nat)
    requires blk.Elem? && m < |blk.kids| && blk.kids[m].Text? && '$' !in blk.kids[m].text
    requires WordEnd(blk.kids[m].text, cut) && WordsBy(blk.kids[m].text, cut) <= MAX_WORDS
    requires CutFits(f, cur, blk, m, cut)
    ensures cut <= TextCut(f, cur, blk, m)
  {
    hide CutFits, MostWords, CutsFrom, WordsBy, BetweenWords, Ordered, EndsWord;
    var t := blk.kids[m].text;
    var cuts := WordCuts(t);
    NoWordsYet(t);
    CutsComplete(t, 1, MAX_WORDS, cut);
    var k :| 0 <= k < |cuts| && cuts[k] == cut;
    WordCutsOrdered(t);
    var n := MostWords(f, cur, blk, m, cuts, 0, |cuts|);
    if n <= k {
      SearchLargest(f, cur, blk, m, cuts, 0, |cuts|, k);
    } else {
      OrderedAt(cuts, k, n - 1);
    }
  }

  lemma NoWordsYet(t: string)
    ensures WordsBy(t, 0) == 0
  {}

  lemma OrderedAt(cuts: seq<nat>, j: nat, k: nat)
    requires Ordered(cuts) && j <= k < |cuts|
    ensures 1 <= cuts[j] <= cuts[k]
  {}

  // ---- The most of a block ------------------------------------------------------------------

  predicate Before(a: Seam, b: Seam) { a.m < b.m || (a.m == b.m && a.cut <= b.cut) }

  /** The text before i ends in a word that can end a line. */
  predicate TidyEnd(t: string, i: nat) { WordEnd(t, i) && EndsLine(t[WordStart(t, i)..i]) }

  /** A place where a page may end: after a word that can end a line, among the first
      4096 of its text, or between children and not after a text that cannot end one. */
  predicate CleanCut(blk: Node, s: Seam) {
    && ValidSeam(blk, s)
    && (if s.cut > 0 then TidyEnd(blk.kids[s.m].text, s.cut) && WordsBy(blk.kids[s.m].text, s.cut) <= MAX_WORDS
        else s.m > 0 && TidyChild(blk.kids[s.m - 1]))
  }

  predicate TidyChild(n: Node) { n.Text? ==> n.text == "" || TidyEnd(n.text, |n.text|) }

  /** No clean cut whose head fits comes after z. */
  ghost predicate LastCut(f: Frame, cur: seq<Node>, blk: Node, z: Seam) {
    forall s :: CleanCut(blk, s) && Fits(f, cur + [HeadOf(blk, s)]) ==> Before(s, z)
  }

  /** An earlier cut has no larger head. */
  lemma HeadSmaller(blk: Node, s: Seam, z: Seam, base: string)
    requires PlainKids(blk) && ValidSeam(blk, s) && ValidSeam(blk, z) && Before(s, z)
    ensures |CompileAll(HeadOf(blk, s).kids, base)| <= |CompileAll(HeadOf(blk, z).kids, base)|
  {
    hide CompileAll, TextKid;
    var kids := blk.kids;
    var a := if kids[s.m].Text? then TextKid(kids[s.m].text[..s.cut]) else TextKid("");
    var b := if kids[z.m].Text? then TextKid(kids[z.m].text[..z.cut]) else TextKid("");
    CompileAllAppend(kids[..s.m], a, base);
    CompileAllAppend(kids[..z.m], b, base);
    if s.m == z.m {
      if kids[s.m].Text? { ShorterPiece(kids[s.m].text, s.cut, z.cut, base); }
    } else {
      assert kids[..z.m] == kids[..s.m] + kids[s.m..z.m];
      assert kids[s.m..z.m] == [kids[s.m]] + kids[s.m + 1..z.m];
      CompileAllAppend(kids[..s.m], kids[s.m..z.m], base);
      CompileAllAppend([kids[s.m]], kids[s.m + 1..z.m], base);
      if kids[s.m].Text? {
        WholePiece(kids[s.m].text, s.cut, base);
      } else {
        NoText();
        NoNodes(base);
      }
    }
  }

  lemma ShorterPiece(t: string, a: nat, b: nat, base: string)
    requires '$' !in t && a <= b <= |t|
    ensures |CompileAll(TextKid(t[..a]), base)| <= |CompileAll(TextKid(t[..b]), base)|
  {
    hide CompileAll;
    if a == b {
    } else {
      var u := t[..b];
      assert u[..a] == t[..a];
      ShorterText(u, a, base);
    }
  }

  lemma WholePiece(t: string, a: nat, base: string)
    requires '$' !in t && a <= |t|
    ensures |CompileAll(TextKid(t[..a]), base)| <= |CompileAll([Text(t)], base)|
  {
    hide CompileAll;
    if a == |t| {
      assert t[..a] == t;
      if t == "" { NoNodes(base); }
    } else {
      ShorterText(t, a, base);
    }
  }

  /** A page with no more compiled bytes than one that fits does fit, if an empty one does. */
  lemma SmallerFits(f: Frame, a: seq<Node>, b: seq<Node>)
    requires |CompileAll(a, f.base)| <= |CompileAll(b, f.base)| && Fits(f, b) && Fits(f, [])
    ensures Fits(f, a)
  {
    hide CompileCard, CompileAll, Encode;
    SizeIs(f, a);
    SizeIs(f, b);
    SizeIs(f, []);
    NoNodes(f.base);
  }

  /** A page is its head and its body, three bytes standing in for an empty one. */
  lemma SizeIs(f: Frame, a: seq<Node>)
    ensures var n := |CompileAll(a, f.base)|; PageSize(f, a) == |CardHead(f.title)| + 2 + if n == 0 then 3 else n
  {
    hide CompileAll, Encode, CardHead;
    NoNodes(f.base);
    FillerLength();
    assert CompileAll(a, f.base) + "" == CompileAll(a, f.base);
  }

  lemma EarlierHead(cur: seq<Node>, blk: Node, s: Seam, z: Seam, base: string)
    requires PlainKids(blk) && ValidSeam(blk, s) && ValidSeam(blk, z) && Before(s, z)
    ensures |CompileAll(cur + [HeadOf(blk, s)], base)| <= |CompileAll(cur + [HeadOf(blk, z)], base)|
  {
    hide CompileAll, Compile, BetweenWords, TextKid;
    HeadSmaller(blk, s, z, base);
    var a, b := HeadOf(blk, s), HeadOf(blk, z);
    SmallerBlock(blk.name, blk.attrs, a.kids, b.kids, base);
    LastBlock(cur, a, base);
    LastBlock(cur, b, base);
  }

  lemma EarlierFits(f: Frame, cur: seq<Node>, blk: Node, s: Seam, z: Seam)
    requires PlainKids(blk) && ValidSeam(blk, s) && ValidSeam(blk, z) && Before(s, z)
    requires Fits(f, []) && Fits(f, cur + [HeadOf(blk, z)])
    ensures Fits(f, cur + [HeadOf(blk, s)])
  {
    hide Fits, HeadOf, CompileAll, ValidSeam, PlainKids;
    EarlierHead(cur, blk, s, z, f.base);
    SmallerFits(f, cur + [HeadOf(blk, s)], cur + [HeadOf(blk, z)]);
  }

  lemma {:induction false} ProbeStops(f: Frame, cur: seq<Node>, blk: Node, k: nat)
    requires blk.Elem? && k <= |blk.kids|
    ensures var m := LargestFit(f, cur, blk, k); m < |blk.kids| ==> !Fits(f, cur + [PrefixOf(blk, m + 1, "")])
    decreases |blk.kids| - k
  {
    hide Fits;
    if k < |blk.kids| && Fits(f, cur + [PrefixOf(blk, k + 1, "")]) { ProbeStops(f, cur, blk, k + 1); }
  }

  /** As many whole children as fit are kept: no head with more of them fits. */
  lemma KidsLargest(f: Frame, cur: seq<Node>, blk: Node, s: Seam)
    requires PlainKids(blk) && ValidSeam(blk, s) && Fits(f, []) && Fits(f, cur + [HeadOf(blk, s)])
    ensures s.m <= LargestFit(f, cur, blk, 0)
  {
    hide Fits, LargestFit, PrefixOf;
    var m := LargestFit(f, cur, blk, 0);
    if s.m > m {
      ProbeStops(f, cur, blk, 0);
      var z := Seam(m + 1, 0);
      assert ValidSeam(blk, z) && Before(z, s);
      assert blk.kids[m + 1].Text? ==> blk.kids[m + 1].text[..0] == "";
      assert HeadOf(blk, z) == PrefixOf(blk, m + 1, "");
      EarlierFits(f, cur, blk, z, s);
    }
  }

  /** The first seam found is at or after every clean cut whose head fits. */
  lemma FirstSeamLast(f: Frame, cur: seq<Node>, blk: Node, s: Seam)
    requires PlainKids(blk) && Fits(f, []) && CleanCut(blk, s) && Fits(f, cur + [HeadOf(blk, s)])
    requires LargestFit(f, cur, blk, 0) < |blk.kids|
    ensures Before(s, FirstSeam(f, cur, blk, LargestFit(f, cur, blk, 0)))
  {
    hide Fits, LargestFit, TextCut, PrefixOf, WordsBy, BetweenWords, EndsLine;
    var m := LargestFit(f, cur, blk, 0);
    KidsLargest(f, cur, blk, s);
    if s.m == m && s.cut > 0 { TextCutLargest(f, cur, blk, m, s.cut); }
  }

  /** Trimming stops at the last word that can end a line. */
  lemma {:induction false} TrimKeeps(t: string, end: nat, c: nat)
    requires BetweenWords(t, end) && c <= end && TidyEnd(t, c)
    ensures c <= TrimTail(t, end)
    decreases end
  {
    hide EndsLine;
    var e := TrimSpaces(t, end);
    SpacesAfter(t, end, c);
    var start := WordStart(t, e);
    if c <= start {
      if !EndsLine(t[start..e]) { TrimKeeps(t, start, c); }
    } else {
      WordOf(t, e, c);
    }
  }

  lemma {:induction false} SpacesAfter(t: string, end: nat, c: nat)
    requires 0 < c <= end <= |t| && t[c - 1] != ' '
    ensures c <= TrimSpaces(t, end)
    decreases end
  {
    if c < end && t[end - 1] == ' ' { SpacesAfter(t, end - 1, c); }
  }

  lemma {:induction false} WordOf(t: string, e: nat, c: nat)
    requires e <= |t| && WordStart(t, e) < c <= e && WordEnd(t, c)
    ensures c == e
  {
    if c < e {
      assert t[c] == ' ';
      InWord(t, e, c);
    }
  }

  lemma {:induction false} InWord(t: string, e: nat, i: nat)
    requires e <= |t| && WordStart(t, e) <= i < e
    ensures t[i] != ' '
    decreases e
  {
    if i < e - 1 { InWord(t, e - 1, i); }
  }

  /** So is the tidied one. */
  lemma TidySeamLast(blk: Node, z: Seam, s: Seam)
    requires ValidSeam(blk, z) && CleanCut(blk, s) && Before(s, z)
    ensures Before(s, TidySeam(blk, z)) && TidySeam(blk, z) != Seam(0, 0)
  {
    hide EndsLine, TrimTail, BetweenWords, WordsBy, WordStart, WordEnd;
    var r := TidySeam(blk, z);
    if r != z {
      var t := blk.kids[z.m - 1].text;
      TrimNothing(t);
      if s.m == z.m - 1 {
        if s.cut > 0 {
          InText(t, s.cut);
          WholeText(t);
          TrimKeeps(t, |t|, s.cut);
        }
      } else if s.m == z.m {
        if t != "" {
          WholeText(t);
          TrimKeeps(t, |t|, |t|);
        }
      }
    }
  }

  lemma WholeText(t: string)
    ensures BetweenWords(t, |t|)
  {}

  lemma TrimNothing(t: string)
    ensures BetweenWords(t, |t|) && (t == "" ==> TrimTail(t, |t|) == 0)
  {}

  lemma InText(t: string, i: nat)
    requires TidyEnd(t, i)
    ensures 0 < i <= |t|
  {}

  /** A block that does not fit whole is cut after as much of it as fits: no clean cut
      whose head fits comes later, and it is refused only if there is none. */
  lemma SplitLargest(f: Frame, cur: seq<Node>, blk: Node) returns (z: Seam)
    requires PlainKids(blk) && Fits(f, []) && !Fits(f, cur + [blk])
    ensures var r := SplitToFit(f, cur, blk);
            if r.Split? then ValidSeam(blk, z) && r == Split(HeadOf(blk, z), RestOf(blk, z)) && LastCut(f, cur, blk, z)
            else forall s :: CleanCut(blk, s) ==> !Fits(f, cur + [HeadOf(blk, s)])
  {
    hide Fits, LargestFit, FirstSeam, TidySeam, HeadOf, RestOf, PlainKids;
    z := Seam(0, 0);
    if blk.Elem? && blk.kids != [] {
      NotAllFit(f, cur, blk);
      var m := LargestFit(f, cur, blk, 0);
      z := TidySeam(blk, FirstSeam(f, cur, blk, m));
      forall s | CleanCut(blk, s) && Fits(f, cur + [HeadOf(blk, s)]) ensures Before(s, z) && z != Seam(0, 0) {
        FirstSeamLast(f, cur, blk, s);
        TidySeamLast(blk, FirstSeam(f, cur, blk, m), s);
      }
    }
  }

  lemma NotAllFit(f: Frame, cur: seq<Node>, blk: Node)
    requires blk.Elem? && blk.kids != [] && !Fits(f, cur + [blk])
    ensures LargestFit(f, cur, blk, 0) < |blk.kids|
  {
    hide Fits;
    var n := |blk.kids|;
    assert blk.kids[..n] == blk.kids && blk.kids + [] == blk.kids;
    assert PrefixOf(blk, n, "") == blk;
  }

  // ---- Full pages ------------------------------------------------------------------------------

  /** No clean cut gives a head that fits and is worth it: 24 bytes more, or
      anything on an empty page. */
  ghost predicate NoHead(f: Frame, cur: seq<Node>, blk: Node) {
    forall s :: CleanCut(blk, s) && Fits(f, cur + [HeadOf(blk, s)]) ==>
      cur != [] && PageSize(f, cur + [HeadOf(blk, s)]) < PageSize(f, cur) + 24
  }

  /** The page adds something worth a split to what it opens with; one that has got
      shorter, its filler gone, counts too. */
  predicate Adds(f: Frame, cur: seq<Node>, page: seq<Node>) {
    cur == [] || PageSize(f, page) < PageSize(f, cur) || PageSize(f, page) >= PageSize(f, cur) + 24
  }

  /** The page that opens with `cur` is closed before the block is on it: the block does
      not fit whole, and either all of it stays for the later pages because no part of
      it can come, or the part up to the last cut that fits has come. */
  ghost predicate ClosesAt(f: Frame, cur: seq<Node>, blk: Node, page: seq<Node>, left: seq<Node>) {
    && !Fits(f, cur + [blk])
    && (|| (page == cur && cur != [] && left == [blk] && NoHead(f, cur, blk))
        || (page == [blk] && cur == [] && left == [] && NoHead(f, cur, blk))
        || exists z :: ValidSeam(blk, z) && page == cur + [HeadOf(blk, z)] && left == RestOf(blk, z)
                       && LastCut(f, cur, blk, z) && Adds(f, cur, page))
  }

  /** The pages hold the blocks in order, and each but the last is closed only when
      it can take no more. */
  ghost predicate Full(f: Frame, blocks: seq<Node>, pages: seq<seq<Node>>)
    decreases |pages|
  {
    if pages == [] then blocks == []
    else (pages == [blocks] && blocks != []) || exists n, left :: FullTo(f, blocks, pages, n, left)
  }

  ghost predicate FullTo(f: Frame, blocks: seq<Node>, pages: seq<seq<Node>>, n: nat, left: seq<Node>)
    requires pages != []
    decreases |pages|, 0
  {
    n < |blocks| && ClosesAt(f, blocks[..n], blocks[n], pages[0], left) && Full(f, left + blocks[n + 1..], pages[1..])
  }

  /** The packing loop, with `cur` on the open page. */
  lemma {:induction false} PackFull(f: Frame, queue: seq<Node>, cur: seq<Node>)
    requires PlainBlocks(queue) && Fits(f, [])
    ensures Full(f, cur + queue, Pack(f, queue, cur))
    decreases Weight(queue), |cur|
  {
    hide Fits, SplitToFit, TooSmall, PlainKids, ClosesAt, Full, NoHead, CleanCut, HeadOf, RestOf, ValidSeam, LastCut;
    if queue == [] {
      assert cur + queue == cur;
      LastPage(f, cur);
    } else {
      var blk, more := queue[0], queue[1..];
      if Fits(f, cur + [blk]) {
        PackFull(f, more, cur + [blk]);
        assert cur + [blk] + more == cur + queue;
      } else {
        var r := WorthSplit(f, cur, blk);
        var z := SplitLargest(f, cur, blk);
        if r.Split? {
          SplitCloses(f, cur, blk, z);
          SplitPlain(f, cur, blk);
          SplitIsLighter(f, cur, blk);
          WeightPut(r.rest, more);
          PackFull(f, r.rest + more, []);
          FullNext(f, cur, queue, cur + [r.head], r.rest, r.rest + more, Pack(f, r.rest + more, []));
        } else {
          RefusedHead(f, cur, blk, z);
          if cur == [] {
            WholeCloses(f, blk);
            PackFull(f, more, []);
            assert [] + more == more;
            FullNext(f, cur, queue, [blk], [], more, Pack(f, more, []));
          } else {
            NothingCloses(f, cur, blk);
            PackFull(f, queue, []);
            assert [blk] + more == queue;
            FullNext(f, cur, queue, cur, [blk], queue, Pack(f, queue, []));
          }
        }
      }
    }
  }

  lemma LastPage(f: Frame, cur: seq<Node>)
    ensures Full(f, [], []) && (cur != [] ==> Full(f, cur, [cur]))
  {}

  lemma FullNext(f: Frame, cur: seq<Node>, queue: seq<Node>, page: seq<Node>, left: seq<Node>, next: seq<Node>,
                 pages: seq<seq<Node>>)
    requires queue != [] && ClosesAt(f, cur, queue[0], page, left) && next == left + queue[1..] && Full(f, [] + next, pages)
    ensures Full(f, cur + queue, [page] + pages)
  {
    hide ClosesAt;
    var blocks, all := cur + queue, [page] + pages;
    assert blocks[..|cur|] == cur && blocks[|cur|] == queue[0] && blocks[|cur| + 1..] == queue[1..];
    assert [] + next == next;
    assert all[1..] == pages;
    assert FullTo(f, blocks, all, |cur|, left);
  }

  lemma SplitCloses(f: Frame, cur: seq<Node>, blk: Node, z: Seam)
    requires !Fits(f, cur + [blk]) && ValidSeam(blk, z) && LastCut(f, cur, blk, z) && !TooSmall(f, cur, HeadOf(blk, z))
    ensures ClosesAt(f, cur, blk, cur + [HeadOf(blk, z)], RestOf(blk, z))
  {
    hide Fits, PageSize, HeadOf, RestOf, LastCut, ValidSeam;
  }

  lemma WholeCloses(f: Frame, blk: Node)
    requires !Fits(f, [] + [blk]) && NoHead(f, [], blk)
    ensures ClosesAt(f, [], blk, [blk], [])
  {
    hide Fits, NoHead;
  }

  lemma NothingCloses(f: Frame, cur: seq<Node>, blk: Node)
    requires !Fits(f, cur + [blk]) && NoHead(f, cur, blk) && cur != []
    ensures ClosesAt(f, cur, blk, cur, [blk])
  {
    hide Fits, NoHead;
  }

  /** A head not worth its split is the largest there is. */
  lemma RefusedHead(f: Frame, cur: seq<Node>, blk: Node, z: Seam)
    requires PlainKids(blk) && WorthSplit(f, cur, blk).NoSplit?
    requires var r := SplitToFit(f, cur, blk);
             if r.Split? then ValidSeam(blk, z) && r == Split(HeadOf(blk, z), RestOf(blk, z)) && LastCut(f, cur, blk, z)
             else forall s :: CleanCut(blk, s) ==> !Fits(f, cur + [HeadOf(blk, s)])
    ensures NoHead(f, cur, blk)
  {
    hide Fits, PageSize, SplitToFit, HeadOf, RestOf, ValidSeam, TidyEnd, WordsBy, TidyChild, PlainKids;
    if SplitToFit(f, cur, blk).Split? {
      forall s | CleanCut(blk, s) && Fits(f, cur + [HeadOf(blk, s)])
        ensures PageSize(f, cur + [HeadOf(blk, s)]) < PageSize(f, cur) + 24
      {
        SmallToo(f, cur, blk, s, z);
      }
    }
  }

  lemma SmallToo(f: Frame, cur: seq<Node>, blk: Node, s: Seam, z: Seam)
    requires PlainKids(blk) && ValidSeam(blk, s) && ValidSeam(blk, z) && Before(s, z)
    requires PageSize(f, cur + [HeadOf(blk, z)]) < PageSize(f, cur) + 24
    ensures PageSize(f, cur + [HeadOf(blk, s)]) < PageSize(f, cur) + 24
  {
    hide PageSize, HeadOf, CompileAll, PlainKids, ValidSeam;
    EarlierHead(cur, blk, s, z, f.base);
    SizeIs(f, cur);
    SizeIs(f, cur + [HeadOf(blk, s)]);
    SizeIs(f, cur + [HeadOf(blk, z)]);
  }

  /** The pages of a deck: all of the card on one if that fits the packet, and
      otherwise full ones. */
  lemma DeckFull(title: string, blocks: seq<Node>, uri: string, base: string, pageBytes: nat)
    requires PlainBlocks(blocks) && '$' !in title && |title| <= TITLE_MAX
    ensures var pages := PagesFor(title, blocks, uri, base, pageBytes);
            if |CompileCard(title, blocks, [], MeasureBase(base))| <= pageBytes || blocks == [] then pages == [blocks]
            else Full(FrameFor(title, uri, base, pageBytes), blocks, pages)
  {
    hide FrameFor, Fits, CompileCard, Pack, Full;
    var f := FrameFor(title, uri, base, pageBytes);
    EmptyFits(title, uri, base, pageBytes);
    PackFull(f, blocks, []);
    assert [] + blocks == blocks;
    NothingPacked(f, blocks);
  }

  lemma NothingPacked(f: Frame, blocks: seq<Node>)
    ensures Pack(f, [], []) == [] && (Full(f, blocks, []) ==> blocks == [])
  {}

  lemma EmptyFits(title: string, uri: string, base: string, pageBytes: nat)
    requires '$' !in title && |title| <= TITLE_MAX
    ensures Fits(FrameFor(title, uri, base, pageBytes), [])
  {
    hide NavCost, UriPath, MeasureBase, CompileCard, Encode;
    var f := FrameFor(title, uri, base, pageBytes);
    NoNodes(f.base);
    CardLength(f.title, [], [], f.base);
    FillerLength();
    assert '$' !in LONGEST_SUFFIX && |LONGEST_SUFFIX| == 8;
    PlainLength(f.title);
    assert "" + "" == "";
  }

  // ---- The seam and the room ------------------------------------------------------------------------

  /** What is kept of a text ends in a word that can end a line, if anything is kept. */
  lemma {:induction false} TrimEndsLine(t: string, end: nat)
    requires BetweenWords(t, end)
    ensures var r := TrimTail(t, end); r > 0 ==> TidyEnd(t, r)
    decreases end
  {
    hide EndsLine;
    var e := TrimSpaces(t, end);
    if e > 0 && !EndsLine(t[WordStart(t, e)..e]) { TrimEndsLine(t, WordStart(t, e)); }
  }

  /** The rest of a text opens with a word that is more than a separator. */
  lemma {:induction false} SkipOpens(t: string)
    ensures var u := SkipSeparators(t); u != "" ==> u[0] != ' ' && !IsSeparator(u[..Find(u, 0, ' ')])
    decreases |t|
  {
    hide Find, Words;
    var u := SkipSpaces(t);
    var n := Find(u, 0, ' ');
    if !(n == 0 || HasAlnum(u[..n]) || !IsSeparator(u[..n])) {
      SkipOpens(u[n..]);
    } else if HasAlnum(u[..n]) {
      NotSeparator(u[..n]);
    }
  }

  lemma NotSeparator(w: string)
    requires HasAlnum(w)
    ensures !IsSeparator(w)
  {
    var i :| 0 <= i < |w| && (IsAlnum(w[i]) || w[i] as int >= 0x80);
    assert !IsSeparatorChar(w[i]);
  }

  /** The room of a page is the packet less the two longest links there could be, and
      never less than 128 bytes. */
  lemma RoomIs(title: string, uri: string, base: string, pageBytes: nat)
    ensures var f := FrameFor(title, uri, base, pageBytes);
            var links := [NavLink("<< Prev", SetPage(UriPath(uri), 98, 1100)), NavLink("Next >>", SetPage(UriPath(uri), 99, 1100))];
            var room := pageBytes - |CompileAll(links, f.base)|;
            && f.title == title + " (99/99)" && f.limit == (if room > 128 then room else 128)
            && f.base == if |base| > 25 then base else "http://000.000.000.000:00"
  {
    hide CompileAll, CompileCard, UriPath, SetPage, NavLink, NavCost;
    var long, basep := title + LONGEST_SUFFIX, MeasureBase(base);
    NavCostIs(long, UriPath(uri), basep);
    assert |REFERENCE_BASE| == 25;
  }
}
