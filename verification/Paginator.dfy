/** Packing a card's blocks into pages: split_to_fit and the packing loop of
    paged_build (src/wap_gateway/wbxml.c). */
module Paginator {
  import opened Ascii
  import opened SeamText
  import opened Wbxml

  /** What a page is measured with: the longest title it could carry, the
      base in front of site-relative links, and the limit in compiled bytes. */
  datatype Frame = Frame(title: string, base: string, limit: nat)

  function PageSize(f: Frame, blocks: seq<Node>): nat { |CompileCard(f.title, blocks, [], f.base)| }

  predicate Fits(f: Frame, blocks: seq<Node>) { PageSize(f, blocks) <= f.limit }

  // ---- Splitting one block -----------------------------------------------------------

  function TextKid(t: string): seq<Node> { if t == "" then [] else [Text(t)] }

  /** A wrapper like `blk` holding its first `m` children and then `text`, if any. */
  function PrefixOf(blk: Node, m: nat, text: string): Node
    requires blk.Elem? && m <= |blk.kids|
  {
    Elem(blk.name, blk.attrs, blk.kids[..m] + TextKid(text))
  }

  /** The first count >= m of children that no longer fits, less one. */
  function LargestFit(f: Frame, cur: seq<Node>, blk: Node, m: nat): (r: nat)
    requires blk.Elem? && m <= |blk.kids|
    ensures m <= r <= |blk.kids|
    ensures r > m ==> Fits(f, cur + [PrefixOf(blk, r, "")])
    decreases |blk.kids| - m
  {
    if m < |blk.kids| && Fits(f, cur + [PrefixOf(blk, m + 1, "")])
    then LargestFit(f, cur, blk, m + 1) else m
  }

  predicate CutFits(f: Frame, cur: seq<Node>, blk: Node, m: nat, cut: nat)
    requires blk.Elem? && m < |blk.kids| && blk.kids[m].Text?
  {
    cut <= |blk.kids[m].text| && Fits(f, cur + [PrefixOf(blk, m, blk.kids[m].text[..cut])])
  }

  /** The binary search for the most words of child m that still fit. */
  function MostWords(f: Frame, cur: seq<Node>, blk: Node, m: nat, cuts: seq<nat>, lo: nat, hi: nat): (r: nat)
    requires blk.Elem? && m < |blk.kids| && blk.kids[m].Text?
    requires lo <= hi <= |cuts|
    ensures lo <= r <= hi
    decreases hi - lo
  {
    if lo >= hi then lo
    else
      var mid := (lo + hi + 1) / 2;
      if CutFits(f, cur, blk, m, cuts[mid - 1]) then MostWords(f, cur, blk, m, cuts, mid, hi)
      else MostWords(f, cur, blk, m, cuts, lo, mid - 1)
  }

  lemma {:induction false} MostWordsFit(f: Frame, cur: seq<Node>, blk: Node, m: nat, cuts: seq<nat>, lo: nat, hi: nat)
    requires blk.Elem? && m < |blk.kids| && blk.kids[m].Text?
    requires lo <= hi <= |cuts|
    ensures var r := MostWords(f, cur, blk, m, cuts, lo, hi); r > lo ==> CutFits(f, cur, blk, m, cuts[r - 1])
    decreases hi - lo
  {
    hide CutFits;
    if lo < hi {
      var mid := (lo + hi + 1) / 2;
      if CutFits(f, cur, blk, m, cuts[mid - 1]) {
        MostWordsFit(f, cur, blk, m, cuts, mid, hi);
      } else {
        MostWordsFit(f, cur, blk, m, cuts, lo, mid - 1);
      }
    }
  }

  /** How much of text child m goes on the page: 0, or up to the end of a word. */
  function TextCut(f: Frame, cur: seq<Node>, blk: Node, m: nat): (r: nat)
    requires blk.Elem? && m < |blk.kids| && blk.kids[m].Text?
    ensures BetweenWords(blk.kids[m].text, r)
  {
    var cuts := WordCuts(blk.kids[m].text);
    var n := MostWords(f, cur, blk, m, cuts, 0, |cuts|);
    if n == 0 then 0
    else
      CutsBetweenWords(blk.kids[m].text, 1, MAX_WORDS, n - 1);
      cuts[n - 1]
  }

  lemma TextCutFits(f: Frame, cur: seq<Node>, blk: Node, m: nat)
    requires blk.Elem? && m < |blk.kids| && blk.kids[m].Text?
    ensures var r := TextCut(f, cur, blk, m); r > 0 ==> CutFits(f, cur, blk, m, r)
  {
    hide CutFits, WordCuts, MostWords;
    var cuts := WordCuts(blk.kids[m].text);
    MostWordsFit(f, cur, blk, m, cuts, 0, |cuts|);
  }

  /** Where a block is cut: after `m` children and `cut` characters of child m. */
  datatype Seam = Seam(m: nat, cut: nat)

  predicate ValidSeam(blk: Node, s: Seam) {
    && blk.Elem? && s.m < |blk.kids|
    && (if blk.kids[s.m].Text? then BetweenWords(blk.kids[s.m].text, s.cut) else s.cut == 0)
  }

  /** A cut between children must not leave a dangling separator or opening
      bracket: it backs up into the text child it follows. */
  function TidySeam(blk: Node, s: Seam): (r: Seam)
    requires ValidSeam(blk, s)
    ensures ValidSeam(blk, r) && r.m <= s.m
  {
    if s.cut == 0 && s.m > 0 && blk.kids[s.m - 1].Text? then
      var t := blk.kids[s.m - 1].text;
      var keep := TrimTail(t, |t|);
      if keep < |t| then Seam(s.m - 1, keep) else s
    else s
  }

  function FirstSeam(f: Frame, cur: seq<Node>, blk: Node, m: nat): (r: Seam)
    requires blk.Elem? && m < |blk.kids|
    ensures ValidSeam(blk, r) && r.m == m
  {
    Seam(m, if blk.kids[m].Text? then TextCut(f, cur, blk, m) else 0)
  }

  function HeadOf(blk: Node, s: Seam): Node
    requires ValidSeam(blk, s)
  {
    PrefixOf(blk, s.m, if blk.kids[s.m].Text? then blk.kids[s.m].text[..s.cut] else "")
  }

  /** The children left for the next page, without the separators they would open with. */
  function RestKids(blk: Node, s: Seam): seq<Node>
    requires ValidSeam(blk, s)
  {
    if blk.kids[s.m].Text?
    then TextKid(SkipSeparators(blk.kids[s.m].text[s.cut..])) + blk.kids[s.m + 1..]
    else blk.kids[s.m..]
  }

  /** The block for the next page: none or one. */
  function RestOf(blk: Node, s: Seam): seq<Node>
    requires ValidSeam(blk, s)
  {
    var kids := RestKids(blk, s);
    if kids == [] then [] else [Elem(blk.name, blk.attrs, kids)]
  }

  datatype SplitResult = NoSplit | Split(head: Node, rest: seq<Node>)

  function SplitToFit(f: Frame, cur: seq<Node>, blk: Node): SplitResult {
    if blk.Text? || blk.kids == [] then NoSplit
    else
      var m := LargestFit(f, cur, blk, 0);
      if m == |blk.kids| then NoSplit
      else
        var s := TidySeam(blk, FirstSeam(f, cur, blk, m));
        if s == Seam(0, 0) then NoSplit else Split(HeadOf(blk, s), RestOf(blk, s))
  }

  method FindTextCut(f: Frame, cur: seq<Node>, blk: Node, m: nat) returns (cut: nat)
    requires blk.Elem? && m < |blk.kids| && blk.kids[m].Text?
    ensures cut == TextCut(f, cur, blk, m)
  {
    hide CutFits, WordCuts, CutsFrom, BetweenWords;
    var cuts := FindCuts(blk.kids[m].text);
    var lo: nat, hi: nat := 0, |cuts|;
    while lo < hi
      invariant lo <= hi <= |cuts|
      invariant MostWords(f, cur, blk, m, cuts, lo, hi) == MostWords(f, cur, blk, m, cuts, 0, |cuts|)
    {
      var mid := (lo + hi + 1) / 2;
      if CutFits(f, cur, blk, m, cuts[mid - 1]) { lo := mid; } else { hi := mid - 1; }
    }
    cut := 0;
    if lo > 0 { cut := cuts[lo - 1]; }
  }

  /** The first half of split_to_fit: how many children fit, and the seam tidied. */
  method FindSeam(f: Frame, cur: seq<Node>, blk: Node) returns (s: Seam)
    requires blk.Elem?
    ensures var m := LargestFit(f, cur, blk, 0);
            s == if m == |blk.kids| then Seam(m, 0) else TidySeam(blk, FirstSeam(f, cur, blk, m))
  {
    hide Fits, TextCut, TrimTail, BetweenWords;
    var m: nat := 0;
    while m < |blk.kids|
      invariant m <= |blk.kids|
      invariant LargestFit(f, cur, blk, m) == LargestFit(f, cur, blk, 0)
    {
      if !Fits(f, cur + [PrefixOf(blk, m + 1, "")]) { break; }
      m := m + 1;
    }
    if m == |blk.kids| { return Seam(m, 0); }
    var cut: nat := 0;
    if blk.kids[m].Text? { cut := FindTextCut(f, cur, blk, m); }
    if cut == 0 && m > 0 && blk.kids[m - 1].Text? {
      var keep := TrimDanglingTail(blk.kids[m - 1].text);
      if keep < |blk.kids[m - 1].text| {
        m := m - 1;
        cut := keep;
      }
    }
    return Seam(m, cut);
  }

  method SplitBlock(f: Frame, cur: seq<Node>, blk: Node) returns (r: SplitResult)
    ensures r == SplitToFit(f, cur, blk)
  {
    hide LargestFit, TidySeam, FirstSeam, SkipSeparators, PrefixOf;
    if blk.Text? || |blk.kids| == 0 { return NoSplit; }
    var s := FindSeam(f, cur, blk);
    if s.m == |blk.kids| || s == Seam(0, 0) { return NoSplit; }
    var kids := blk.kids[s.m..];
    if blk.kids[s.m].Text? {
      var after := SkipLeadingSeparators(blk.kids[s.m].text[s.cut..]);
      kids := TextKid(after) + blk.kids[s.m + 1..];
    }
    r := Split(HeadOf(blk, s), if |kids| != 0 then [Elem(blk.name, blk.attrs, kids)] else []);
  }

  // ---- Termination measure --------------------------------------------------------------

  /** One for each child plus its text. */
  function KidsWeight(kids: seq<Node>): nat {
    if kids == [] then 0
    else 1 + (if kids[0].Text? then |kids[0].text| else 0) + KidsWeight(kids[1..])
  }

  function BlockWeight(n: Node): nat { 1 + if n.Elem? then KidsWeight(n.kids) else 0 }

  function Weight(blocks: seq<Node>): nat {
    if blocks == [] then 0 else BlockWeight(blocks[0]) + Weight(blocks[1..])
  }

  lemma {:induction false} KidsWeightSplit(a: seq<Node>, b: seq<Node>)
    ensures KidsWeight(a + b) == KidsWeight(a) + KidsWeight(b)
  {
    if a == [] {
      assert a + b == b;
    } else {
      assert (a + b)[0] == a[0] && (a + b)[1..] == a[1..] + b;
      KidsWeightSplit(a[1..], b);
    }
  }

  /** What is left of a split block weighs less than the block did. */
  lemma RestIsLighter(blk: Node, s: Seam)
    requires ValidSeam(blk, s) && s != Seam(0, 0)
    ensures Weight(RestOf(blk, s)) < BlockWeight(blk)
  {
    var edge := blk.kids[s.m];
    assert blk.kids == blk.kids[..s.m] + blk.kids[s.m..];
    KidsWeightSplit(blk.kids[..s.m], blk.kids[s.m..]);
    assert s.m > 0 ==> KidsWeight(blk.kids[..s.m]) >= 1;
    if edge.Text? {
      var after := SkipSeparators(edge.text[s.cut..]);
      assert |after| <= |edge.text| - s.cut;
      KidsWeightSplit(TextKid(after), blk.kids[s.m + 1..]);
      assert blk.kids[s.m..][1..] == blk.kids[s.m + 1..];
      assert KidsWeight(TextKid(after)) <= 1 + |after|;
    }
    if RestOf(blk, s) != [] { assert RestOf(blk, s)[1..] == []; }
  }

  lemma SplitIsLighter(f: Frame, cur: seq<Node>, blk: Node)
    ensures var r := SplitToFit(f, cur, blk); r.Split? ==> |r.rest| <= 1 && Weight(r.rest) < BlockWeight(blk)
  {
    var r := SplitToFit(f, cur, blk);
    if r.Split? {
      RestIsLighter(blk, TidySeam(blk, FirstSeam(f, cur, blk, LargestFit(f, cur, blk, 0))));
    }
  }

  lemma WeightPut(front: seq<Node>, tail: seq<Node>)
    requires |front| <= 1
    ensures Weight(front + tail) == Weight(front) + Weight(tail)
  {
    if front == [] {
      assert front + tail == tail;
    } else {
      assert (front + tail)[0] == front[0] && (front + tail)[1..] == tail;
      assert front[1..] == [];
    }
  }

  // ---- Packing ------------------------------------------------------------------------------

  const MIN_SPLIT_HEAD_BYTES: nat := 24

  /** A head this small is not worth a split - unless the page has nothing
      else. The difference is unsigned: a page that shrank counts as large. */
  predicate TooSmall(f: Frame, cur: seq<Node>, head: Node) {
    cur != [] && 0 <= PageSize(f, cur + [head]) - PageSize(f, cur) < MIN_SPLIT_HEAD_BYTES
  }

  function WorthSplit(f: Frame, cur: seq<Node>, blk: Node): (r: SplitResult)
    ensures r.Split? ==> r == SplitToFit(f, cur, blk)
  {
    var r := SplitToFit(f, cur, blk);
    if r.Split? && TooSmall(f, cur, r.head) then NoSplit else r
  }

  /** The pages the loop still produces for `queue` with `cur` on the open page. */
  function Pack(f: Frame, queue: seq<Node>, cur: seq<Node>): (pages: seq<seq<Node>>)
    decreases Weight(queue), |cur|
  {
    if queue == [] then if cur == [] then [] else [cur]
    else
      var blk := queue[0];
      if Fits(f, cur + [blk]) then Pack(f, queue[1..], cur + [blk])
      else
        var r := WorthSplit(f, cur, blk);
        if r.Split? then
          SplitIsLighter(f, cur, blk);
          WeightPut(r.rest, queue[1..]);
          [cur + [r.head]] + Pack(f, r.rest + queue[1..], [])
        else if cur == [] then [[blk]] + Pack(f, queue[1..], [])
        else [cur] + Pack(f, queue, [])
  }

  /** A deck always has a page. */
  function PackAll(f: Frame, queue: seq<Node>): (pages: seq<seq<Node>>)
    ensures |pages| > 0
  {
    var pages := Pack(f, queue, []);
    if pages == [] then [[]] else pages
  }

  /** The packing loop: it terminates on every deck, because the weight left
      in the queue falls, or stays while the open page is closed. */
  method PackPages(f: Frame, blocks: seq<Node>) returns (pagev: seq<seq<Node>>)
    ensures pagev == PackAll(f, blocks)
  {
    hide Fits, SplitToFit, TooSmall;
    pagev := [];
    var queue, cur, i := blocks, [], 0;
    while i < |queue|
      invariant 0 <= i <= |queue|
      invariant pagev + Pack(f, queue[i..], cur) == Pack(f, blocks, [])
      decreases Weight(queue[i..]), |cur|
    {
      var blk := queue[i];
      assert queue[i..][0] == blk && queue[i..][1..] == queue[i + 1..];
      if Fits(f, cur + [blk]) {
        cur := cur + [blk];
        i := i + 1;
        continue;
      }
      var split := SplitBlock(f, cur, blk);
      if split.Split? && TooSmall(f, cur, split.head) { split := NoSplit; }
      ghost var left := queue[i..];
      if split.Split? {
        SplitIsLighter(f, cur, blk);
        WeightPut(split.rest, queue[i + 1..]);
        cur := cur + [split.head];
        left := split.rest + queue[i + 1..];
        if |split.rest| != 0 { queue := queue[i := split.rest[0]]; } else { i := i + 1; }
      } else if |cur| == 0 {
        assert cur + [blk] == [blk];
        cur := cur + [blk];
        left := queue[i + 1..];
        i := i + 1;
      }
      assert queue[i..] == left;
      Assoc(pagev, [cur], Pack(f, left, []));
      pagev := pagev + [cur];
      cur := [];
    }
    assert queue[i..] == [];
    if |cur| != 0 || |pagev| == 0 { pagev := pagev + [cur]; }
  }
}
