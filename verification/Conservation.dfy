/** Pagination conserves content: every page sequence the packer makes is the
    card's blocks in document order, cut only at page ends. */
module Conservation {
  import opened Ascii
  import opened SeamText
  import opened Wbxml
  import opened Paginator
  import opened Deck

  /** What a block shows, in order: its element children and the words of its texts. */
  datatype Item = Word(w: string) | Child(n: Node)

  function WordItems(ws: seq<string>): (r: seq<Item>)
    ensures |r| == |ws|
    ensures forall i :: 0 <= i < |r| ==> r[i] == Word(ws[i])
  {
    seq(|ws|, i requires 0 <= i < |ws| => Word(ws[i]))
  }

  function KidItems(n: Node): seq<Item> {
    match n
    case Text(t) => WordItems(Words(t))
    case Elem(_, _, _) => [Child(n)]
  }

  function Items(kids: seq<Node>): seq<Item> {
    if kids == [] then [] else KidItems(kids[0]) + Items(kids[1..])
  }

  function BlockItems(n: Node): seq<Item> { if n.Elem? then Items(n.kids) else KidItems(n) }

  predicate IsSeparatorItem(i: Item) { i.Word? && IsSeparator(i.w) }

  /** `head` ends a page and `rest` (none or one block) opens the next: both
      have the block's tag and attributes, and together they show what it
      showed, in order and once, but for bare separator words at the seam. */
  predicate CutInTwo(blk: Node, head: Node, rest: seq<Node>) {
    && blk.Elem? && head.Elem? && head.name == blk.name && head.attrs == blk.attrs
    && (rest == [] || (|rest| == 1 && rest[0].Elem? && rest[0].name == blk.name && rest[0].attrs == blk.attrs))
    && Resumes(Items(blk.kids), Items(head.kids), if rest == [] then [] else Items(rest[0].kids))
  }

  predicate Resumes(all: seq<Item>, first: seq<Item>, last: seq<Item>) {
    && |first| + |last| <= |all|
    && all[..|first|] == first
    && all[|all| - |last|..] == last
    && forall i :: |first| <= i < |all| - |last| ==> IsSeparatorItem(all[i])
  }

  /** `page` takes whole blocks off the front and leaves `left`; its last block may be a cut one. */
  ghost predicate PageTakes(page: seq<Node>, blocks: seq<Node>, left: seq<Node>) {
    && |page| <= |blocks|
    && ((page == blocks[..|page|] && left == blocks[|page|..])
        || (page != [] && page[..|page| - 1] == blocks[..|page| - 1]
            && exists rest :: CutInTwo(blocks[|page| - 1], page[|page| - 1], rest)
                              && left == rest + blocks[|page|..]))
  }

  ghost predicate Conserves(blocks: seq<Node>, pages: seq<seq<Node>>)
    decreases |pages|
  {
    if pages == [] then blocks == []
    else exists left :: PageTakes(pages[0], blocks, left) && Conserves(left, pages[1..])
  }

  // ---- One split -----------------------------------------------------------------------

  lemma {:induction false} ItemsAppend(a: seq<Node>, b: seq<Node>)
    ensures Items(a + b) == Items(a) + Items(b)
  {
    if a == [] {
      assert a + b == b;
    } else {
      assert (a + b)[0] == a[0] && (a + b)[1..] == a[1..] + b;
      ItemsAppend(a[1..], b);
      Assoc(KidItems(a[0]), Items(a[1..]), Items(b));
    }
  }

  lemma OneItem(n: Node)
    ensures Items([n]) == KidItems(n)
  {
    assert [n][1..] == [];
    assert KidItems(n) + [] == KidItems(n);
  }

  lemma TextKidItems(t: string)
    ensures Items(TextKid(t)) == WordItems(Words(t))
  {
    if t != "" { OneItem(Text(t)); }
  }

  /** Cutting a text between words: the words before, bare separators, the words after. */
  lemma TextResumes(t: string, cut: nat) returns (gap: seq<string>)
    requires BetweenWords(t, cut)
    ensures Words(t) == Words(t[..cut]) + (gap + Words(SkipSeparators(t[cut..])))
    ensures forall i :: 0 <= i < |gap| ==> IsSeparator(gap[i])
  {
    WordsCut(t, cut);
    gap := SkipKeepsWords(t[cut..]);
  }

  lemma Joined(before: seq<Item>, a: seq<Item>, gap: seq<Item>, b: seq<Item>, after: seq<Item>)
    requires forall i :: 0 <= i < |gap| ==> IsSeparatorItem(gap[i])
    ensures Resumes(before + ((a + (gap + b)) + after), before + a, b + after)
  {
    var all := before + ((a + (gap + b)) + after);
    assert all == (before + a) + (gap + (b + after));
    forall i | |before + a| <= i < |all| - |b + after| ensures IsSeparatorItem(all[i]) {
      assert all[i] == gap[i - |before + a|];
    }
  }

  lemma WordItemsAppend(a: seq<string>, b: seq<string>)
    ensures WordItems(a + b) == WordItems(a) + WordItems(b)
  {}

  lemma BlockSplitsAt(kids: seq<Node>, m: nat)
    requires m < |kids|
    ensures Items(kids) == Items(kids[..m]) + (KidItems(kids[m]) + Items(kids[m + 1..]))
    ensures Items(kids[m..]) == KidItems(kids[m]) + Items(kids[m + 1..])
  {
    assert kids == kids[..m] + kids[m..];
    ItemsAppend(kids[..m], kids[m..]);
    assert kids[m..][0] == kids[m] && kids[m..][1..] == kids[m + 1..];
  }

  lemma TextSeamResumes(blk: Node, s: Seam)
    requires ValidSeam(blk, s) && blk.kids[s.m].Text?
    ensures Resumes(Items(blk.kids), Items(HeadOf(blk, s).kids), Items(RestKids(blk, s)))
  {
    hide Items, Words, SkipSeparators, Resumes;
    var t := blk.kids[s.m].text;
    var head, tail := t[..s.cut], SkipSeparators(t[s.cut..]);
    var gap := TextResumes(t, s.cut);
    BlockSplitsAt(blk.kids, s.m);
    WordItemsAppend(Words(head), gap + Words(tail));
    WordItemsAppend(gap, Words(tail));
    Joined(Items(blk.kids[..s.m]), WordItems(Words(head)), WordItems(gap), WordItems(Words(tail)),
           Items(blk.kids[s.m + 1..]));
    ItemsAppend(blk.kids[..s.m], TextKid(head));
    TextKidItems(head);
    ItemsAppend(TextKid(tail), blk.kids[s.m + 1..]);
    TextKidItems(tail);
  }

  lemma ChildSeamResumes(blk: Node, s: Seam)
    requires ValidSeam(blk, s) && blk.kids[s.m].Elem?
    ensures Resumes(Items(blk.kids), Items(HeadOf(blk, s).kids), Items(RestKids(blk, s)))
  {
    hide Items;
    assert blk.kids == blk.kids[..s.m] + blk.kids[s.m..];
    ItemsAppend(blk.kids[..s.m], blk.kids[s.m..]);
    assert HeadOf(blk, s).kids == blk.kids[..s.m];
  }

  /** Whatever seam is chosen, the two parts resume the block. */
  lemma SeamCuts(blk: Node, s: Seam)
    requires ValidSeam(blk, s)
    ensures CutInTwo(blk, HeadOf(blk, s), RestOf(blk, s))
  {
    hide Resumes, Items, SkipSeparators, BetweenWords;
    if blk.kids[s.m].Text? { TextSeamResumes(blk, s); } else { ChildSeamResumes(blk, s); }
    assert Items([]) == [] by { NoItems(); }
  }

  lemma NoItems()
    ensures Items([]) == []
  {}

  lemma SplitCuts(f: Frame, cur: seq<Node>, blk: Node)
    ensures var r := SplitToFit(f, cur, blk); r.Split? ==> CutInTwo(blk, r.head, r.rest)
  {
    hide CutInTwo, LargestFit, TidySeam, FirstSeam, HeadOf, RestOf;
    if blk.Elem? && blk.kids != [] && LargestFit(f, cur, blk, 0) < |blk.kids| {
      SeamCuts(blk, TidySeam(blk, FirstSeam(f, cur, blk, LargestFit(f, cur, blk, 0))));
    }
  }

  // ---- All pages ------------------------------------------------------------------------

  lemma WholeBlocks(cur: seq<Node>, queue: seq<Node>)
    ensures PageTakes(cur, cur + queue, queue)
  {
    assert (cur + queue)[..|cur|] == cur && (cur + queue)[|cur|..] == queue;
  }

  lemma CutLast(cur: seq<Node>, queue: seq<Node>, head: Node, rest: seq<Node>)
    requires queue != [] && CutInTwo(queue[0], head, rest)
    ensures PageTakes(cur + [head], cur + queue, rest + queue[1..])
  {
    hide CutInTwo;
    var page, blocks := cur + [head], cur + queue;
    assert page[..|page| - 1] == cur && blocks[..|page| - 1] == cur;
    assert blocks[|page| - 1] == queue[0] && blocks[|page|..] == queue[1..];
  }

  lemma {:induction false} PackConserves(f: Frame, queue: seq<Node>, cur: seq<Node>)
    ensures Conserves(cur + queue, Pack(f, queue, cur))
    decreases Weight(queue), |cur|
  {
    hide Fits, SplitToFit, TooSmall, PageTakes, CutInTwo;
    if queue == [] {
      assert cur + queue == cur;
      if cur != [] {
        WholeBlocks(cur, []);
        assert [cur][1..] == [];
        assert Conserves([], []);
      }
    } else if Fits(f, cur + [queue[0]]) {
      PackConserves(f, queue[1..], cur + [queue[0]]);
      assert cur + queue == cur + [queue[0]] + queue[1..];
    } else {
      PackPageConserves(f, queue, cur);
    }
  }

  lemma {:induction false} PackPageConserves(f: Frame, queue: seq<Node>, cur: seq<Node>)
    requires queue != [] && !Fits(f, cur + [queue[0]])
    ensures Conserves(cur + queue, Pack(f, queue, cur))
    decreases Weight(queue), |cur|, 0
  {
    hide Fits, SplitToFit, TooSmall, PageTakes, CutInTwo;
    var blk := queue[0];
    var r := WorthSplit(f, cur, blk);
    if r.Split? {
      SplitIsLighter(f, cur, blk);
      WeightPut(r.rest, queue[1..]);
      SplitCuts(f, cur, blk);
      CutLast(cur, queue, r.head, r.rest);
      PackConserves(f, r.rest + queue[1..], []);
      OnePage(cur + queue, cur + [r.head], r.rest + queue[1..], Pack(f, r.rest + queue[1..], []));
    } else if cur == [] {
      assert cur + queue == [blk] + queue[1..];
      WholeBlocks([blk], queue[1..]);
      PackConserves(f, queue[1..], []);
      OnePage(cur + queue, [blk], queue[1..], Pack(f, queue[1..], []));
    } else {
      WholeBlocks(cur, queue);
      PackConserves(f, queue, []);
      OnePage(cur + queue, cur, queue, Pack(f, queue, []));
    }
  }

  lemma OnePage(blocks: seq<Node>, page: seq<Node>, left: seq<Node>, pages: seq<seq<Node>>)
    requires PageTakes(page, blocks, left) && Conserves([] + left, pages)
    ensures Conserves(blocks, [page] + pages)
  {
    hide PageTakes;
    assert [] + left == left;
    assert ([page] + pages)[1..] == pages;
  }

  /** For every deck, title, base and limit: the pages are the blocks, in order,
      each whole or cut in two at a page end. */
  lemma PagesConserve(f: Frame, blocks: seq<Node>)
    ensures Conserves(blocks, PackAll(f, blocks))
  {
    hide Pack, PageTakes;
    PackConserves(f, blocks, []);
    assert [] + blocks == blocks;
    if Pack(f, blocks, []) == [] {
      WholeBlocks([], []);
      assert PackAll(f, blocks)[1..] == [];
      assert Conserves([], []);
    }
  }

  // ---- The same, word by word -------------------------------------------------------------

  function Flatten(pages: seq<seq<Node>>): seq<Node> {
    if pages == [] then [] else pages[0] + Flatten(pages[1..])
  }

  function AllItems(blocks: seq<Node>): seq<Item> {
    if blocks == [] then [] else BlockItems(blocks[0]) + AllItems(blocks[1..])
  }

  /** Everything but the bare separator words. */
  function Kept(items: seq<Item>): seq<Item> {
    if items == [] then []
    else KeptItem(items[0]) + Kept(items[1..])
  }

  function KeptItem(i: Item): seq<Item> { if IsSeparatorItem(i) then [] else [i] }

  lemma {:induction false} KeptAppend(a: seq<Item>, b: seq<Item>)
    ensures Kept(a + b) == Kept(a) + Kept(b)
  {
    hide KeptItem;
    if a == [] {
      assert a + b == b;
    } else {
      assert (a + b)[0] == a[0] && (a + b)[1..] == a[1..] + b;
      KeptAppend(a[1..], b);
      Assoc(KeptItem(a[0]), Kept(a[1..]), Kept(b));
    }
  }

  lemma {:induction false} SeparatorsNotKept(a: seq<Item>)
    requires forall i :: 0 <= i < |a| ==> IsSeparatorItem(a[i])
    ensures Kept(a) == []
  {
    if a != [] { SeparatorsNotKept(a[1..]); }
  }

  lemma ResumesKeeps(all: seq<Item>, first: seq<Item>, last: seq<Item>)
    requires Resumes(all, first, last)
    ensures Kept(all) == Kept(first) + Kept(last)
  {
    hide Kept;
    var gap := all[|first|..|all| - |last|];
    assert all == first + (gap + last);
    KeptAppend(first, gap + last);
    KeptAppend(gap, last);
    SeparatorsNotKept(gap);
    assert [] + Kept(last) == Kept(last);
  }

  lemma {:induction false} AllItemsAppend(a: seq<Node>, b: seq<Node>)
    ensures AllItems(a + b) == AllItems(a) + AllItems(b)
  {
    hide BlockItems;
    if a == [] {
      assert a + b == b;
    } else {
      assert (a + b)[0] == a[0] && (a + b)[1..] == a[1..] + b;
      AllItemsAppend(a[1..], b);
      Assoc(BlockItems(a[0]), AllItems(a[1..]), AllItems(b));
    }
  }

  lemma KeptOfAppend(a: seq<Node>, b: seq<Node>)
    ensures Kept(AllItems(a + b)) == Kept(AllItems(a)) + Kept(AllItems(b))
  {
    AllItemsAppend(a, b);
    KeptAppend(AllItems(a), AllItems(b));
  }

  lemma OneBlock(n: Node)
    ensures AllItems([n]) == BlockItems(n)
  {
    assert [n][1..] == [];
    assert BlockItems(n) + [] == BlockItems(n);
  }

  lemma CutKeeps(blk: Node, head: Node, rest: seq<Node>)
    requires CutInTwo(blk, head, rest)
    ensures Kept(AllItems([blk])) == Kept(AllItems([head])) + Kept(AllItems(rest))
  {
    hide Resumes, Kept;
    OneBlock(blk);
    OneBlock(head);
    if rest == [] {
      ResumesKeeps(Items(blk.kids), Items(head.kids), []);
    } else {
      assert rest == [rest[0]];
      OneBlock(rest[0]);
      ResumesKeeps(Items(blk.kids), Items(head.kids), Items(rest[0].kids));
    }
  }

  lemma TakesKeeps(page: seq<Node>, blocks: seq<Node>, left: seq<Node>)
    requires PageTakes(page, blocks, left)
    ensures Kept(AllItems(blocks)) == Kept(AllItems(page)) + Kept(AllItems(left))
  {
    hide CutInTwo, Kept, AllItems;
    if page == blocks[..|page|] && left == blocks[|page|..] {
      assert blocks == page + left;
      KeptOfAppend(page, left);
    } else {
      var k := |page| - 1;
      var rest :| CutInTwo(blocks[k], page[k], rest) && left == rest + blocks[|page|..];
      var front, back := blocks[..k], blocks[k + 1..];
      CutKeeps(blocks[k], page[k], rest);
      assert page == front + [page[k]];
      assert blocks == front + ([blocks[k]] + back);
      KeptOfAppend(front, [page[k]]);
      KeptOfAppend(front, [blocks[k]] + back);
      KeptOfAppend([blocks[k]], back);
      KeptOfAppend(rest, back);
      Regroup4(Kept(AllItems(front)), Kept(AllItems([page[k]])), Kept(AllItems(rest)), Kept(AllItems(back)));
    }
  }

  lemma Regroup4<T>(a: seq<T>, b: seq<T>, c: seq<T>, d: seq<T>)
    ensures a + ((b + c) + d) == (a + b) + (c + d)
  {}

  lemma {:induction false} ConservesKept(blocks: seq<Node>, pages: seq<seq<Node>>)
    requires Conserves(blocks, pages)
    ensures Kept(AllItems(blocks)) == Kept(AllItems(Flatten(pages)))
    decreases |pages|
  {
    hide PageTakes, Kept, AllItems;
    if pages != [] {
      var left :| PageTakes(pages[0], blocks, left) && Conserves(left, pages[1..]);
      TakesKeeps(pages[0], blocks, left);
      ConservesKept(left, pages[1..]);
      KeptOfAppend(pages[0], Flatten(pages[1..]));
    }
  }

  /** Every element child, and every word that is not a bare separator, is on
      exactly one page, in document order. */
  lemma NothingIsLost(f: Frame, blocks: seq<Node>)
    ensures Kept(AllItems(Flatten(PackAll(f, blocks)))) == Kept(AllItems(blocks))
  {
    hide Conserves, PackAll, Kept, AllItems, Flatten;
    PagesConserve(f, blocks);
    ConservesKept(blocks, PackAll(f, blocks));
  }

  lemma OnlyPage(blocks: seq<Node>)
    ensures Conserves(blocks, [blocks])
  {
    WholeBlocks([], blocks);
    assert [blocks][1..] == [];
    assert blocks[..|blocks|] == blocks && blocks[|blocks|..] == [];
    assert PageTakes(blocks, blocks, []) && Conserves([], []);
  }

  /** The same for everything paged_build may be asked: whatever the deck, the
      address, the page and the packet size, its pages are the card's blocks. */
  lemma DeckConserves(root: Node, uri: string, absolute: bool, page: int, pageBytes: nat)
    requires root.Elem?
    ensures var pages := Build(root, uri, absolute, page, pageBytes).pages;
            && Conserves(BlocksOf(root), pages)
            && Kept(AllItems(Flatten(pages))) == Kept(AllItems(BlocksOf(root)))
  {
    hide Conserves, PackAll, Kept, AllItems, Flatten, BlocksOf, FitsWhole, FrameFor, BaseTitle, UriBase, NavFor, TitleFor;
    var blocks, pages := BlocksOf(root), Build(root, uri, absolute, page, pageBytes).pages;
    var title, base := BaseTitle(root), if absolute then UriBase(uri) else "";
    if FitsWhole(title, blocks, base, pageBytes) {
      OnlyPage(blocks);
    } else {
      PagesConserve(FrameFor(title, uri, base, pageBytes), blocks);
    }
    ConservesKept(blocks, pages);
  }
}
