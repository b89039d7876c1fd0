/** Cutting one text child between words and tidying the seam: word_cuts,
    trim_dangling_tail and skip_leading_separators of src/wap_gateway/wbxml.c. */
module SeamText {
  import opened Ascii

  // ---- Words ------------------------------------------------------------------

  /** The maximal runs of non-space characters. */
  function Words(t: string): seq<string>
    decreases |t|
  {
    if t == "" then []
    else if t[0] == ' ' then Words(t[1..])
    else
      var e := Find(t, 0, ' ');
      [t[..e]] + Words(t[e..])
  }

  predicate IsSeparatorChar(c: char) { c in "|,;:-" }

  /** A bare separator word. */
  predicate IsSeparator(w: string) { forall i :: 0 <= i < |w| ==> IsSeparatorChar(w[i]) }

  /** `cut` does not fall inside a word of `t`. */
  predicate BetweenWords(t: string, cut: nat) {
    cut <= |t| && (cut == 0 || cut == |t| || t[cut] == ' ' || t[cut - 1] == ' ')
  }

  lemma {:induction false} WordsCut(t: string, cut: nat)
    requires BetweenWords(t, cut)
    ensures Words(t) == Words(t[..cut]) + Words(t[cut..])
    decreases |t|
  {
    if cut == 0 {
      assert t[..0] == "" && t[0..] == t;
    } else if cut == |t| {
      assert t[..cut] == t && t[cut..] == "";
    } else if t[0] == ' ' {
      WordsCut(t[1..], cut - 1);
      assert t[..cut][1..] == t[1..][..cut - 1];
      assert t[1..][cut - 1..] == t[cut..];
    } else {
      var e := Find(t, 0, ' ');
      var h := t[..cut];
      FirstWord(t, cut, e);
      if e < cut {
        WordsCut(t[e..], cut - e);
        assert h[e..] == t[e..][..cut - e] && t[e..][cut - e..] == t[cut..];
      } else {
        assert h[e..] == "";
      }
    }
  }

  lemma FirstWord(t: string, cut: nat, e: nat)
    requires BetweenWords(t, cut) && 0 < cut < |t| && t[0] != ' ' && e == Find(t, 0, ' ')
    ensures 0 < e <= cut && Find(t[..cut], 0, ' ') == e && t[..cut][..e] == t[..e]
  {
    var h := t[..cut];
    var f := Find(h, 0, ' ');
    if f < cut { assert t[f] == ' '; }
    if e < cut { assert h[e] == ' '; }
    if t[cut] == ' ' { assert e <= cut; } else { assert t[cut - 1] == ' ' && h[cut - 1] == ' '; }
  }

  // ---- Where a text may be cut ----------------------------------------------------

  const MAX_WORDS: nat := 4096

  predicate EndsWord(t: string, i: nat)
    requires 1 <= i <= |t|
  {
    i == |t| || (t[i] == ' ' && t[i - 1] != ' ')
  }

  function CutsFrom(t: string, i: nat, max: nat): seq<nat>
    requires 1 <= i
    decreases |t| + 1 - i
  {
    if i > |t| || max == 0 then []
    else if EndsWord(t, i) then [i] + CutsFrom(t, i + 1, max - 1)
    else CutsFrom(t, i + 1, max)
  }

  function WordCuts(t: string): seq<nat> { CutsFrom(t, 1, MAX_WORDS) }

  lemma {:induction false} CutsBetweenWords(t: string, i: nat, max: nat, k: nat)
    requires 1 <= i && k < |CutsFrom(t, i, max)|
    ensures 1 <= CutsFrom(t, i, max)[k] && BetweenWords(t, CutsFrom(t, i, max)[k])
    decreases |t| + 1 - i
  {
    if EndsWord(t, i) {
      if k > 0 { CutsBetweenWords(t, i + 1, max - 1, k - 1); }
    } else {
      CutsBetweenWords(t, i + 1, max, k);
    }
  }

  method FindCuts(t: string) returns (cuts: seq<nat>)
    ensures cuts == WordCuts(t)
  {
    cuts := [];
    var i := 1;
    while i <= |t| && |cuts| < MAX_WORDS
      invariant 1 <= i <= |t| + 1 && |cuts| <= MAX_WORDS
      invariant cuts + CutsFrom(t, i, MAX_WORDS - |cuts|) == WordCuts(t)
    {
      if EndsWord(t, i) { cuts := cuts + [i]; }
      i := i + 1;
    }
  }

  // ---- Dropping a dangling tail ------------------------------------------------------

  /** has_alnum: a letter, a digit or any non-ASCII byte. */
  predicate HasAlnum(w: string) { exists i :: 0 <= i < |w| && (IsAlnum(w[i]) || w[i] as int >= 0x80) }

  /** Whether a word can end a page's last line. */
  predicate EndsLine(w: string) {
    HasAlnum(w) || ((forall i :: 0 <= i < |w| ==> w[i] !in "[({<") && !IsSeparator(w))
  }

  function TrimSpaces(t: string, end: nat): (r: nat)
    requires end <= |t|
    ensures r <= end
    ensures r > 0 ==> t[r - 1] != ' '
    ensures r < end ==> t[r] == ' '
  {
    if end > 0 && t[end - 1] == ' ' then TrimSpaces(t, end - 1) else end
  }

  function WordStart(t: string, end: nat): (r: nat)
    requires end <= |t|
    ensures r <= end
    ensures r > 0 ==> t[r - 1] == ' '
    ensures end > 0 && t[end - 1] != ' ' ==> r < end
  {
    if end > 0 && t[end - 1] != ' ' then WordStart(t, end - 1) else end
  }

  /** Length of t[..end] up to the end of its last word that can end a line. */
  function TrimTail(t: string, end: nat): (r: nat)
    requires BetweenWords(t, end)
    ensures r <= end && BetweenWords(t, r)
  {
    var e := TrimSpaces(t, end);
    if e == 0 then 0
    else
      var start := WordStart(t, e);
      if EndsLine(t[start..e]) then e else TrimTail(t, start)
  }

  method TrimDanglingTail(t: string) returns (keep: nat)
    ensures keep == TrimTail(t, |t|)
  {
    var end: nat := |t|;
    while true
      invariant end <= |t| && BetweenWords(t, end)
      invariant TrimTail(t, end) == TrimTail(t, |t|)
      decreases end
    {
      ghost var from := end;
      while end > 0 && t[end - 1] == ' '
        invariant end <= from
        invariant TrimSpaces(t, end) == TrimSpaces(t, from)
      {
        end := end - 1;
      }
      if end == 0 { return 0; }
      var start: nat := end;
      while start > 0 && t[start - 1] != ' '
        invariant start <= end
        invariant WordStart(t, start) == WordStart(t, end)
      {
        start := start - 1;
      }
      if EndsLine(t[start..end]) { return end; }
      end := start;
    }
  }

  // ---- Dropping leading separators ---------------------------------------------------

  function SkipSpaces(t: string): (r: string)
    ensures |r| <= |t|
    ensures r == "" || r[0] != ' '
    ensures Words(r) == Words(t)
  {
    if t != "" && t[0] == ' ' then SkipSpaces(t[1..]) else t
  }

  /** `t` past its leading spaces and bare separator words. */
  function SkipSeparators(t: string): (r: string)
    ensures |r| <= |t|
    decreases |t|
  {
    var u := SkipSpaces(t);
    var n := Find(u, 0, ' ');
    if n == 0 || HasAlnum(u[..n]) || !IsSeparator(u[..n]) then u else SkipSeparators(u[n..])
  }

  /** Only bare separator words are skipped. */
  lemma {:induction false} SkipKeepsWords(t: string) returns (dropped: seq<string>)
    ensures Words(t) == dropped + Words(SkipSeparators(t))
    ensures forall i :: 0 <= i < |dropped| ==> IsSeparator(dropped[i])
    decreases |t|
  {
    var u := SkipSpaces(t);
    var n := Find(u, 0, ' ');
    if n == 0 || HasAlnum(u[..n]) || !IsSeparator(u[..n]) {
      dropped := [];
    } else {
      var more := SkipKeepsWords(u[n..]);
      dropped := [u[..n]] + more;
    }
  }

  method SkipLeadingSeparators(t: string) returns (r: string)
    ensures r == SkipSeparators(t)
  {
    r := t;
    while true
      invariant SkipSeparators(r) == SkipSeparators(t)
      decreases |r|
    {
      ghost var from := r;
      while |r| > 0 && r[0] == ' '
        invariant |r| <= |from|
        invariant SkipSpaces(r) == SkipSpaces(from)
      {
        r := r[1..];
      }
      var n := Find(r, 0, ' ');
      if n == 0 || HasAlnum(r[..n]) || !IsSeparator(r[..n]) { return; }
      r := r[n..];
    }
  }
}
