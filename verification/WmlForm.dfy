/** The form of the trees that parse_wml of src/wap_gateway/wbxml.c makes, and for
    which sources the printer and the parser undo each other. */
module WmlForm {
  import opened Ascii
  import opened Wbxml
  import opened WmlParser
  import opened WmlPrinter

  // ---- What every tree read is like ---------------------------------------------------------

  /** A text child shows something, or is the space of an inline gap. */
  predicate LooseKid(name: string, kids: seq<Node>, i: nat)
    requires i < |kids|
  {
    kids[i].Text? ==> NormalText(kids[i].text) || (kids[i].text == " " && InlineGap(name, kids[..i]))
  }

  predicate LooseKids(name: string, kids: seq<Node>) { forall i :: 0 <= i < |kids| ==> LooseKid(name, kids, i) }

  /** Like a normal tree, but texts may follow each other and a space may come last. */
  predicate Loose(n: Node, depth: nat)
    decreases n, 1
  {
    n.Elem? ==>
      && ValidName(n.name) && ValidAttrs(n.attrs)
      && (n.kids != [] ==> !IsVoidTag(n.name) && depth < STACK_MAX && LooseKids(n.name, n.kids) && AllLoose(n.kids, depth + 1))
  }

  predicate AllLoose(ns: seq<Node>, depth: nat)
    decreases ns, 0
  {
    ns == [] || (Loose(ns[0], depth) && AllLoose(ns[1..], depth))
  }

  /** No text follows a text, and a space between two siblings has both. */
  predicate TidyKids(kids: seq<Node>) {
    forall i :: 0 <= i < |kids| && kids[i].Text? ==>
      (i + 1 < |kids| ==> kids[i + 1].Elem?) && (kids[i].text == " " ==> i + 1 < |kids|)
  }

  predicate Tidy(n: Node)
    decreases n, 1
  {
    n.Elem? ==> TidyKids(n.kids) && AllTidy(n.kids)
  }

  predicate AllTidy(ns: seq<Node>)
    decreases ns, 0
  {
    ns == [] || (Tidy(ns[0]) && AllTidy(ns[1..]))
  }

  lemma SpaceIsBlank()
    ensures !NormalText(" ")
  {
    assert AllBlank(" ");
  }

  /** Normal child lists are the loose and tidy ones. */
  lemma KidsForm(name: string, kids: seq<Node>)
    requires LooseKids(name, kids)
    ensures KidsOk(name, kids) <==> TidyKids(kids)
  {
    hide NormalText, InlineGap;
    SpaceIsBlank();
    if TidyKids(kids) {
      forall i | 0 <= i < |kids| ensures KidOk(name, kids, i) { assert LooseKid(name, kids, i); }
    }
    if KidsOk(name, kids) {
      forall i | 0 <= i < |kids| && kids[i].Text?
        ensures (i + 1 < |kids| ==> kids[i + 1].Elem?) && (kids[i].text == " " ==> i + 1 < |kids|)
      {
        assert KidOk(name, kids, i);
      }
    }
  }

  lemma {:induction false} FormIs(n: Node, depth: nat)
    requires Loose(n, depth)
    ensures Normal(n, depth) <==> Tidy(n)
    decreases n, 1
  {
    hide LooseKids, KidsOk, TidyKids;
    if n.Elem? {
      if n.kids == [] {
        NothingTidy();
      } else {
        KidsForm(n.name, n.kids);
        AllFormIs(n.kids, depth + 1);
      }
    }
  }

  lemma NothingTidy()
    ensures TidyKids([])
  {}

  lemma {:induction false} AllFormIs(ns: seq<Node>, depth: nat)
    requires AllLoose(ns, depth)
    ensures AllNormal(ns, depth) <==> AllTidy(ns)
    decreases ns, 0
  {
    hide Normal, Tidy, Loose;
    if ns != [] {
      FormIs(ns[0], depth);
      AllFormIs(ns[1..], depth);
    }
  }

  // ---- Texts and attributes -------------------------------------------------------------------

  /** Blanks are single spaces. */
  predicate SingleSpaces(t: string) {
    && (forall i :: 0 <= i < |t| && IsBlank(t[i]) ==> t[i] == ' ')
    && forall i :: 0 < i < |t| ==> !(t[i - 1] == ' ' && t[i] == ' ')
  }

  lemma SpacesJoin(space: bool, c: char, r: string)
    requires !IsBlank(c) && SingleSpaces(r)
    ensures SingleSpaces((if space then " " else "") + [c] + r) && !AllBlank((if space then " " else "") + [c] + r)
  {
    var t := (if space then " " else "") + [c] + r;
    assert t[|t| - |r| - 1] == c;
  }

  lemma {:induction false} CollapseForm(s: string, space: bool)
    ensures SingleSpaces(Collapse(s, space))
    ensures !AllBlank(s) ==> !AllBlank(Collapse(s, space))
    decreases |s|
  {
    hide SingleSpaces, AllBlank;
    if s == "" {
      GapForm(space);
    } else if IsBlank(s[0]) {
      CollapseForm(s[1..], true);
      if !AllBlank(s) { BlankTail(s); }
    } else {
      CollapseForm(s[1..], false);
      SpacesJoin(space, s[0], Collapse(s[1..], false));
    }
  }

  lemma GapForm(space: bool)
    ensures SingleSpaces(if space then " " else "") && AllBlank("")
  {}

  lemma BlankTail(s: string)
    requires s != "" && IsBlank(s[0]) && !AllBlank(s)
    ensures !AllBlank(s[1..])
  {
    var i :| 0 <= i < |s| && !IsBlank(s[i]);
    assert s[1..][i - 1] == s[i];
  }

  lemma TextForm(s: string)
    ensures MakeText(s) == "" || NormalText(MakeText(s))
  {
    hide DecodeEntities, Collapse;
    CollapseForm(DecodeEntities(s), false);
  }

  lemma ShortValid(s: string, k: nat)
    requires 0 < k <= |s| && forall i :: 0 <= i < k ==> IsNameChar(s[i])
    ensures ValidName(ShortName(s[..k]))
  {}

  lemma {:induction false} ScanValid(s: string)
    ensures ValidAttrs(ScanAttrs(s).attrs)
    decreases |s|
  {
    hide NameLen, ReadRest, ScanAttrs, ValidName;
    if s == "" || s[0] == '>' {
      NoAttrs(s);
    } else {
      assert s[0..] == s;
      var k := NameLen(s);
      if k == 0 {
        ScanValid(s[1..]);
        SkipNext(s, 0);
      } else {
        var name := ShortName(s[..k]);
        var v := ReadRest(name, s[k..]);
        ShortValid(s, k);
        ScanValid(s[k + v.used..]);
        AttrNext(s, 0, k, name, v);
      }
    }
  }

  lemma NoAttrs(s: string)
    requires s == "" || s[0] == '>'
    ensures ScanAttrs(s).attrs == []
  {}

  // ---- The open elements -------------------------------------------------------------------------

  predicate LooseOpen(o: Open, d: nat) {
    && LooseKids(o.name, o.kids) && AllLoose(o.kids, d + 1)
    && (d > 0 ==> ValidName(o.name) && ValidAttrs(o.attrs) && !IsVoidTag(o.name))
  }

  ghost predicate LooseStack(stack: seq<Open>) {
    |stack| <= STACK_MAX && forall d :: 0 <= d < |stack| ==> LooseOpen(stack[d], d)
  }

  lemma {:induction false} LooseAppend(a: seq<Node>, b: seq<Node>, depth: nat)
    requires AllLoose(a, depth) && AllLoose(b, depth)
    ensures AllLoose(a + b, depth)
  {
    hide Loose;
    if a == [] {
      assert a + b == b;
    } else {
      assert (a + b)[0] == a[0] && (a + b)[1..] == a[1..] + b;
      LooseAppend(a[1..], b, depth);
    }
  }

  lemma OneLoose(n: Node, depth: nat)
    requires Loose(n, depth)
    ensures AllLoose([n], depth)
  {
    hide Loose;
    assert [n][1..] == [];
  }

  lemma KidAdded(name: string, kids: seq<Node>, n: Node)
    requires LooseKids(name, kids)
    requires n.Text? ==> NormalText(n.text) || (n.text == " " && InlineGap(name, kids))
    ensures LooseKids(name, kids + [n])
  {
    hide NormalText, InlineGap;
    var more := kids + [n];
    forall i | 0 <= i < |more| ensures LooseKid(name, more, i) {
      if i < |kids| {
        assert LooseKid(name, kids, i) && more[..i] == kids[..i];
      } else {
        assert more[..i] == kids;
      }
    }
  }

  lemma AddLoose(stack: Stack, n: Node)
    requires LooseStack(stack) && Loose(n, |stack|)
    requires n.Text? ==> NormalText(n.text) || (n.text == " " && InlineGap(Top(stack).name, Top(stack).kids))
    ensures LooseStack(AddKids(stack, [n]))
  {
    hide LooseKids, AllLoose, Loose, NormalText, InlineGap, ValidName, ValidAttrs, IsVoidTag;
    var top := Top(stack);
    assert LooseOpen(top, |stack| - 1);
    OneLoose(n, |stack|);
    LooseAppend(top.kids, [n], |stack|);
    KidAdded(top.name, top.kids, n);
  }

  lemma ClosedLoose(o: Open, d: nat)
    requires 0 < d < STACK_MAX && LooseOpen(o, d)
    ensures Loose(Elem(o.name, o.attrs, o.kids), d)
  {
    hide LooseKids, ValidName, ValidAttrs, IsVoidTag;
  }

  lemma {:induction false} CloseLoose(stack: Stack, depth: nat)
    requires depth >= 1 && LooseStack(stack)
    ensures LooseStack(CloseTo(stack, depth))
    decreases |stack|
  {
    hide LooseOpen, AddKids, Loose;
    if |stack| > depth {
      var top := Top(stack);
      var n := Elem(top.name, top.attrs, top.kids);
      ClosedLoose(top, |stack| - 1);
      AddLoose(stack[..|stack| - 1], n);
      CloseLoose(AddKids(stack[..|stack| - 1], [n]), depth);
    }
  }

  lemma TextLoose(t: string, depth: nat)
    ensures Loose(Text(t), depth)
  {}

  lemma NewLoose(name: string, attrs: seq<Attribute>, depth: nat)
    requires ValidName(name) && ValidAttrs(attrs)
    ensures Loose(Elem(name, attrs, []), depth)
    ensures !IsVoidTag(name) ==> LooseOpen(Open(name, attrs, []), depth)
  {
    hide ValidName, ValidAttrs, IsVoidTag;
  }

  lemma StepLoose(s: string, stack: Stack)
    requires s != "" && LooseStack(stack)
    ensures LooseStack(ParseStep(s, stack).stack)
  {
    hide AddKids, CloseTo, MakeText, ScanAttrs, Matching, NameLen, PastAngle, FindStr, Find, LooseOpen, Loose, InlineGap, NormalText,
      ValidName, ValidAttrs, IsVoidTag, HasAt;
    if s[0] != '<' {
      var t := MakeText(s[..Find(s, 0, '<')]);
      TextForm(s[..Find(s, 0, '<')]);
      TextLoose(t, |stack|);
      TextLoose(" ", |stack|);
      if t != "" { AddLoose(stack, Text(t)); }
      if InlineGap(Top(stack).name, Top(stack).kids) { AddLoose(stack, Text(" ")); }
    } else if At(s, 1) == '/' {
      var k := NameLen(s[2..]);
      var d := Matching(stack, ShortName(s[2..2 + k]), |stack| - 1);
      if d > 0 { CloseLoose(stack, d); }
    } else {
      var k := NameLen(s[1..]);
      if k > 0 {
        var name, attrs := ShortName(s[1..1 + k]), ScanAttrs(s[1 + k..]).attrs;
        ScanValid(s[1 + k..]);
        ShortValid(s[1..], k);
        assert s[1..][..k] == s[1..1 + k];
        NewLoose(name, attrs, |stack|);
        AddLoose(stack, Elem(name, attrs, []));
      }
    }
  }

  lemma {:induction false} ParseFromLoose(s: string, stack: Stack)
    requires LooseStack(stack)
    ensures LooseStack(ParseFrom(s, stack))
    decreases |s|
  {
    hide ParseStep, LooseStack;
    if s != "" {
      var st := ParseStep(s, stack);
      StepLoose(s, stack);
      ParseFromLoose(s[st.used..], st.stack);
    }
  }

  /** Every source is read as a loose tree. */
  lemma ParseLoose(s: string)
    ensures var root := Parse(s);
            root.Elem? && root.name == ROOT.name && root.attrs == [] && LooseKids(root.name, root.kids) && AllLoose(root.kids, 1)
  {
    hide ParseFrom, CloseTo, ValidName, ValidAttrs, IsVoidTag;
    var stack: Stack := [ROOT];
    assert LooseStack(stack);
    ParseFromLoose(s, stack);
    CloseLoose(ParseFrom(s, stack), 1);
    assert LooseOpen(CloseTo(ParseFrom(s, stack), 1)[0], 0);
    RootParse(s, stack);
    RootClose(ParseFrom(s, stack), 1);
  }

  lemma RootAdd(stack: Stack, kids: seq<Node>)
    ensures AddKids(stack, kids)[0].name == stack[0].name && AddKids(stack, kids)[0].attrs == stack[0].attrs
  {}

  lemma {:induction false} RootClose(stack: Stack, depth: nat)
    requires depth >= 1
    ensures CloseTo(stack, depth)[0].name == stack[0].name && CloseTo(stack, depth)[0].attrs == stack[0].attrs
    decreases |stack|
  {
    hide AddKids;
    if |stack| > depth {
      var top := Top(stack);
      var n := Elem(top.name, top.attrs, top.kids);
      RootAdd(stack[..|stack| - 1], [n]);
      RootClose(AddKids(stack[..|stack| - 1], [n]), depth);
    }
  }

  lemma RootStep(s: string, stack: Stack)
    requires s != ""
    ensures var next := ParseStep(s, stack).stack; next[0].name == stack[0].name && next[0].attrs == stack[0].attrs
  {
    hide AddKids, CloseTo, MakeText, ScanAttrs, Matching, NameLen, PastAngle, FindStr, Find, InlineGap, IsVoidTag, HasAt;
    if s[0] != '<' {
      RootAdd(stack, [Text(MakeText(s[..Find(s, 0, '<')]))]);
      RootAdd(stack, [Text(" ")]);
    } else if At(s, 1) == '/' {
      var k := NameLen(s[2..]);
      var d := Matching(stack, ShortName(s[2..2 + k]), |stack| - 1);
      if d > 0 { RootClose(stack, d); }
    } else {
      var k := NameLen(s[1..]);
      RootAdd(stack, [Elem(ShortName(s[1..1 + k]), ScanAttrs(s[1 + k..]).attrs, [])]);
    }
  }

  lemma {:induction false} RootParse(s: string, stack: Stack)
    ensures ParseFrom(s, stack)[0].name == stack[0].name && ParseFrom(s, stack)[0].attrs == stack[0].attrs
    decreases |s|
  {
    hide ParseStep;
    if s != "" {
      var st := ParseStep(s, stack);
      RootStep(s, stack);
      RootParse(s[st.used..], st.stack);
    }
  }

  /** A source is read as a normal tree exactly when no text of the tree follows
      another and no space of a gap comes last; then printing and reading again
      gives the same tree. */
  lemma ParseNormalExactly(s: string)
    ensures var root := Parse(s);
            && root.Elem?
            && (KidsOk(ROOT.name, root.kids) && AllNormal(root.kids, 1) <==> Tidy(root))
            && (Tidy(root) ==> Parse(PrintAll(root.kids)) == root)
  {
    hide Parse, LooseKids, AllLoose, KidsOk, AllNormal, TidyKids, PrintAll;
    var root := Parse(s);
    ParseLoose(s);
    KidsForm(root.name, root.kids);
    AllFormIs(root.kids, 1);
    if Tidy(root) { RoundTrip(root.kids); }
  }
}
