/** WML text output (ser_escape, ser_attr, ser_node of src/wap_gateway/wbxml.c)
    and the reader as its inverse. */
module WmlPrinter {
  import opened Ascii
  import opened Wbxml
  import opened WmlString
  import opened WmlParser

  // ---- The printer --------------------------------------------------------------------

  function EscapeChar(c: char, attr: bool): string {
    if c == '&' then "&amp;"
    else if c == '<' then "&lt;"
    else if c == '>' then "&gt;"
    else if c == '"' && attr then "&quot;"
    else [c]
  }

  function Escape(s: string, attr: bool): string {
    if s == "" then "" else EscapeChar(s[0], attr) + Escape(s[1..], attr)
  }

  function PrintAttr(a: Attribute): string {
    " " + (a.name + ("=\"" + (Escape(a.value, true) + "\"")))
  }

  function PrintAttrs(attrs: seq<Attribute>): string {
    if attrs == [] then "" else PrintAttr(attrs[0]) + PrintAttrs(attrs[1..])
  }

  function EndTag(name: string): string { "</" + (name + ">") }

  function Print(n: Node): string
    decreases n, 1
  {
    match n
    case Text(t) => Escape(t, false)
    case Elem(name, attrs, kids) =>
      "<" + (name + (PrintAttrs(attrs) +
        if kids == [] then "/>" else ">" + (PrintAll(kids) + EndTag(name))))
  }

  function PrintAll(ns: seq<Node>): string
    decreases ns, 0
  {
    if ns == [] then "" else Print(ns[0]) + PrintAll(ns[1..])
  }

  method PutEscaped(b: Buf, s: string, attr: bool)
    modifies b
    ensures b.d == old(b.d) + Escape(s, attr)
  {
    ghost var done := "";
    for i := 0 to |s|
      invariant b.d == old(b.d) + done
      invariant done + Escape(s[i..], attr) == Escape(s, attr)
    {
      assert s[i..][1..] == s[i + 1..];
      Assoc(old(b.d), done, EscapeChar(s[i], attr));
      Assoc(done, EscapeChar(s[i], attr), Escape(s[i + 1..], attr));
      b.Put(EscapeChar(s[i], attr));
      done := done + EscapeChar(s[i], attr);
    }
    assert s[|s|..] == "";
  }

  method PutPrintedAttrs(b: Buf, attrs: seq<Attribute>)
    modifies b
    ensures b.d == old(b.d) + PrintAttrs(attrs)
  {
    hide Escape;
    ghost var done := "";
    for i := 0 to |attrs|
      invariant b.d == old(b.d) + done
      invariant done + PrintAttrs(attrs[i..]) == PrintAttrs(attrs)
    {
      var a := attrs[i];
      assert attrs[i..][1..] == attrs[i + 1..];
      Assoc(old(b.d), done, PrintAttr(a));
      Assoc(done, PrintAttr(a), PrintAttrs(attrs[i + 1..]));
      PutPrintedAttr(b, a);
      done := done + PrintAttr(a);
    }
    assert attrs[|attrs|..] == [];
  }

  method PutPrintedAttr(b: Buf, a: Attribute)
    modifies b
    ensures b.d == old(b.d) + PrintAttr(a)
  {
    hide Escape;
    b.Put(" ");
    b.Put(a.name);
    b.Put("=\"");
    PutEscaped(b, a.value, true);
    b.Put("\"");
  }

  method PrintNode(b: Buf, n: Node)
    modifies b
    ensures b.d == old(b.d) + Print(n)
    decreases n, 1
  {
    hide Escape, PrintAttrs, PrintAll, EndTag;
    if n.Text? { PutEscaped(b, n.text, false); return; }
    b.Put("<" + n.name);
    PutPrintedAttrs(b, n.attrs);
    ghost var start := "<" + n.name + PrintAttrs(n.attrs);
    assert b.d == old(b.d) + start;
    if n.kids == [] {
      b.Put("/>");
      Unfold3("<", n.name, PrintAttrs(n.attrs), "/>");
      Assoc(old(b.d), start, "/>");
      return;
    }
    b.Put(">");
    PrintNodes(b, n.kids);
    b.Put(EndTag(n.name));
    ghost var tail := ">" + (PrintAll(n.kids) + EndTag(n.name));
    assert b.d == old(b.d) + start + tail;
    Unfold3("<", n.name, PrintAttrs(n.attrs), tail);
    Assoc(old(b.d), start, tail);
  }

  lemma Unfold3(a: string, b: string, c: string, d: string)
    ensures a + b + c + d == a + (b + (c + d))
  {}

  method PrintNodes(b: Buf, ns: seq<Node>)
    modifies b
    ensures b.d == old(b.d) + PrintAll(ns)
    decreases ns, 0
  {
    hide Print;
    ghost var done := "";
    for i := 0 to |ns|
      invariant b.d == old(b.d) + done
      invariant done + PrintAll(ns[i..]) == PrintAll(ns)
    {
      assert ns[i..][1..] == ns[i + 1..];
      Assoc(old(b.d), done, Print(ns[i]));
      Assoc(done, Print(ns[i]), PrintAll(ns[i + 1..]));
      PrintNode(b, ns[i]);
      done := done + Print(ns[i]);
    }
    assert ns[|ns|..] == [];
  }

  // ---- Escapes ---------------------------------------------------------------------------

  lemma EntityReads(name: string, rest: string)
    requires 0 < |name| <= 4 && ';' !in name && EntityText(name) != ""
    ensures DecodeEntities("&" + name + ";" + rest) == EntityText(name) + DecodeEntities(rest)
  {
    hide EntityText, DecodeEntities, EntityEnd, Find;
    var s := "&" + name + ";" + rest;
    EntityEnds(name, rest);
    assert s[1..|name| + 1] == name && s[|name| + 2..] == rest;
    KnownReads(s);
  }

  lemma EntityEnds(name: string, rest: string)
    requires 0 < |name| <= 4 && ';' !in name
    ensures EntityEnd("&" + name + ";" + rest) == |name| + 1
  {
    hide Find;
    var s := "&" + name + ";" + rest;
    var w := if |s| < ENTITY_WINDOW then s else s[..ENTITY_WINDOW];
    assert w[|name| + 1] == ';';
    assert forall i :: 0 < i <= |name| ==> w[i] == name[i - 1] && name[i - 1] in name;
    FindIs(w, ';', |name| + 1);
  }

  lemma KnownReads(s: string)
    requires KnownEntity(s)
    ensures DecodeEntities(s) == EntityText(s[1..EntityEnd(s)]) + DecodeEntities(s[EntityEnd(s) + 1..])
  {
    hide EntityText, EntityEnd;
  }

  lemma NamedEntities()
    ensures EntityText("amp") == "&" && EntityText("lt") == "<"
    ensures EntityText("gt") == ">" && EntityText("quot") == "\""
    ensures "&" + "amp" + ";" == "&amp;" && "&" + "lt" + ";" == "&lt;"
    ensures "&" + "gt" + ";" == "&gt;" && "&" + "quot" + ";" == "&quot;"
  {}

  lemma PlainReads(c: char, rest: string)
    requires c != '&'
    ensures DecodeEntities([c] + rest) == [c] + DecodeEntities(rest)
  {
    assert ([c] + rest)[1..] == rest;
  }

  lemma EscapeCharReads(c: char, attr: bool, rest: string)
    ensures DecodeEntities(EscapeChar(c, attr) + rest) == [c] + DecodeEntities(rest)
  {
    hide DecodeEntities, EntityText;
    NamedEntities();
    if c == '&' {
      EntityReads("amp", rest);
    } else if c == '<' {
      EntityReads("lt", rest);
    } else if c == '>' {
      EntityReads("gt", rest);
    } else if c == '"' && attr {
      EntityReads("quot", rest);
    } else {
      PlainReads(c, rest);
    }
  }

  /** Escaping is undone by decoding, for every string. */
  lemma {:induction false} EscapeDecodes(s: string, attr: bool)
    ensures DecodeEntities(Escape(s, attr)) == s
  {
    hide DecodeEntities, EscapeChar;
    if s == "" {
      assert DecodeEntities("") == "" by { NothingDecodes(); }
    } else {
      EscapeDecodes(s[1..], attr);
      EscapeCharReads(s[0], attr, Escape(s[1..], attr));
    }
  }

  lemma NothingDecodes()
    ensures DecodeEntities("") == ""
  {}

  lemma {:induction false} EscapeHides(s: string, attr: bool)
    ensures '<' !in Escape(s, attr) && (attr ==> '"' !in Escape(s, attr))
    ensures |Escape(s, attr)| >= |s|
  {
    if s != "" { EscapeHides(s[1..], attr); }
  }

  // ---- Text -----------------------------------------------------------------------------------

  /** Collapsed text with something to show. */
  predicate NormalText(t: string) {
    && !AllBlank(t) && (forall i :: 0 <= i < |t| && IsBlank(t[i]) ==> t[i] == ' ')
    && forall i :: 0 < i < |t| ==> !(t[i - 1] == ' ' && t[i] == ' ')
  }

  lemma {:induction false} CollapseKeeps(t: string, space: bool)
    requires forall i :: 0 <= i < |t| && IsBlank(t[i]) ==> t[i] == ' '
    requires forall i :: 0 < i < |t| ==> !(t[i - 1] == ' ' && t[i] == ' ')
    requires space && t != "" ==> t[0] != ' '
    ensures Collapse(t, space) == (if space then " " else "") + t
  {
    if t != "" {
      assert forall i :: 0 < i < |t| ==> t[1..][i - 1] == t[i];
      CollapseKeeps(t[1..], IsBlank(t[0]));
    }
  }

  lemma TextReads(t: string)
    requires NormalText(t)
    ensures MakeText(Escape(t, false)) == t && t != ""
  {
    EscapeDecodes(t, false);
    CollapseKeeps(t, false);
  }

  lemma BlankReads()
    ensures MakeText(Escape(" ", false)) == ""
  {
    EscapeDecodes(" ", false);
  }

  // ---- Tags ----------------------------------------------------------------------------------------

  predicate ValidName(s: string) {
    0 < |s| <= NAME_MAX && forall i :: 0 <= i < |s| ==> IsNameChar(s[i])
  }

  predicate ValidAttrs(attrs: seq<Attribute>) { forall i :: 0 <= i < |attrs| ==> ValidName(attrs[i].name) }

  lemma NameStops(name: string, rest: string)
    requires (forall i :: 0 <= i < |name| ==> IsNameChar(name[i])) && (rest == "" || !IsNameChar(rest[0]))
    ensures NameLen(name + rest) == |name|
  {
    var s := name + rest;
    assert forall i :: 0 <= i < |name| ==> s[i] == name[i];
    if rest != "" { assert s[|name|] == rest[0]; }
    assert !(NameLen(s) < |name|);
  }

  lemma NoSpace(s: string)
    requires s != "" && !IsSpace(s[0])
    ensures SpaceLen(s) == 0
  {}

  lemma QuotedReads(v: string, rest: string)
    ensures ReadValue("\"" + (Escape(v, true) + ("\"" + rest))) == Value(v, |Escape(v, true)| + 2)
  {
    hide DecodeEntities, Escape, Find;
    var e := Escape(v, true);
    var s := "\"" + (e + ("\"" + rest));
    EscapeHides(v, true);
    EscapeDecodes(v, true);
    assert s[|e| + 1] == '"';
    assert forall i :: 1 <= i < |e| + 1 ==> s[i] == e[i - 1] && e[i - 1] in e;
    assert Find(s, 1, '"') == |e| + 1;
    assert s[1..|e| + 1] == e;
  }

  lemma ValueReads(name: string, v: string, rest: string)
    ensures ReadRest(name, "=" + ("\"" + (Escape(v, true) + ("\"" + rest)))) == Value(v, |Escape(v, true)| + 3)
  {
    hide ReadValue, Escape;
    var after := "\"" + (Escape(v, true) + ("\"" + rest));
    var s := "=" + after;
    NoSpace(s);
    assert s[1..] == after;
    NoSpace(after);
    assert after[0..] == after;
    QuotedReads(v, rest);
  }

  lemma AttrShape(a: Attribute, rest: string)
    ensures PrintAttr(a) + rest
         == " " + (a.name + ("=" + ("\"" + (Escape(a.value, true) + ("\"" + rest)))))
    ensures |PrintAttr(a)| == 1 + |a.name| + 3 + |Escape(a.value, true)|
  {
    hide Escape;
  }

  lemma SpaceScans(x: string)
    ensures var more := ScanAttrs(x); ScanAttrs(" " + x) == Scan(more.attrs, more.selfClose, more.used + 1)
  {
    var s := " " + x;
    assert s[1..] == x;
    assert NameLen(s) == 0;
  }

  lemma NamedScans(a: Attribute, tail: string, rest: string)
    requires ValidName(a.name) && tail == "=" + ("\"" + (Escape(a.value, true) + ("\"" + rest)))
    ensures var more := ScanAttrs(rest);
            ScanAttrs(a.name + tail)
            == Scan([a] + more.attrs, more.selfClose, |a.name| + |Escape(a.value, true)| + 3 + more.used)
  {
    hide Escape, ReadRest, NameLen, ScanAttrs;
    var e := Escape(a.value, true);
    var named := a.name + tail;
    NameStops(a.name, tail);
    assert named[..|a.name|] == a.name && named[|a.name|..] == tail && named[0] == a.name[0];
    ValueReads(a.name, a.value, rest);
    AfterValue(a.name, e, rest);
    ScanName(named, a.name, Value(a.value, |e| + 3), rest);
  }

  /** A printed attribute is read back as it was. */
  lemma AttrScans(a: Attribute, rest: string)
    requires ValidName(a.name)
    ensures var more := ScanAttrs(rest);
            ScanAttrs(PrintAttr(a) + rest)
            == Scan([a] + more.attrs, more.selfClose, |PrintAttr(a)| + more.used)
  {
    hide PrintAttr, Escape, ScanAttrs;
    var tail := "=" + ("\"" + (Escape(a.value, true) + ("\"" + rest)));
    AttrShape(a, rest);
    NamedScans(a, tail, rest);
    SpaceScans(a.name + tail);
  }

  lemma AfterValue(name: string, e: string, rest: string)
    ensures (name + ("=" + ("\"" + (e + ("\"" + rest)))))[|name| + |e| + 3..] == rest
  {}

  lemma ScanName(named: string, name: string, v: Value, rest: string)
    requires ValidName(name) && NameLen(named) == |name| <= |named| && named[..|name|] == name
    requires named[0] != '>' && |name| + v.used <= |named|
    requires ReadRest(name, named[|name|..]) == v && named[|name| + v.used..] == rest
    ensures var more := ScanAttrs(rest);
            ScanAttrs(named) == Scan([Attribute(name, v.text)] + more.attrs, more.selfClose, |name| + v.used + more.used)
  {
    hide ReadRest, NameLen, ScanAttrs;
    ValidIsShort(name);
    assert named[0..] == named;
    AttrNext(named, 0, |name|, name, v);
  }

  lemma ValidIsShort(name: string)
    requires ValidName(name)
    ensures ShortName(name) == name && name != ""
  {}

  lemma {:induction false} AttrsScan(attrs: seq<Attribute>, rest: string)
    requires ValidAttrs(attrs)
    ensures var more := ScanAttrs(rest);
            ScanAttrs(PrintAttrs(attrs) + rest)
            == Scan(attrs + more.attrs, more.selfClose, |PrintAttrs(attrs)| + more.used)
  {
    hide ScanAttrs, PrintAttr;
    if attrs == [] {
      assert "" + rest == rest && [] + ScanAttrs(rest).attrs == ScanAttrs(rest).attrs;
    } else {
      var tail := PrintAttrs(attrs[1..]);
      AttrsScan(attrs[1..], rest);
      AttrScans(attrs[0], tail + rest);
      Assoc(PrintAttr(attrs[0]), tail, rest);
      assert attrs == [attrs[0]] + attrs[1..];
      Assoc([attrs[0]], attrs[1..], ScanAttrs(rest).attrs);
    }
  }

  lemma EndsScan(rest: string)
    ensures ScanAttrs(">" + rest) == Scan([], false, 1)
    ensures ScanAttrs("/>" + rest) == Scan([], true, 2)
  {
    var s := "/>" + rest;
    assert s[1..] == ">" + rest;
    assert NameLen(s) == 0;
  }

  /** What comes after a printed name is no name character. */
  lemma AfterName(attrs: seq<Attribute>, rest: string)
    requires rest != "" && !IsNameChar(rest[0])
    ensures var s := PrintAttrs(attrs) + rest; s != "" && !IsNameChar(s[0])
  {
    if attrs != [] { assert (PrintAttrs(attrs) + rest)[0] == ' '; }
  }

  /** A printed start tag: `close` is ">" or "/>". */
  lemma StartTagReads(name: string, attrs: seq<Attribute>, close: string, rest: string, stack: Stack)
    requires ValidName(name) && ValidAttrs(attrs) && (close == ">" || close == "/>")
    ensures var s := "<" + (name + (PrintAttrs(attrs) + (close + rest)));
            ParseStep(s, stack)
            == Step(|s| - |rest|, if close == "/>" || IsVoidTag(name) || |stack| >= STACK_MAX
                                  then AddKids(stack, [Elem(name, attrs, [])])
                                  else stack + [Open(name, attrs, [])])
  {
    hide ScanAttrs, PrintAttrs, AddKids, IsVoidTag, NameLen, Find, FindStr;
    var inside := PrintAttrs(attrs) + (close + rest);
    var s := "<" + (name + inside);
    AfterName(attrs, close + rest);
    NameStops(name, inside);
    AttrsScan(attrs, close + rest);
    EndsScan(rest);
    assert attrs + [] == attrs;
    assert s[1..] == name + inside;
    assert s[1..1 + |name|] == name && s[1 + |name|..] == inside;
    StartsTag(name, inside, stack);
  }

  lemma NotComment(s: string)
    requires |s| >= 2 && s[1] != '!'
    ensures !HasAt(s, 0, "<!--")
  {
    if |s| >= 4 { assert s[0..4][1] == s[1]; }
  }

  lemma StartsTag(name: string, inside: string, stack: Stack)
    requires ValidName(name)
    ensures var s := "<" + (name + inside); ParseStep(s, stack) == StartTagStep(s, stack)
  {
    hide StartTagStep, TextStep, EndTagStep, HasAt;
    var s := "<" + (name + inside);
    assert s[1] == name[0] && IsNameChar(name[0]);
    NotComment(s);
  }

  lemma EndsTag(s: string, stack: Stack)
    requires |s| >= 2 && s[0] == '<' && s[1] == '/'
    ensures ParseStep(s, stack) == EndTagStep(s, stack)
  {
    hide StartTagStep, TextStep, EndTagStep, HasAt;
    NotComment(s);
  }

  lemma EndTagShape(name: string, rest: string)
    ensures var s := EndTag(name) + rest;
            && |s| >= 3 + |name| && s[0] == '<' && s[1] == '/' && s[2..] == name + (">" + rest)
            && s[2..2 + |name|] == name && s[2 + |name|] == '>' && |EndTag(name)| == |name| + 3
  {}

  lemma TopMatches(stack: Stack, name: string)
    requires |stack| >= 2 && Top(stack).name == name
    ensures Matching(stack, name, |stack| - 1) == |stack| - 1
  {}

  lemma EndTagReads(name: string, rest: string, stack: Stack)
    requires ValidName(name) && |stack| >= 2 && Top(stack).name == name
    ensures var s := EndTag(name) + rest;
            ParseStep(s, stack) == Step(|EndTag(name)|, CloseTo(stack, |stack| - 1))
  {
    hide CloseTo, NameLen, EndTag, Matching, ParseStep, Top;
    var s := EndTag(name) + rest;
    EndTagShape(name, rest);
    EndsTag(s, stack);
    NameStops(name, ">" + rest);
    TopMatches(stack, name);
  }

  // ---- Trees --------------------------------------------------------------------------------------

  /** Child i is an element, text with something to show, or the space of an
      inline gap; a text is never followed by a text. */
  predicate KidOk(name: string, kids: seq<Node>, i: nat)
    requires i < |kids|
  {
    kids[i].Text? ==>
      && (i + 1 < |kids| ==> kids[i + 1].Elem?)
      && (NormalText(kids[i].text)
          || (kids[i].text == " " && i + 1 < |kids| && InlineGap(name, kids[..i])))
  }

  predicate KidsOk(name: string, kids: seq<Node>) { forall i :: 0 <= i < |kids| ==> KidOk(name, kids, i) }

  /** Normal trees: `depth` elements are open around them. */
  predicate Normal(n: Node, depth: nat)
    decreases n, 1
  {
    n.Elem? ==>
      && ValidName(n.name) && ValidAttrs(n.attrs)
      && (n.kids != [] ==> !IsVoidTag(n.name) && depth < STACK_MAX && KidsOk(n.name, n.kids) && AllNormal(n.kids, depth + 1))
  }

  predicate AllNormal(ns: seq<Node>, depth: nat)
    decreases ns, 0
  {
    ns == [] || (Normal(ns[0], depth) && AllNormal(ns[1..], depth))
  }

  lemma {:induction false} NormalAt(ns: seq<Node>, depth: nat, i: nat)
    requires AllNormal(ns, depth) && i < |ns|
    ensures Normal(ns[i], depth)
    decreases i
  {
    if i > 0 { NormalAt(ns[1..], depth, i - 1); }
  }

  lemma AddTwice(stack: Stack, a: seq<Node>, b: seq<Node>)
    ensures AddKids(AddKids(stack, a), b) == AddKids(stack, a + b)
  {
    Assoc(Top(stack).kids, a, b);
  }

  lemma AddNone(stack: Stack)
    ensures AddKids(stack, []) == stack
  {
    assert Top(stack).kids + [] == Top(stack).kids;
  }

  lemma Resume(s: string, used: nat, rest: string, stack: Stack, after: Stack)
    requires s != "" && ParseStep(s, stack) == Step(used, after) && used <= |s| && s[used..] == rest
    ensures ParseFrom(s, stack) == ParseFrom(rest, after)
  {
    hide ParseStep;
  }

  /** A text is read up to the next tag, or the end. */
  lemma TextStepReads(name: string, kids: seq<Node>, k: nat, next: string, stack: Stack)
    requires k < |kids| && kids[k].Text? && KidOk(name, kids, k)
    requires Top(stack).name == name && Top(stack).kids == kids[..k]
    requires next == "" || next[0] == '<'
    requires k + 1 < |kids| ==> |next| >= 2 && next[1] != '/'
    ensures var s := Escape(kids[k].text, false) + next;
            s != "" && ParseStep(s, stack) == Step(|Escape(kids[k].text, false)|, AddKids(stack, [kids[k]]))
  {
    hide MakeText, AddKids, InlineGap, NormalText, Escape, Find;
    var t := kids[k].text;
    var e := Escape(t, false);
    var s := e + next;
    EscapeHides(t, false);
    if NormalText(t) { TextReads(t); } else { BlankReads(); }
    assert e != "" && s[0] == e[0] && e[0] in e;
    assert forall i :: 0 <= i < |e| ==> s[i] == e[i] && e[i] in e;
    FindIs(s, '<', |e|);
    assert s[..|e|] == e;
    if next != "" { assert s[|e|] == next[0]; }
    if |next| >= 2 { assert s[|e| + 1] == next[1]; }
  }

  lemma NextStarts(kids: seq<Node>, k: nat, rest: string, depth: nat)
    requires k <= |kids| && AllNormal(kids, depth) && (rest == "" || rest[0] == '<')
    requires k < |kids| ==> kids[k].Elem?
    ensures var s := PrintAll(kids[k..]) + rest; s == "" || s[0] == '<'
    ensures k < |kids| ==> var s := PrintAll(kids[k..]) + rest; |s| >= 2 && s[1] != '/'
  {
    if k < |kids| {
      NormalAt(kids, depth, k);
      var p, more := Print(kids[k]), PrintAll(kids[k..][1..]);
      assert PrintAll(kids[k..]) == p + more;
      assert p[0] == '<' && p[1] == kids[k].name[0] && IsNameChar(kids[k].name[0]);
      assert (p + more + rest)[0] == p[0] && (p + more + rest)[1] == p[1];
    } else {
      assert kids[k..] == [] && "" + rest == rest;
    }
  }

  /** Reading the children an open element still lacks. */
  lemma {:induction false} KidsRead(name: string, kids: seq<Node>, k: nat, rest: string, stack: Stack)
    requires k <= |kids| && KidsOk(name, kids) && AllNormal(kids, |stack|)
    requires Top(stack).name == name && Top(stack).kids == kids[..k]
    requires rest == "" || rest[0] == '<'
    ensures ParseFrom(PrintAll(kids[k..]) + rest, stack) == ParseFrom(rest, AddKids(stack, kids[k..]))
    decreases kids, |kids| - k
  {
    hide ParseFrom, Print, KidOk, Normal, ParseStep;
    if k == |kids| {
      assert kids[k..] == [] && "" + rest == rest;
      AddNone(stack);
    } else {
      var p, more := Print(kids[k]), PrintAll(kids[k + 1..]);
      var added := AddKids(stack, [kids[k]]);
      assert kids[k..][1..] == kids[k + 1..];
      assert PrintAll(kids[k..]) == p + more;
      Assoc(p, more, rest);
      assert ParseFrom(p + (more + rest), stack) == ParseFrom(more + rest, added) by {
        KidRead(name, kids, k, rest, stack);
      }
      assert kids[..k + 1] == kids[..k] + [kids[k]];
      KidsRead(name, kids, k + 1, rest, added);
      AddTwice(stack, [kids[k]], kids[k + 1..]);
      assert [kids[k]] + kids[k + 1..] == kids[k..];
    }
  }

  lemma {:induction false} KidRead(name: string, kids: seq<Node>, k: nat, rest: string, stack: Stack)
    requires k < |kids| && KidsOk(name, kids) && AllNormal(kids, |stack|)
    requires Top(stack).name == name && Top(stack).kids == kids[..k]
    requires rest == "" || rest[0] == '<'
    ensures var next := PrintAll(kids[k + 1..]) + rest;
            ParseFrom(Print(kids[k]) + next, stack) == ParseFrom(next, AddKids(stack, [kids[k]]))
    decreases kids, |kids| - k, 0
  {
    hide ParseFrom, KidOk, Normal, ParseStep, PrintAll, AddKids, Escape;
    var next := PrintAll(kids[k + 1..]) + rest;
    NormalAt(kids, |stack|, k);
    if kids[k].Elem? {
      NodeReads(kids[k], next, stack);
    } else {
      assert KidOk(name, kids, k);
      NoTextNext(name, kids, k);
      NextStarts(kids, k + 1, rest, |stack|);
      TextStepReads(name, kids, k, next, stack);
      var e := Escape(kids[k].text, false);
      assert (e + next)[|e|..] == next;
      Resume(e + next, |e|, next, stack, AddKids(stack, [kids[k]]));
    }
  }

  lemma NoTextNext(name: string, kids: seq<Node>, k: nat)
    requires k < |kids| && kids[k].Text? && KidOk(name, kids, k)
    ensures k + 1 < |kids| ==> kids[k + 1].Elem?
  {}

  lemma {:induction false} NodeReads(n: Node, rest: string, stack: Stack)
    requires n.Elem? && Normal(n, |stack|)
    ensures ParseFrom(Print(n) + rest, stack) == ParseFrom(rest, AddKids(stack, [n]))
    decreases n, 0
  {
    hide ParseFrom, ParseStep, PrintAll, AddKids, PrintAttrs, EndTag, KidsOk, AllNormal, IsVoidTag, CloseTo;
    var attrs := PrintAttrs(n.attrs);
    if n.kids == [] {
      var s := "<" + (n.name + (attrs + ("/>" + rest)));
      StartTagReads(n.name, n.attrs, "/>", rest, stack);
      EmptyShape(n.name, attrs, rest);
      Resume(s, |s| - |rest|, rest, stack, AddKids(stack, [n]));
    } else {
      var body, end := PrintAll(n.kids), EndTag(n.name);
      var inside := body + (end + rest);
      var s := "<" + (n.name + (attrs + (">" + inside)));
      var started: Stack := stack + [Open(n.name, n.attrs, [])];
      StartTagReads(n.name, n.attrs, ">", inside, stack);
      FullShape(n.name, attrs, body, end, rest);
      Resume(s, |s| - |inside|, inside, stack, started);
      EndTagShape(n.name, rest);
      KidsRead(n.name, n.kids, 0, end + rest, started);
      CloseRead(n, rest, stack);
    }
  }

  lemma EmptyShape(name: string, attrs: string, rest: string)
    ensures var s := "<" + (name + (attrs + ("/>" + rest)));
            s == "<" + (name + (attrs + "/>")) + rest && s[|s| - |rest|..] == rest
  {}

  lemma FullShape(name: string, attrs: string, body: string, end: string, rest: string)
    ensures var inside := body + (end + rest);
            var s := "<" + (name + (attrs + (">" + inside)));
            s == "<" + (name + (attrs + (">" + (body + end)))) + rest && s[|s| - |inside|..] == inside
  {}

  /** The end tag closes the element, which goes to its parent whole. */
  lemma CloseRead(n: Node, rest: string, stack: Stack)
    requires n.Elem? && ValidName(n.name)
    ensures var started: Stack := stack + [Open(n.name, n.attrs, [])];
            ParseFrom(EndTag(n.name) + rest, AddKids(started, n.kids[0..])) == ParseFrom(rest, AddKids(stack, [n]))
  {
    hide ParseFrom, ParseStep, EndTag;
    var started: Stack := stack + [Open(n.name, n.attrs, [])];
    var full := AddKids(started, n.kids[0..]);
    assert n.kids[0..] == n.kids && [] + n.kids == n.kids;
    assert full == stack + [Open(n.name, n.attrs, n.kids)];
    assert full[..|full| - 1] == stack;
    EndTagShape(n.name, rest);
    EndTagReads(n.name, rest, full);
    assert (EndTag(n.name) + rest)[|EndTag(n.name)|..] == rest;
    Resume(EndTag(n.name) + rest, |EndTag(n.name)|, rest, full, AddKids(stack, [n]));
  }

  /** Parser and printer undo each other: the text of any normal tree reads back as that tree. */
  lemma RoundTrip(kids: seq<Node>)
    requires KidsOk(ROOT.name, kids) && AllNormal(kids, 1)
    ensures Parse(PrintAll(kids)) == Elem(ROOT.name, [], kids)
  {
    hide PrintAll, KidsOk, AllNormal;
    var stack: Stack := [ROOT];
    assert kids[..0] == [] && kids[0..] == kids;
    KidsRead(ROOT.name, kids, 0, "", stack);
    assert PrintAll(kids) + "" == PrintAll(kids);
    assert [] + kids == kids;
  }
}
