/** The WML tree and its WBXML 1.1 encoding: compile_node and compile_card of
    src/wap_gateway/wbxml.c, against a decoder for the WBXML grammar. */
module Wbxml {
  import opened Ascii
  import opened WmlString
  import opened WmlTokens

  // ---- The WML tree -----------------------------------------------------------

  datatype Attribute = Attribute(name: string, value: string)

  datatype Node =
    | Text(text: string)
    | Elem(name: string, attrs: seq<Attribute>, kids: seq<Node>)

  predicate Clean(n: Node)
    decreases n, 1
  {
    match n
    case Text(t) => NulFree(t)
    case Elem(_, attrs, kids) => CleanAttrs(attrs) && CleanAll(kids)
  }

  predicate CleanAll(ns: seq<Node>)
    decreases ns, 0
  {
    ns == [] || (Clean(ns[0]) && CleanAll(ns[1..]))
  }

  predicate CleanAttrs(attrs: seq<Attribute>) {
    forall i :: 0 <= i < |attrs| ==> NulFree(attrs[i].value)
  }

  // ---- The compiler ------------------------------------------------------------

  /** VALUE_ATTRS: the token that stands for a whole `method="..."`, or -1. */
  function ValueAttrCode(a: Attribute): int {
    if LowerAll(a.name) != "method" then -1
    else if LowerAll(a.value) == "get" then METHOD_GET
    else if LowerAll(a.value) == "post" then METHOD_POST
    else -1
  }

  /** Site-relative: one leading slash, not two. */
  predicate SiteRelative(v: string) { At(v, 0) == '/' && At(v, 1) != '/' }

  /** The attribute value that is encoded: a site-relative link gets the base in front. */
  function LinkedValue(code: int, v: string, base: string): string {
    if (code == ATTR_HREF || code == ATTR_SRC) && SiteRelative(v) then base + v else v
  }

  function AttrBytes(a: Attribute, base: string): string {
    var vc := ValueAttrCode(a);
    if vc >= 0 then [vc as char]
    else
      var ac := AttrCode(LowerAll(a.name));
      if ac < 0 then "" else [ac as char] + Encode(LinkedValue(ac, a.value, base))
  }

  function AttrsBytes(attrs: seq<Attribute>, base: string): string {
    if attrs == [] then "" else AttrBytes(attrs[0], base) + AttrsBytes(attrs[1..], base)
  }

  /** A part of an element that is written only when it has bytes, END after it. */
  function Ended(part: string): string { if part == "" then "" else part + [END] }

  function TagByte(code: int, attrs: string, content: string): char
    requires 0 <= code < 0x40
  {
    (code + (if attrs == "" then 0 else 0x80) + (if content == "" then 0 else 0x40)) as char
  }

  function ElementBytes(code: int, attrs: string, content: string): string
    requires 0 <= code < 0x40
  {
    [TagByte(code, attrs, content)] + (Ended(attrs) + Ended(content))
  }

  function Compile(n: Node, base: string): string
    decreases n, 1
  {
    match n
    case Text(t) => Encode(t)
    case Elem(name, attrs, kids) =>
      var code := ElementCode(LowerAll(name));
      if code < 0 then CompileAll(kids, base)
      else ElementBytes(code, AttrsBytes(attrs, base), CompileAll(kids, base))
  }

  function CompileAll(ns: seq<Node>, base: string): string
    decreases ns, 0
  {
    if ns == [] then "" else Compile(ns[0], base) + CompileAll(ns[1..], base)
  }

  const HEADER: string := ['\U{01}', '\U{04}', '\U{6A}', '\U{00}']
  const WML_OPEN: char := '\U{7F}'    // <wml>, has content
  const CARD_OPEN: char := '\U{E7}'   // <card>, attributes and content
  const ATTR_ID: char := '\U{55}'
  const ATTR_TITLE: char := '\U{36}'

  /** What goes between <card ...> and its END: a card needs some content. */
  function CardBody(body: string): string { if body == "" then Encode(" ") else body }

  function CardAttrs(title: string): string { [ATTR_ID] + Encode("p") + ([ATTR_TITLE] + Encode(title)) }

  function CardHead(title: string): string { HEADER + ([WML_OPEN, CARD_OPEN] + (CardAttrs(title) + [END])) }

  /** A whole one-card deck. */
  function CompileCard(title: string, blocks: seq<Node>, nav: seq<Node>, base: string): string {
    CardHead(title) + (CardBody(CompileAll(blocks, base) + CompileAll(nav, base)) + [END, END])
  }

  // ---- The compiler as the gateway runs it, appending to a buffer ------------------------

  method PutAttrs(b: Buf, attrs: seq<Attribute>, base: string)
    modifies b
    ensures b.d == old(b.d) + AttrsBytes(attrs, base)
  {
    ghost var done := "";
    for i := 0 to |attrs|
      invariant b.d == old(b.d) + done
      invariant done + AttrsBytes(attrs[i..], base) == AttrsBytes(attrs, base)
    {
      hide ElementCode, AttrCode;
      var a := attrs[i];
      assert attrs[i..][1..] == attrs[i + 1..];
      Assoc(old(b.d), done, AttrBytes(a, base));
      Assoc(done, AttrBytes(a, base), AttrsBytes(attrs[i + 1..], base));
      PutAttr(b, a, base);
      done := done + AttrBytes(a, base);
    }
    assert attrs[|attrs|..] == [];
  }

  /** One attribute: the body of compile_node's attribute loop. */
  method PutAttr(b: Buf, a: Attribute, base: string)
    modifies b
    ensures b.d == old(b.d) + AttrBytes(a, base)
  {
    hide AttrCode, Encode;
    var vc := ValueAttrCode(a);
    if vc >= 0 { b.Put([vc as char]); return; }
    var ac := AttrCode(LowerAll(a.name));
    if ac < 0 { return; }
    b.Put([ac as char]);
    if (ac == ATTR_HREF || ac == ATTR_SRC) && SiteRelative(a.value) {
      PutStr(b, base + a.value);
    } else {
      PutStr(b, a.value);
    }
  }

  method CompileNode(b: Buf, n: Node, base: string)
    modifies b
    ensures b.d == old(b.d) + Compile(n, base)
    decreases n, 1
  {
    hide ElementCode, Encode, AttrsBytes, CompileAll, ElementBytes;
    if n.Text? { PutStr(b, n.text); return; }
    var code := ElementCode(LowerAll(n.name));
    if code < 0 {
      CompileKids(b, n.kids, base);
      return;
    }
    var attrs := new Buf();
    var content := new Buf();
    PutAttrs(attrs, n.attrs, base);
    CompileKids(content, n.kids, base);
    assert attrs.d == AttrsBytes(n.attrs, base) && content.d == CompileAll(n.kids, base);
    PutElement(b, code, attrs.d, content.d);
  }

  method PutElement(b: Buf, code: int, attrs: string, content: string)
    requires 0 <= code < 0x40
    modifies b
    ensures b.d == old(b.d) + ElementBytes(code, attrs, content)
  {
    var flag := 0;
    if |attrs| != 0 { flag := flag + 0x80; }
    if |content| != 0 { flag := flag + 0x40; }
    b.Put([(code + flag) as char]);
    if |attrs| != 0 { b.Put(attrs + [END]); }
    if |content| != 0 { b.Put(content + [END]); }
  }

  method CompileKids(b: Buf, ns: seq<Node>, base: string)
    modifies b
    ensures b.d == old(b.d) + CompileAll(ns, base)
    decreases ns, 0
  {
    ghost var done := "";
    for i := 0 to |ns|
      invariant b.d == old(b.d) + done
      invariant done + CompileAll(ns[i..], base) == CompileAll(ns, base)
    {
      hide Compile;
      assert ns[i..][1..] == ns[i + 1..];
      Assoc(old(b.d), done, Compile(ns[i], base));
      Assoc(done, Compile(ns[i], base), CompileAll(ns[i + 1..], base));
      CompileNode(b, ns[i], base);
      done := done + Compile(ns[i], base);
    }
    assert ns[|ns|..] == [];
  }

  method WriteCard(b: Buf, title: string, blocks: seq<Node>, nav: seq<Node>, base: string)
    modifies b
    ensures b.d == old(b.d) + CompileCard(title, blocks, nav, base)
  {
    hide CompileAll, Encode, CardHead;
    PutCardHead(b, title);
    ghost var start := b.d;
    var before := |b.d|;
    CompileKids(b, blocks, base);
    CompileKids(b, nav, base);
    ghost var body := CompileAll(blocks, base) + CompileAll(nav, base);
    Assoc(start, CompileAll(blocks, base), CompileAll(nav, base));
    if |b.d| == before {
      assert start + body == start;
      PutStr(b, " ");
    }
    assert b.d == start + CardBody(body);
    b.Put([END]);
    b.Put([END]);
    assert b.d == start + (CardBody(body) + [END, END]);
    Assoc(old(b.d), CardHead(title), CardBody(body) + [END, END]);
  }

  method PutCardHead(b: Buf, title: string)
    modifies b
    ensures b.d == old(b.d) + CardHead(title)
  {
    hide Encode;
    b.Put(HEADER);
    b.Put([WML_OPEN]);
    b.Put([CARD_OPEN]);
    assert b.d == old(b.d) + (HEADER + [WML_OPEN, CARD_OPEN]);
    ghost var start := b.d;
    b.Put([ATTR_ID]);
    PutStr(b, "p");
    b.Put([ATTR_TITLE]);
    PutStr(b, title);
    assert b.d == start + CardAttrs(title);
    b.Put([END]);
    assert b.d == start + (CardAttrs(title) + [END]);
    assert HEADER + [WML_OPEN, CARD_OPEN] + (CardAttrs(title) + [END]) == CardHead(title);
    Assoc(old(b.d), HEADER + [WML_OPEN, CARD_OPEN], CardAttrs(title) + [END]);
  }

  // ---- What a tree means to a WML 1.1 browser -------------------------------------

  datatype DocAttr = DocAttr(name: string, value: seq<Atom>)

  datatype Doc =
    | Piece(atom: Atom)
    | Tag(name: string, attrs: seq<DocAttr>, kids: seq<Doc>)

  function Pieces(atoms: seq<Atom>): (r: seq<Doc>)
    ensures |r| == |atoms|
    ensures forall i :: 0 <= i < |r| ==> r[i] == Piece(atoms[i])
  {
    seq(|atoms|, i requires 0 <= i < |atoms| => Piece(atoms[i]))
  }

  /** Attributes the format has no token for are dropped, a known method is
      normalised, and links from the root of the site are completed. */
  function AttrMeaning(a: Attribute, base: string): seq<DocAttr> {
    var name, value := LowerAll(a.name), LowerAll(a.value);
    if name == "method" && (value == "get" || value == "post") then [DocAttr("method", Lits(value))]
    else if !HasAttr(name) then []
    else if name in ["href", "src"] && "/" <= a.value && !("//" <= a.value) then [DocAttr(name, Atoms(base + a.value))]
    else [DocAttr(name, Atoms(a.value))]
  }

  function AttrsMeaning(attrs: seq<Attribute>, base: string): seq<DocAttr> {
    if attrs == [] then [] else AttrMeaning(attrs[0], base) + AttrsMeaning(attrs[1..], base)
  }

  /** Elements the format does not have stand for their children. */
  function Meaning(n: Node, base: string): seq<Doc>
    decreases n, 1
  {
    match n
    case Text(t) => Pieces(Atoms(t))
    case Elem(name, attrs, kids) =>
      if !HasTag(LowerAll(name)) then MeaningAll(kids, base)
      else [Tag(LowerAll(name), AttrsMeaning(attrs, base), MeaningAll(kids, base))]
  }

  function MeaningAll(ns: seq<Node>, base: string): seq<Doc>
    decreases ns, 0
  {
    if ns == [] then [] else Meaning(ns[0], base) + MeaningAll(ns[1..], base)
  }

  // ---- The decoder: WBXML 1.1, sections 5.3 and 5.8 -----------------------------------

  // Its bytes are those of the format: 01 ends a list, 1B and 1C are the two methods.

  datatype Parsed<+T> = Failed | Parsed(value: T, rest: string)

  /** Attributes up to and including their END. */
  function DecodeAttrs(b: string): (r: Parsed<seq<DocAttr>>)
    ensures r.Parsed? ==> |r.rest| < |b|
    decreases |b|
  {
    if b == "" then Failed
    else if b[0] == '\U{01}' then Parsed([], b[1..])
    else
      var code := b[0] as int;
      var name := if code == 0x1B || code == 0x1C then "method" else AttrName(code);
      var start := if code == 0x1B then Lits("get") else if code == 0x1C then Lits("post") else [];
      if name == "" then Failed
      else
        var (value, rest) := DecodeString(b[1..]);
        match DecodeAttrs(rest)
        case Failed => Failed
        case Parsed(more, left) => Parsed([DocAttr(name, start + value)] + more, left)
  }

  function DecodeElement(b: string): (r: Parsed<Doc>)
    ensures r.Parsed? ==> |r.rest| < |b|
    decreases |b|, 0
  {
    if b == "" then Failed
    else
      var t := b[0] as int;
      var name := ElementName(t % 0x40);
      if t >= 0x100 || name == "" then Failed else DecodeParts(name, t >= 0x80, t / 0x40 % 2 == 1, b[1..])
  }

  /** What follows a tag byte: the parts its flags announce. */
  function DecodeParts(name: string, hasAttrs: bool, hasContent: bool, b: string): (r: Parsed<Doc>)
    ensures r.Parsed? ==> |r.rest| <= |b|
    decreases |b|, 2
  {
    var attrs: Parsed<seq<DocAttr>> := if hasAttrs then DecodeAttrs(b) else Parsed([], b);
    if attrs.Failed? then Failed
    else
      var kids: Parsed<seq<Doc>> := if hasContent then DecodeContent(attrs.rest) else Parsed([], attrs.rest);
      if kids.Failed? then Failed
      else Parsed(Tag(name, attrs.value, kids.value), kids.rest)
  }

  /** Content up to and including its END. */
  function DecodeContent(b: string): (r: Parsed<seq<Doc>>)
    ensures r.Parsed? ==> |r.rest| < |b|
    decreases |b|, 1
  {
    if b == "" then Failed
    else if b[0] == '\U{01}' then Parsed([], b[1..])
    else if StartsPiece(b) then
      var (atoms, rest) := DecodeString(b);
      if |rest| == |b| then Failed
      else
        match DecodeContent(rest)
        case Failed => Failed
        case Parsed(more, left) => Parsed(Pieces(atoms) + more, left)
    else
      var e := DecodeElement(b);
      if e.Failed? then Failed
      else
        match DecodeContent(e.rest)
        case Failed => Failed
        case Parsed(more, left) => Parsed([e.value] + more, left)
  }

  /** A deck: version 1.1, public identifier WML 1.1, UTF-8, no string table, one element. */
  function DecodeDeck(b: string): Parsed<Doc> {
    if ['\U{01}', '\U{04}', '\U{6A}', '\U{00}'] <= b then DecodeElement(b[4..]) else Failed
  }

  // ---- Attributes decode ----------------------------------------------------------------

  lemma {:induction false} AttrsStart(attrs: seq<Attribute>, base: string, rest: string)
    ensures !StartsPiece(AttrsBytes(attrs, base) + ([END] + rest))
  {
    if attrs != [] {
      var a := attrs[0];
      var tail := AttrsBytes(attrs[1..], base);
      if AttrBytes(a, base) == "" {
        AttrsStart(attrs[1..], base, rest);
        assert AttrsBytes(attrs, base) == tail;
      } else {
        AttrStart(a, base);
        assert (AttrsBytes(attrs, base) + ([END] + rest))[0] == AttrBytes(a, base)[0];
      }
    }
  }

  /** No attribute token is END, STR_I or an EXT_I token. */
  lemma AttrStart(a: Attribute, base: string)
    ensures AttrBytes(a, base) != "" ==> !StartsPiece(AttrBytes(a, base)) && AttrBytes(a, base)[0] != END
  {
    if ValueAttrCode(a) < 0 && AttrCode(LowerAll(a.name)) >= 0 { AttrCodeNamed(LowerAll(a.name)); }
  }

  lemma MethodDecodes(code: nat, tail: string)
    requires code == METHOD_GET || code == METHOD_POST
    requires !StartsPiece(tail) && DecodeAttrs(tail).Parsed?
    ensures var value := if code == METHOD_GET then "get" else "post";
            DecodeAttrs([code as char] + tail)
            == Parsed([DocAttr("method", Lits(value))] + DecodeAttrs(tail).value, DecodeAttrs(tail).rest)
  {
    var b := [code as char] + tail;
    assert b[1..] == tail;
    assert DecodeString(tail) == ([], tail);
    assert Lits("get") + [] == Lits("get") && Lits("post") + [] == Lits("post");
  }

  lemma ValuedDecodes(code: int, name: string, v: string, tail: string)
    requires 5 <= code < 0x60 && code != METHOD_GET && code != METHOD_POST
    requires AttrName(code) == name && name != "" && NulFree(v)
    requires !StartsPiece(tail) && DecodeAttrs(tail).Parsed?
    ensures DecodeAttrs([code as char] + Encode(v) + tail)
            == Parsed([DocAttr(name, Atoms(v))] + DecodeAttrs(tail).value, DecodeAttrs(tail).rest)
  {
    hide AttrNameA, AttrNameB, AttrName, Encode, Atoms;
    var b := [code as char] + Encode(v) + tail;
    assert b[1..] == Encode(v) + tail;
    EncodeDecodes(v, tail);
    assert DecodeString(tail) == ([], tail);
    assert [] + (Atoms(v) + []) == Atoms(v);
  }

  lemma AttrDecodes(a: Attribute, base: string, tail: string)
    requires NulFree(a.value) && NulFree(base)
    requires !StartsPiece(tail) && DecodeAttrs(tail).Parsed?
    ensures DecodeAttrs(AttrBytes(a, base) + tail)
            == Parsed(AttrMeaning(a, base) + DecodeAttrs(tail).value, DecodeAttrs(tail).rest)
  {
    hide HasAttr, AttrCode, AttrName;
    var name := LowerAll(a.name);
    AttrKnownExactly(name);
    if ValueAttrCode(a) >= 0 {
      MethodDecodes(ValueAttrCode(a), tail);
    } else if AttrCode(name) < 0 {
      assert AttrBytes(a, base) + tail == tail;
      assert [] + DecodeAttrs(tail).value == DecodeAttrs(tail).value;
    } else {
      AttrCodeNamed(name);
      LinkAttrs(name);
      ValuedDecodes(AttrCode(name), name, LinkedValue(AttrCode(name), a.value, base), tail);
    }
  }

  lemma {:induction false} AttrsDecode(attrs: seq<Attribute>, base: string, rest: string)
    requires CleanAttrs(attrs) && NulFree(base)
    ensures DecodeAttrs(AttrsBytes(attrs, base) + ([END] + rest)) == Parsed(AttrsMeaning(attrs, base), rest)
  {
    var after := [END] + rest;
    if attrs == [] {
      assert "" + after == after && after[1..] == rest;
    } else {
      var tail := AttrsBytes(attrs[1..], base);
      AttrsDecode(attrs[1..], base, rest);
      AttrsStart(attrs[1..], base, rest);
      AttrDecodes(attrs[0], base, tail + after);
      Assoc(AttrBytes(attrs[0], base), tail, after);
    }
  }

  // ---- Elements and content decode --------------------------------------------------------

  lemma EndedDecodes(part: string, rest: string)
    ensures Ended(part) + rest == if part == "" then rest else part + ([END] + rest)
  {}

  /** A tag byte is neither END nor the start of a string, and says what follows. */
  lemma TagByteReads(code: int, attrs: string, content: string)
    requires 0x1C <= code < 0x40
    ensures var t := TagByte(code, attrs, content) as int;
            t % 0x40 == code && t < 0x100 && (t >= 0x80 <==> attrs != "") && (t / 0x40 % 2 == 1 <==> content != "")
    ensures TagByte(code, attrs, content) !in [END, STR_I, EXT_I_0, EXT_I_1, EXT_I_2]
  {}

  ghost predicate PartsDecode(attrs: string, content: string, rest: string, da: seq<DocAttr>, dk: seq<Doc>) {
    && (if attrs == "" then da == []
        else DecodeAttrs(attrs + ([END] + (Ended(content) + rest))) == Parsed(da, Ended(content) + rest))
    && (if content == "" then dk == []
        else DecodeContent(content + ([END] + rest)) == Parsed(dk, rest))
  }

  lemma PartsRead(name: string, attrs: string, content: string, rest: string, da: seq<DocAttr>, dk: seq<Doc>)
    requires PartsDecode(attrs, content, rest, da, dk)
    ensures DecodeParts(name, attrs != "", content != "", Ended(attrs) + (Ended(content) + rest))
            == Parsed(Tag(name, da, dk), rest)
  {
    EndedDecodes(attrs, Ended(content) + rest);
    EndedDecodes(content, rest);
  }

  lemma TagThen(tag: char, parts: string, rest: string)
    ensures var b := [tag] + parts + rest; b[0] == tag && b[1..] == parts + rest
  {}

  lemma ElementDecodes(code: int, attrs: string, content: string, rest: string, da: seq<DocAttr>, dk: seq<Doc>)
    requires 0x1C <= code < 0x40 && ElementName(code) != ""
    requires PartsDecode(attrs, content, rest, da, dk)
    ensures DecodeElement(ElementBytes(code, attrs, content) + rest) == Parsed(Tag(ElementName(code), da, dk), rest)
    ensures var b := ElementBytes(code, attrs, content) + rest; !StartsPiece(b) && b[0] != END
  {
    hide ElementName, DecodeParts, Ended, TagByte, PartsDecode, DecodeAttrs, DecodeContent, DecodeString;
    var b := ElementBytes(code, attrs, content) + rest;
    TagByteReads(code, attrs, content);
    TagThen(TagByte(code, attrs, content), Ended(attrs) + Ended(content), rest);
    Assoc(Ended(attrs), Ended(content), rest);
    PartsRead(ElementName(code), attrs, content, rest, da, dk);
  }

  lemma PiecesAppend(a: seq<Atom>, b: seq<Atom>, more: seq<Doc>)
    ensures Pieces(a + b) + more == Pieces(a) + (Pieces(b) + more)
  {}

  lemma NoPieceHere(b: string)
    requires !StartsPiece(b)
    ensures DecodeString(b) == ([], b)
  {}

  lemma TextDecodes(t: string, rest: string)
    requires NulFree(t) && DecodeContent(rest).Parsed?
    ensures DecodeContent(Encode(t) + rest)
            == Parsed(Pieces(Atoms(t)) + DecodeContent(rest).value, DecodeContent(rest).rest)
  {
    hide Encode, Atoms, DecodeElement, DecodeString, Pieces;
    var b := Encode(t) + rest;
    EncodeStarts(t);
    assert b[0] == Encode(t)[0];
    EncodeDecodes(t, rest);
    var (v, r) := DecodeString(rest);
    if StartsPiece(rest) {
      assert |r| < |rest|;
      PiecesAppend(Atoms(t), v, DecodeContent(r).value);
    } else {
      NoPieceHere(rest);
      PiecesAppend(Atoms(t), [], DecodeContent(rest).value);
      assert Pieces([]) + DecodeContent(rest).value == DecodeContent(rest).value;
    }
  }

  lemma {:induction false} KnownDecodes(n: Node, base: string, rest: string)
    requires n.Elem? && ElementCode(LowerAll(n.name)) >= 0 && Clean(n) && NulFree(base)
    requires DecodeContent(rest).Parsed?
    ensures DecodeContent(Compile(n, base) + rest)
            == Parsed(Meaning(n, base) + DecodeContent(rest).value, DecodeContent(rest).rest)
    decreases n, 1
  {
    hide ElementCode, ElementName, HasTag, DecodeElement, AttrsBytes, CompileAll, AttrsMeaning, MeaningAll, ElementBytes;
    var code := ElementCode(LowerAll(n.name));
    var attrs, content := AttrsBytes(n.attrs, base), CompileAll(n.kids, base);
    ElementKnownExactly(LowerAll(n.name));
    PartsOf(n, base, rest);
    ElementCodeNamed(LowerAll(n.name));
    ElementDecodes(code, attrs, content, rest, AttrsMeaning(n.attrs, base), MeaningAll(n.kids, base));
  }

  lemma {:induction false} PartsOf(n: Node, base: string, rest: string)
    requires n.Elem? && Clean(n) && NulFree(base)
    ensures PartsDecode(AttrsBytes(n.attrs, base), CompileAll(n.kids, base), rest,
                        AttrsMeaning(n.attrs, base), MeaningAll(n.kids, base))
    decreases n, 0
  {
    hide AttrsBytes, CompileAll, AttrsMeaning, MeaningAll, DecodeString, DecodeElement;
    var attrs, content := AttrsBytes(n.attrs, base), CompileAll(n.kids, base);
    var after, last := Ended(content) + rest, [END] + rest;
    AttrsDecode(n.attrs, base, after);
    assert ([END] + after)[1..] == after && last[1..] == rest;
    assert "" + ([END] + after) == [END] + after && "" + last == last;
    AllDecode(n.kids, base, last);
    assert MeaningAll(n.kids, base) + [] == MeaningAll(n.kids, base);
  }

  lemma {:induction false} NodeDecodes(n: Node, base: string, rest: string)
    requires Clean(n) && NulFree(base) && DecodeContent(rest).Parsed?
    ensures DecodeContent(Compile(n, base) + rest)
            == Parsed(Meaning(n, base) + DecodeContent(rest).value, DecodeContent(rest).rest)
    decreases n, 2
  {
    hide ElementCode, ElementName, HasTag, DecodeElement, DecodeContent;
    match n
    case Text(t) => TextDecodes(t, rest);
    case Elem(name, _, kids) =>
      ElementKnownExactly(LowerAll(name));
      if ElementCode(LowerAll(name)) < 0 {
        AllDecode(kids, base, rest);
      } else {
        KnownDecodes(n, base, rest);
      }
  }

  lemma {:induction false} AllDecode(ns: seq<Node>, base: string, rest: string)
    requires CleanAll(ns) && NulFree(base) && DecodeContent(rest).Parsed?
    ensures DecodeContent(CompileAll(ns, base) + rest)
            == Parsed(MeaningAll(ns, base) + DecodeContent(rest).value, DecodeContent(rest).rest)
    decreases ns, 0
  {
    hide Compile, Meaning, DecodeContent;
    if ns == [] {
      assert "" + rest == rest;
      assert [] + DecodeContent(rest).value == DecodeContent(rest).value;
    } else {
      var tail := CompileAll(ns[1..], base);
      AllDecode(ns[1..], base, rest);
      NodeDecodes(ns[0], base, tail + rest);
      Assoc(Compile(ns[0], base), tail, rest);
      Assoc(Meaning(ns[0], base), MeaningAll(ns[1..], base), DecodeContent(rest).value);
    }
  }

  // ---- The whole deck ---------------------------------------------------------------------

  /** Nodes that leave no trace: elements the format does not have with nothing but such nodes inside. */
  predicate Silent(n: Node)
    decreases n, 1
  {
    n.Elem? && !HasTag(LowerAll(n.name)) && AllSilent(n.kids)
  }

  predicate AllSilent(ns: seq<Node>)
    decreases ns, 0
  {
    ns == [] || (Silent(ns[0]) && AllSilent(ns[1..]))
  }

  lemma {:induction false} SilentCompiles(n: Node, base: string)
    ensures Silent(n) <==> Compile(n, base) == ""
    decreases n, 1
  {
    hide ElementCode, HasTag, Encode;
    match n
    case Text(t) => EncodeStarts(t);
    case Elem(name, attrs, kids) =>
      ElementKnownExactly(LowerAll(name));
      AllSilentCompile(kids, base);
  }

  lemma {:induction false} AllSilentCompile(ns: seq<Node>, base: string)
    ensures AllSilent(ns) <==> CompileAll(ns, base) == ""
    decreases ns, 0
  {
    hide Silent, Compile;
    if ns != [] {
      SilentCompiles(ns[0], base);
      AllSilentCompile(ns[1..], base);
    }
  }

  lemma {:induction false} CompileAllAppend(a: seq<Node>, b: seq<Node>, base: string)
    ensures CompileAll(a + b, base) == CompileAll(a, base) + CompileAll(b, base)
  {
    hide Compile;
    if a == [] {
      assert a + b == b;
    } else {
      assert (a + b)[0] == a[0] && (a + b)[1..] == a[1..] + b;
      CompileAllAppend(a[1..], b, base);
      Assoc(Compile(a[0], base), CompileAll(a[1..], base), CompileAll(b, base));
    }
  }

  lemma {:induction false} CleanAppend(a: seq<Node>, b: seq<Node>)
    requires CleanAll(a) && CleanAll(b)
    ensures CleanAll(a + b)
  {
    if a == [] {
      assert a + b == b;
    } else {
      assert (a + b)[0] == a[0] && (a + b)[1..] == a[1..] + b;
      CleanAppend(a[1..], b);
    }
  }

  /** The children the card gets: the blocks and the links, or one space if they show nothing. */
  function CardKids(blocks: seq<Node>, nav: seq<Node>): seq<Node> {
    if AllSilent(blocks) && AllSilent(nav) then [Text(" ")] else blocks + nav
  }

  lemma CardBodyIs(blocks: seq<Node>, nav: seq<Node>, base: string)
    ensures CardBody(CompileAll(blocks, base) + CompileAll(nav, base)) == CompileAll(CardKids(blocks, nav), base)
    ensures CompileAll(CardKids(blocks, nav), base) != ""
  {
    hide Encode;
    AllSilentCompile(blocks, base);
    AllSilentCompile(nav, base);
    CompileAllAppend(blocks, nav, base);
    EncodeStarts(" ");
    var space := Text(" ");
    assert CompileAll([space], base) == Compile(space, base) + CompileAll([], base);
  }

  function CardTree(title: string, kids: seq<Node>): Node {
    Elem("card", [Attribute("id", "p"), Attribute("title", title)], kids)
  }

  lemma TokensOfCard()
    ensures LowerAll("card") == "card" && ElementCode("card") == 0x27
    ensures LowerAll("wml") == "wml" && ElementCode("wml") == 0x3F
    ensures LowerAll("id") == "id" && AttrCode("id") == 0x55
    ensures LowerAll("title") == "title" && AttrCode("title") == 0x36
  {}

  lemma KnownOfCard()
    ensures HasTag("card") && HasTag("wml") && HasAttr("id") && HasAttr("title")
  {
    hide ElementCode, AttrCode, HasTag, HasAttr;
    TokensOfCard();
    ElementKnownExactly("card");
    ElementKnownExactly("wml");
    AttrKnownExactly("id");
    AttrKnownExactly("title");
  }

  lemma CardAttrsAre(title: string, base: string)
    ensures AttrsBytes([Attribute("id", "p"), Attribute("title", title)], base) == CardAttrs(title)
  {
    hide AttrCode, Encode;
    TokensOfCard();
    var i, t := Attribute("id", "p"), Attribute("title", title);
    assert AttrBytes(i, base) == [ATTR_ID] + Encode("p");
    assert AttrBytes(t, base) == [ATTR_TITLE] + Encode(title);
    assert [i, t][1..] == [t] && [t][1..] == [];
    assert AttrsBytes([t], base) == AttrBytes(t, base) + AttrsBytes([], base);
  }

  lemma CardElement(title: string, kids: seq<Node>, base: string)
    requires CompileAll(kids, base) != ""
    ensures Compile(CardTree(title, kids), base)
            == [CARD_OPEN] + ((CardAttrs(title) + [END]) + (CompileAll(kids, base) + [END]))
  {
    hide ElementCode, Encode, AttrsBytes, CompileAll;
    TokensOfCard();
    CardAttrsAre(title, base);
  }

  lemma OneCompiled(n: Node, base: string)
    ensures CompileAll([n], base) == Compile(n, base)
  {
    hide Compile;
    assert [n][1..] == [];
    assert CompileAll([n], base) == Compile(n, base) + CompileAll([], base);
  }

  lemma ElementIs(name: string, kids: seq<Node>, base: string, code: int)
    requires ElementCode(LowerAll(name)) == code && 0 <= code < 0x40
    ensures Compile(Elem(name, [], kids), base) == ElementBytes(code, "", CompileAll(kids, base))
  {
    hide ElementBytes, ElementCode;
  }

  lemma WmlElement(card: Node, base: string)
    requires Compile(card, base) != ""
    ensures Compile(Elem("wml", [], [card]), base) == [WML_OPEN] + (Compile(card, base) + [END])
  {
    hide ElementCode, Compile;
    TokensOfCard();
    var c := Compile(card, base);
    OneCompiled(card, base);
    ElementIs("wml", [card], base, 0x3F);
    assert "" + (c + [END]) == c + [END];
  }

  lemma Regroup(a: string, c: string)
    ensures HEADER + ([WML_OPEN, CARD_OPEN] + (a + [END])) + (c + [END, END])
            == HEADER + ([WML_OPEN] + (([CARD_OPEN] + ((a + [END]) + (c + [END]))) + [END]))
  {}

  /** compile_card writes exactly the compiled form of a whole deck tree. */
  lemma CardIsDeck(title: string, blocks: seq<Node>, nav: seq<Node>, base: string)
    ensures CompileCard(title, blocks, nav, base)
            == HEADER + Compile(Elem("wml", [], [CardTree(title, CardKids(blocks, nav))]), base)
  {
    hide Compile, CompileAll, CardAttrs, CardKids, CardBody, CardTree;
    var kids := CardKids(blocks, nav);
    CardBodyIs(blocks, nav, base);
    CardElement(title, kids, base);
    WmlElement(CardTree(title, kids), base);
    Regroup(CardAttrs(title), CompileAll(kids, base));
  }

  function CardMeaning(title: string, blocks: seq<Node>, nav: seq<Node>, base: string): Doc {
    Tag("wml", [], [Tag("card", [DocAttr("id", Lits("p")), DocAttr("title", Atoms(title))],
                        MeaningAll(CardKids(blocks, nav), base))])
  }

  lemma CardMeaningIs(title: string, blocks: seq<Node>, nav: seq<Node>, base: string)
    ensures Meaning(Elem("wml", [], [CardTree(title, CardKids(blocks, nav))]), base)
            == [CardMeaning(title, blocks, nav, base)]
  {
    hide ElementCode, AttrCode, HasTag, HasAttr, CardKids, Atoms;
    TokensOfCard();
    KnownOfCard();
    var card := CardTree(title, CardKids(blocks, nav));
    var i, t := Attribute("id", "p"), Attribute("title", title);
    PlainString("p");
    assert AttrMeaning(i, base) == [DocAttr("id", Lits("p"))];
    assert AttrMeaning(t, base) == [DocAttr("title", Atoms(title))];
    assert AttrsMeaning([t], base) == AttrMeaning(t, base) + AttrsMeaning([], base);
    assert [i, t][1..] == [t];
    assert AttrsMeaning([i, t], base) == [DocAttr("id", Lits("p")), DocAttr("title", Atoms(title))];
    assert MeaningAll([card], base) == Meaning(card, base) + MeaningAll([], base);
    assert MeaningAll([card], base) == Meaning(card, base);
    assert AttrsMeaning([], base) == [];
  }

  lemma {:induction false} PlainFrom(s: string, p: nat)
    requires p <= |s| && '$' !in s
    ensures AtomsFrom(s, p) == Lits(s[p..])
    decreases |s| - p
  {
    if p < |s| {
      assert s[p] in s;
      PlainFrom(s, p + 1);
    }
  }

  lemma PlainString(s: string)
    requires '$' !in s
    ensures Atoms(s) == Lits(s)
  {
    PlainFrom(s, 0);
    assert s[0..] == s;
  }

  lemma WholeElement(n: Node, base: string)
    requires n.Elem? && ElementCode(LowerAll(n.name)) >= 0 && Clean(n) && NulFree(base)
    ensures Meaning(n, base) != [] && DecodeElement(Compile(n, base)) == Parsed(Meaning(n, base)[0], "")
  {
    hide ElementCode, ElementName, HasTag, DecodeElement, AttrsBytes, CompileAll, AttrsMeaning, MeaningAll, ElementBytes;
    PartsOf(n, base, "");
    ElementKnownExactly(LowerAll(n.name));
    ElementCodeNamed(LowerAll(n.name));
    ElementDecodes(ElementCode(LowerAll(n.name)), AttrsBytes(n.attrs, base), CompileAll(n.kids, base), "",
                   AttrsMeaning(n.attrs, base), MeaningAll(n.kids, base));
    assert Compile(n, base) + "" == Compile(n, base);
  }

  /** Compilation preserves meaning: a WBXML decoder reads all of
      compile_card's bytes back as the card's title, blocks and links. */
  lemma CardDecodes(title: string, blocks: seq<Node>, nav: seq<Node>, base: string)
    requires NulFree(title) && CleanAll(blocks) && CleanAll(nav) && NulFree(base)
    ensures DecodeDeck(CompileCard(title, blocks, nav, base))
            == Parsed(CardMeaning(title, blocks, nav, base), "")
  {
    hide Compile, Meaning, CardMeaning, DecodeElement, ElementCode, CompileCard;
    var kids := CardKids(blocks, nav);
    CleanAppend(blocks, nav);
    assert CleanAll([Text(" ")]);
    var card := CardTree(title, kids);
    var deck := Elem("wml", [], [card]);
    assert CleanAll([card]);
    TokensOfCard();
    CardIsDeck(title, blocks, nav, base);
    assert CompileCard(title, blocks, nav, base)[|HEADER|..] == Compile(deck, base);
    WholeElement(deck, base);
    CardMeaningIs(title, blocks, nav, base);
  }
}
