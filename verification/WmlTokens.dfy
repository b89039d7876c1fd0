/** The WML 1.1 token tables of src/wap_gateway/wbxml.c, both ways. */
module WmlTokens {

  const END: char := '\U{01}'
  const ATTR_HREF: nat := 0x4A
  const ATTR_SRC: nat := 0x32
  const METHOD_GET: nat := 0x1B
  const METHOD_POST: nat := 0x1C

  // ELEMENTS: the code of a lower-case name, -1 if there is none. Kept as two halves.

  function ElementCodeA(n: string): (c: int)
    ensures c == -1 || 0x1C <= c < 0x40
  {
    if n == "wml" then 0x3F else if n == "card" then 0x27 else if n == "do" then 0x28 else
    if n == "onevent" then 0x33 else if n == "head" then 0x2C else
    if n == "template" then 0x3B else if n == "access" then 0x23 else if n == "meta" then 0x30 else
    if n == "go" then 0x2B else if n == "prev" then 0x32 else if n == "refresh" then 0x36 else
    if n == "noop" then 0x31 else if n == "postfield" then 0x21 else
    if n == "setvar" then 0x3E else if n == "select" then 0x37 else
    if n == "optgroup" then 0x34 else if n == "option" then 0x35 else -1
  }

  function ElementCodeB(n: string): (c: int)
    ensures c == -1 || 0x1C <= c < 0x40
  {
    if n == "input" then 0x2F else if n == "fieldset" then 0x2A else if n == "timer" then 0x3C else
    if n == "img" then 0x2E else if n == "anchor" then 0x22 else if n == "a" then 0x1C else
    if n == "table" then 0x1F else if n == "tr" then 0x1E else if n == "td" then 0x1D else
    if n == "em" then 0x29 else if n == "strong" then 0x39 else if n == "b" then 0x24 else
    if n == "i" then 0x2D else if n == "u" then 0x3D else if n == "big" then 0x25 else
    if n == "small" then 0x38 else if n == "p" then 0x20 else if n == "br" then 0x26 else -1
  }

  function ElementCode(n: string): (c: int)
    ensures c == -1 || 0x1C <= c < 0x40
  {
    if ElementCodeA(n) >= 0 then ElementCodeA(n) else ElementCodeB(n)
  }

  // Tag code page 0: the name with this code, "" if there is none.

  function ElementNameA(c: int): string {
    if c == 0x3F then "wml" else if c == 0x27 then "card" else if c == 0x28 then "do" else
    if c == 0x33 then "onevent" else if c == 0x2C then "head" else
    if c == 0x3B then "template" else if c == 0x23 then "access" else if c == 0x30 then "meta" else
    if c == 0x2B then "go" else if c == 0x32 then "prev" else if c == 0x36 then "refresh" else
    if c == 0x31 then "noop" else if c == 0x21 then "postfield" else
    if c == 0x3E then "setvar" else if c == 0x37 then "select" else
    if c == 0x34 then "optgroup" else if c == 0x35 then "option" else ""
  }

  function ElementNameB(c: int): string {
    if c == 0x2F then "input" else if c == 0x2A then "fieldset" else if c == 0x3C then "timer" else
    if c == 0x2E then "img" else if c == 0x22 then "anchor" else if c == 0x1C then "a" else
    if c == 0x1F then "table" else if c == 0x1E then "tr" else if c == 0x1D then "td" else
    if c == 0x29 then "em" else if c == 0x39 then "strong" else if c == 0x24 then "b" else
    if c == 0x2D then "i" else if c == 0x3D then "u" else if c == 0x25 then "big" else
    if c == 0x38 then "small" else if c == 0x20 then "p" else if c == 0x26 then "br" else ""
  }

  function ElementName(c: int): string {
    if ElementNameA(c) != "" then ElementNameA(c) else ElementNameB(c)
  }

  lemma ElementCodeANamed(n: string)
    requires ElementCodeA(n) >= 0
    ensures ElementNameA(ElementCodeA(n)) == n && n != ""
  {
  }

  lemma ElementCodeBNamed(n: string)
    requires ElementCodeB(n) >= 0
    ensures ElementNameB(ElementCodeB(n)) == n && n != ""
  {
  }

  lemma ElementCodeBApart(n: string)
    requires ElementCodeB(n) >= 0
    ensures ElementNameA(ElementCodeB(n)) == ""
  {
    hide ElementNameB, ElementCodeA;
  }

  /** Looking the code up again gives the name back. */
  lemma ElementCodeNamed(n: string)
    requires ElementCode(n) >= 0
    ensures ElementName(ElementCode(n)) == n && n != ""
  {
    hide ElementCodeA, ElementCodeB, ElementNameA, ElementNameB;
    if ElementCodeA(n) >= 0 {
      ElementCodeANamed(n);
    } else {
      ElementCodeBNamed(n);
      ElementCodeBApart(n);
    }
  }

  lemma ElementNameACoded(c: int)
    requires ElementNameA(c) != ""
    ensures ElementCodeA(ElementNameA(c)) == c && c >= 0
  {}

  lemma ElementNameBCoded(c: int)
    requires ElementNameB(c) != ""
    ensures ElementCodeB(ElementNameB(c)) == c && c >= 0
  {}

  lemma ElementNameBApart(c: int)
    requires ElementNameB(c) != ""
    ensures ElementCodeA(ElementNameB(c)) < 0
  {}

  /** The format has an element of this name. */
  predicate HasTag(n: string) { n != "" && exists c :: 0 <= c < 0x40 && ElementName(c) == n }

  /** Every name of the tag code page is compiled to its code. */
  lemma ElementNameCoded(c: int)
    requires ElementName(c) != ""
    ensures ElementCode(ElementName(c)) == c
  {
    hide ElementCodeA, ElementCodeB, ElementNameA, ElementNameB;
    if ElementNameA(c) != "" { ElementNameACoded(c); } else { ElementNameBCoded(c); ElementNameBApart(c); }
  }

  /** The compiler knows exactly the names of the tag code page. */
  lemma ElementKnownExactly(n: string)
    ensures ElementCode(n) >= 0 <==> HasTag(n)
  {
    hide ElementCode, ElementName;
    if ElementCode(n) >= 0 { ElementCodeNamed(n); }
    if HasTag(n) {
      var c :| 0 <= c < 0x40 && ElementName(c) == n;
      ElementNameCoded(c);
    }
  }

  // ATTRS: the code of a lower-case name, -1 if there is none. Kept as two halves.

  function AttrCodeA(n: string): (c: int)
    ensures c == -1 || (5 <= c < 0x60 && c !in [0x40, 0x41, 0x42, METHOD_GET, METHOD_POST])
  {
    if n == "accept-charset" then 0x05 else if n == "accesskey" then 0x5E else
    if n == "align" then 0x52 else if n == "alt" then 0x0C else if n == "class" then 0x54 else
    if n == "columns" then 0x53 else if n == "content" then 0x0D else
    if n == "domain" then 0x0F else if n == "enctype" then 0x5F else
    if n == "format" then 0x12 else if n == "height" then 0x13 else if n == "href" then 0x4A else
    if n == "hspace" then 0x14 else if n == "http-equiv" then 0x5A else if n == "id" then 0x55 else
    if n == "ivalue" then 0x15 else if n == "iname" then 0x16 else if n == "label" then 0x18 else -1
  }

  function AttrCodeB(n: string): (c: int)
    ensures c == -1 || (5 <= c < 0x60 && c !in [0x40, 0x41, 0x42, METHOD_GET, METHOD_POST])
  {
    if n == "localsrc" then 0x19 else if n == "maxlength" then 0x1A else
    if n == "name" then 0x21 else if n == "onenterbackward" then 0x25 else
    if n == "onenterforward" then 0x26 else if n == "onpick" then 0x24 else
    if n == "ontimer" then 0x27 else if n == "path" then 0x2A else if n == "scheme" then 0x2E else
    if n == "size" then 0x31 else if n == "src" then 0x32 else if n == "tabindex" then 0x35 else
    if n == "title" then 0x36 else if n == "type" then 0x37 else if n == "value" then 0x4D else
    if n == "vspace" then 0x4E else if n == "width" then 0x4F else
    if n == "xml:lang" then 0x50 else -1
  }

  function AttrCode(n: string): (c: int)
    ensures c == -1 || (5 <= c < 0x60 && c !in [0x40, 0x41, 0x42, METHOD_GET, METHOD_POST])
  {
    if AttrCodeA(n) >= 0 then AttrCodeA(n) else AttrCodeB(n)
  }

  // Attribute code page 0: the name with this code, "" if there is none.

  function AttrNameA(c: int): string {
    if c == 0x05 then "accept-charset" else if c == 0x5E then "accesskey" else
    if c == 0x52 then "align" else if c == 0x0C then "alt" else if c == 0x54 then "class" else
    if c == 0x53 then "columns" else if c == 0x0D then "content" else
    if c == 0x0F then "domain" else if c == 0x5F then "enctype" else
    if c == 0x12 then "format" else if c == 0x13 then "height" else if c == 0x4A then "href" else
    if c == 0x14 then "hspace" else if c == 0x5A then "http-equiv" else if c == 0x55 then "id" else
    if c == 0x15 then "ivalue" else if c == 0x16 then "iname" else if c == 0x18 then "label" else ""
  }

  function AttrNameB(c: int): string {
    if c == 0x19 then "localsrc" else if c == 0x1A then "maxlength" else
    if c == 0x21 then "name" else if c == 0x25 then "onenterbackward" else
    if c == 0x26 then "onenterforward" else if c == 0x24 then "onpick" else
    if c == 0x27 then "ontimer" else if c == 0x2A then "path" else if c == 0x2E then "scheme" else
    if c == 0x31 then "size" else if c == 0x32 then "src" else if c == 0x35 then "tabindex" else
    if c == 0x36 then "title" else if c == 0x37 then "type" else if c == 0x4D then "value" else
    if c == 0x4E then "vspace" else if c == 0x4F then "width" else
    if c == 0x50 then "xml:lang" else ""
  }

  function AttrName(c: int): string {
    if AttrNameA(c) != "" then AttrNameA(c) else AttrNameB(c)
  }

  lemma AttrCodeANamed(n: string)
    requires AttrCodeA(n) >= 0
    ensures AttrNameA(AttrCodeA(n)) == n && n != ""
  {
  }

  lemma AttrCodeBNamed(n: string)
    requires AttrCodeB(n) >= 0
    ensures AttrNameB(AttrCodeB(n)) == n && n != ""
  {
  }

  lemma AttrCodeBApart(n: string)
    requires AttrCodeB(n) >= 0
    ensures AttrNameA(AttrCodeB(n)) == ""
  {
    hide AttrNameA, AttrCodeB, CodesB;
    AttrCodeBAmong(n);
    AmongBApart(AttrCodeB(n));
  }

  /** The codes of the second half. */
  const CodesB: set<int> := {0x19, 0x1A, 0x21, 0x25, 0x26, 0x24, 0x27, 0x2A, 0x2E, 0x31, 0x32, 0x35, 0x36, 0x37, 0x4D,
                             0x4E, 0x4F, 0x50}

  lemma AttrCodeBAmong(n: string)
    requires AttrCodeB(n) >= 0
    ensures AttrCodeB(n) in CodesB
  {}

  lemma AmongBApart(c: int)
    requires c in CodesB
    ensures AttrNameA(c) == ""
  {}

  /** Looking the code up again gives the name back. */
  lemma AttrCodeNamed(n: string)
    requires AttrCode(n) >= 0
    ensures AttrName(AttrCode(n)) == n && n != ""
  {
    hide AttrCodeA, AttrCodeB, AttrNameA, AttrNameB;
    if AttrCodeA(n) >= 0 {
      AttrCodeANamed(n);
    } else {
      AttrCodeBNamed(n);
      AttrCodeBApart(n);
    }
  }

  lemma AttrNameACoded(c: int)
    requires AttrNameA(c) != ""
    ensures AttrCodeA(AttrNameA(c)) == c && c >= 0
  {}

  lemma AttrNameBCoded(c: int)
    requires AttrNameB(c) != ""
    ensures AttrCodeB(AttrNameB(c)) == c && c >= 0
  {}

  lemma AttrNameBApart(c: int)
    requires AttrNameB(c) != ""
    ensures AttrCodeA(AttrNameB(c)) < 0
  {}

  /** The format has an attribute of this name with a token of its own. */
  predicate HasAttr(n: string) { n != "" && exists c :: 0 <= c < 0x60 && AttrName(c) == n }

  /** Every name of the attribute code page is compiled to its code. */
  lemma AttrNameCoded(c: int)
    requires AttrName(c) != ""
    ensures AttrCode(AttrName(c)) == c
  {
    hide AttrCodeA, AttrCodeB, AttrNameA, AttrNameB;
    if AttrNameA(c) != "" { AttrNameACoded(c); } else { AttrNameBCoded(c); AttrNameBApart(c); }
  }

  /** The compiler knows exactly the names of the attribute code page. */
  lemma AttrKnownExactly(n: string)
    ensures AttrCode(n) >= 0 <==> HasAttr(n)
  {
    hide AttrCode, AttrName;
    if AttrCode(n) >= 0 { AttrCodeNamed(n); }
    if HasAttr(n) {
      var c :| 0 <= c < 0x60 && AttrName(c) == n;
      AttrNameCoded(c);
    }
  }

  lemma LinkAttrs(n: string)
    ensures AttrCode(n) == ATTR_HREF || AttrCode(n) == ATTR_SRC <==> n in ["href", "src"]
  {
  }
}
