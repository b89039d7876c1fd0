/** How long compiled WML is: what the page measure of src/wap_gateway/wbxml.c relies on. */
module Measure {
  import opened Ascii
  import opened WmlString
  import opened WmlTokens
  import opened Wbxml

  // ---- Strings ------------------------------------------------------------------------

  lemma {:induction false} PlainEncodeFrom(s: string, p: nat)
    requires p <= |s| && '$' !in s && s != ""
    ensures EncodeFrom(s, 0, p) == Literal(s)
    decreases |s| - p
  {
    if p < |s| {
      assert s[p] in s;
      PlainEncodeFrom(s, p + 1);
    } else {
      assert s[0..] == s;
    }
  }

  /** A string without '$' takes its own length and two bytes. */
  lemma PlainLength(s: string)
    requires '$' !in s
    ensures |Encode(s)| == |s| + 2
  {
    if s != "" { PlainEncodeFrom(s, 0); }
  }

  lemma {:induction false} NameEndShift(b: string, v: string, i: nat)
    requires i <= |v|
    ensures NameEnd(b + v, |b| + i) == |b| + NameEnd(v, i)
    decreases |v| - i
  {
    if i < |v| && IsNameRest(v[i]) {
      assert (b + v)[|b| + i] == v[i];
      NameEndShift(b, v, i + 1);
    }
  }

  lemma {:induction false} FindShift(b: string, v: string, i: nat, c: char)
    requires i <= |v|
    ensures Find(b + v, |b| + i, c) == |b| + Find(v, i, c)
    decreases |v| - i
  {
    if i < |v| && v[i] != c { FindShift(b, v, i + 1, c); }
  }

  function Shifted(r: Reference, d: nat): Reference {
    match r
    case NoRef => NoRef
    case Ref(conv, start, end, after) => Ref(conv, d + start, d + end, d + after)
  }

  lemma CloseRefShift(b: string, v: string, start: nat, end: nat)
    requires start < end <= |v|
    ensures CloseRef(b + v, |b| + start, |b| + end) == Shifted(CloseRef(v, start, end), |b|)
  {
    hide ConvOf, Find;
    FindShift(b, v, end, ')');
    var close := Find(v, end, ')');
    if close < |v| && v[end] == ':' {
      assert (b + v)[|b| + end + 1..|b| + close] == v[end + 1..close];
    }
  }

  lemma ReadRefShift(b: string, v: string, p: nat)
    requires p < |v| && v[p] == '$'
    ensures ReadRef(b + v, |b| + p) == Shifted(ReadRef(v, p), |b|)
  {
    hide NameEnd, CloseRef, IsNameStart;
    var paren := At(v, p + 1) == '(';
    var start := if paren then p + 2 else p + 1;
    assert At(b + v, |b| + p + 1) == At(v, p + 1) && At(b + v, |b| + start) == At(v, start);
    if IsNameStart(At(v, start)) {
      NameStarts(v, start);
      NameEndShift(b, v, start);
      CloseRefShift(b, v, start, NameEnd(v, start));
    }
  }

  lemma NameStarts(v: string, start: nat)
    requires IsNameStart(At(v, start))
    ensures start < NameEnd(v, start)
  {}

  predicate RefAt(s: string, p: nat) {
    p < |s| && s[p] == '$' && At(s, p + 1) != '$' && ReadRef(s, p).Ref?
  }

  predicate PairAt(s: string, p: nat) { p < |s| && s[p] == '$' && At(s, p + 1) == '$' }

  lemma AtRef(s: string, run: nat, p: nat)
    requires run <= p && RefAt(s, p)
    ensures var r := ReadRef(s, p);
            EncodeFrom(s, run, p)
            == Literal(s[run..p]) + (Variable(r.conv, s[r.start..r.end]) + EncodeFrom(s, r.after, r.after))
  {}

  lemma AtPair(s: string, run: nat, p: nat)
    requires run <= p && PairAt(s, p)
    ensures EncodeFrom(s, run, p) == Literal(s[run..p + 1]) + EncodeFrom(s, p + 2, p + 2)
  {}

  lemma AtOther(s: string, run: nat, p: nat)
    requires run <= p < |s| && !RefAt(s, p) && !PairAt(s, p)
    ensures EncodeFrom(s, run, p) == EncodeFrom(s, run, p + 1)
  {}

  lemma KindShift(b: string, v: string, p: nat)
    requires p < |v|
    ensures RefAt(b + v, |b| + p) == RefAt(v, p) && PairAt(b + v, |b| + p) == PairAt(v, p)
    ensures RefAt(v, p) ==> ReadRef(b + v, |b| + p) == Shifted(ReadRef(v, p), |b|)
  {
    hide ReadRef;
    assert (b + v)[|b| + p] == v[p];
    if v[p] == '$' { ReadRefShift(b, v, p); }
  }

  /** Encoding from the middle does not depend on what stands before. */
  lemma {:induction false} EncodeShift(b: string, v: string, run: nat, p: nat)
    requires run <= p <= |v|
    ensures EncodeFrom(b + v, |b| + run, |b| + p) == EncodeFrom(v, run, p)
    decreases |v| - p
  {
    hide EncodeFrom, ReadRef, Literal, Variable, RefAt, PairAt;
    if p == |v| {
      ShiftEnd(b, v, run);
    } else {
      KindShift(b, v, p);
      if RefAt(v, p) {
        ShiftRef(b, v, run, p);
      } else if PairAt(v, p) {
        ShiftPair(b, v, run, p);
      } else {
        AtOther(b + v, |b| + run, |b| + p);
        AtOther(v, run, p);
        EncodeShift(b, v, run, p + 1);
      }
    }
  }

  lemma ShiftEnd(b: string, v: string, run: nat)
    requires run <= |v|
    ensures EncodeFrom(b + v, |b| + run, |b + v|) == EncodeFrom(v, run, |v|)
  {
    assert (b + v)[|b| + run..] == v[run..];
  }

  lemma {:induction false} ShiftPair(b: string, v: string, run: nat, p: nat)
    requires run <= p && PairAt(v, p)
    ensures EncodeFrom(b + v, |b| + run, |b| + p) == EncodeFrom(v, run, p)
    decreases |v| - p, 0
  {
    hide EncodeFrom, ReadRef, Literal, RefAt, PairAt;
    PairRoom(v, p);
    KindShift(b, v, p);
    AtPair(b + v, |b| + run, |b| + p);
    AtPair(v, run, p);
    EncodeShift(b, v, p + 2, p + 2);
    assert (b + v)[|b| + run..|b| + p + 1] == v[run..p + 1];
  }

  lemma PairRoom(v: string, p: nat)
    requires PairAt(v, p)
    ensures p + 2 <= |v|
  {}

  lemma RefRoom(v: string, p: nat)
    requires RefAt(v, p)
    ensures var r := ReadRef(v, p); p < r.start < r.end <= r.after <= |v|
  {}

  lemma {:induction false} ShiftRef(b: string, v: string, run: nat, p: nat)
    requires run <= p && RefAt(v, p)
    ensures EncodeFrom(b + v, |b| + run, |b| + p) == EncodeFrom(v, run, p)
    decreases |v| - p, 0
  {
    hide EncodeFrom, ReadRef, Literal, Variable;
    var s, r := b + v, ReadRef(v, p);
    RefRoom(v, p);
    KindShift(b, v, p);
    AtRef(s, |b| + run, |b| + p);
    AtRef(v, run, p);
    EncodeShift(b, v, r.after, r.after);
    SliceShift(b, v, run, p);
    SliceShift(b, v, r.start, r.end);
  }

  lemma SliceShift(b: string, v: string, i: nat, j: nat)
    requires i <= j <= |v|
    ensures (b + v)[|b| + i..|b| + j] == v[i..j]
  {}

  lemma LiteralLength(b: string, t: string)
    requires t != ""
    ensures |Literal(b + t)| == |b| + |Literal(t)|
  {}

  lemma {:induction false} EncodePrefixFrom(b: string, v: string, p: nat)
    requires 0 < p <= |v|
    ensures |EncodeFrom(b + v, 0, |b| + p)| == |b| + |EncodeFrom(v, 0, p)|
    decreases |v| - p
  {
    hide EncodeFrom, ReadRef, Literal, Variable, RefAt, PairAt;
    if p == |v| {
      PrefixEnd(b, v);
    } else {
      KindShift(b, v, p);
      if RefAt(v, p) {
        PrefixRef(b, v, p);
      } else if PairAt(v, p) {
        PrefixPair(b, v, p);
      } else {
        AtOther(b + v, 0, |b| + p);
        AtOther(v, 0, p);
        EncodePrefixFrom(b, v, p + 1);
      }
    }
  }

  lemma PrefixEnd(b: string, v: string)
    requires v != ""
    ensures |EncodeFrom(b + v, 0, |b + v|)| == |b| + |EncodeFrom(v, 0, |v|)|
  {
    assert (b + v)[0..] == b + v && v[0..] == v;
    LiteralLength(b, v);
  }

  lemma PrefixPair(b: string, v: string, p: nat)
    requires 0 < p && PairAt(v, p)
    ensures |EncodeFrom(b + v, 0, |b| + p)| == |b| + |EncodeFrom(v, 0, p)|
  {
    hide EncodeFrom, ReadRef, Literal, RefAt, PairAt;
    PairRoom(v, p);
    KindShift(b, v, p);
    AtPair(b + v, 0, |b| + p);
    AtPair(v, 0, p);
    EncodeShift(b, v, p + 2, p + 2);
    assert (b + v)[0..|b| + p + 1] == b + v[0..p + 1];
    LiteralLength(b, v[0..p + 1]);
  }

  lemma PrefixRef(b: string, v: string, p: nat)
    requires 0 < p && RefAt(v, p)
    ensures |EncodeFrom(b + v, 0, |b| + p)| == |b| + |EncodeFrom(v, 0, p)|
  {
    hide EncodeFrom, ReadRef, Literal, Variable;
    var s, r := b + v, ReadRef(v, p);
    RefRoom(v, p);
    KindShift(b, v, p);
    AtRef(s, 0, |b| + p);
    AtRef(v, 0, p);
    EncodeShift(b, v, r.after, r.after);
    assert s[0..|b| + p] == b + v[0..p];
    LiteralLength(b, v[0..p]);
    assert s[|b| + r.start..|b| + r.end] == v[r.start..r.end];
  }

  lemma {:induction false} SkipPlain(b: string, v: string, p: nat)
    requires '$' !in b && p <= |b|
    ensures EncodeFrom(b + v, 0, p) == EncodeFrom(b + v, 0, |b|)
    decreases |b| - p
  {
    if p < |b| {
      assert (b + v)[p] == b[p] && b[p] in b;
      SkipPlain(b, v, p + 1);
    }
  }

  /** The length of an encoded link is additive in a plain prefix, whatever
      references follow. */
  lemma EncodePrefix(b: string, v: string)
    requires '$' !in b && v != "" && v[0] != '$'
    ensures |Encode(b + v)| == |b| + |Encode(v)|
  {
    hide EncodeFrom;
    var s := b + v;
    assert s != "";
    SkipPlain(b, v, 0);
    StepPlain(s, |b|);
    StepPlain(v, 0);
    EncodePrefixFrom(b, v, 1);
  }

  lemma StepPlain(s: string, p: nat)
    requires p < |s| && s[p] != '$'
    ensures EncodeFrom(s, 0, p) == EncodeFrom(s, 0, p + 1)
  {}

  // ---- Trees ----------------------------------------------------------------------------

  /** A base no longer than another, both without '$'. */
  predicate Shorter(b1: string, b2: string) { |b1| <= |b2| && '$' !in b1 && '$' !in b2 }

  lemma AttrShorter(a: Attribute, b1: string, b2: string)
    requires Shorter(b1, b2)
    ensures |AttrBytes(a, b1)| <= |AttrBytes(a, b2)|
    ensures AttrBytes(a, b1) == "" <==> AttrBytes(a, b2) == ""
  {
    hide AttrCode, Encode, ValueAttrCode;
    if SiteRelative(a.value) {
      EncodePrefix(b1, a.value);
      EncodePrefix(b2, a.value);
    }
  }

  lemma {:induction false} AttrsShorter(attrs: seq<Attribute>, b1: string, b2: string)
    requires Shorter(b1, b2)
    ensures |AttrsBytes(attrs, b1)| <= |AttrsBytes(attrs, b2)|
    ensures AttrsBytes(attrs, b1) == "" <==> AttrsBytes(attrs, b2) == ""
  {
    hide AttrBytes;
    if attrs != [] {
      AttrShorter(attrs[0], b1, b2);
      AttrsShorter(attrs[1..], b1, b2);
    }
  }

  lemma ElementShorter(code: int, a1: string, c1: string, a2: string, c2: string)
    requires 0 <= code < 0x40 && |a1| <= |a2| && |c1| <= |c2|
    ensures |ElementBytes(code, a1, c1)| <= |ElementBytes(code, a2, c2)|
  {}

  /** A shorter base never makes a tree longer. */
  lemma {:induction false} CompileShorter(n: Node, b1: string, b2: string)
    requires Shorter(b1, b2)
    ensures |Compile(n, b1)| <= |Compile(n, b2)|
    decreases n, 1
  {
    hide ElementCode, Encode, ElementBytes, AttrsBytes, CompileAll;
    if n.Elem? {
      AttrsShorter(n.attrs, b1, b2);
      CompileAllShorter(n.kids, b1, b2);
      var code := ElementCode(LowerAll(n.name));
      if code >= 0 {
        ElementShorter(code, AttrsBytes(n.attrs, b1), CompileAll(n.kids, b1),
                       AttrsBytes(n.attrs, b2), CompileAll(n.kids, b2));
      }
    }
  }

  lemma {:induction false} CompileAllShorter(ns: seq<Node>, b1: string, b2: string)
    requires Shorter(b1, b2)
    ensures |CompileAll(ns, b1)| <= |CompileAll(ns, b2)|
    decreases ns, 0
  {
    hide Compile;
    if ns != [] {
      CompileShorter(ns[0], b1, b2);
      CompileAllShorter(ns[1..], b1, b2);
    }
  }

  // ---- Cards ------------------------------------------------------------------------------

  lemma CardLength(title: string, blocks: seq<Node>, nav: seq<Node>, base: string)
    ensures |CompileCard(title, blocks, nav, base)|
            == 14 + |Encode(title)| + |CardBody(CompileAll(blocks, base) + CompileAll(nav, base))|
  {
    hide Encode, CardBody, CompileAll;
    PlainLength("p");
  }

  lemma FillerLength()
    ensures |CardBody("")| == 3
  {
    PlainLength(" ");
  }

  /** The filler an empty card carries makes room for three bytes of links. */
  lemma BodyWithNav(x: string, y: string)
    ensures |CardBody(x + y)| <= |CardBody(x + "")| + |y|
  {
    hide Encode;
    FillerLength();
    assert x + "" == x;
    if x == "" { assert x + y == y; }
  }
}
