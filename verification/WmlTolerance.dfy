/** How the WML reader takes what is not well formed, or not written as its own printer would
    (parse_wml of src/wap_gateway/wbxml.c): comments, declarations, stray end tags, the forms
    of an attribute and elements without an end tag. */
module WmlTolerance {
  import opened Ascii
  import opened Wbxml
  import opened WmlParser
  import opened WmlPrinter

  // ---- What is skipped ------------------------------------------------------------------------

  /** A comment is skipped up to its first "-->". */
  lemma CommentSkipped(c: string, rest: string, stack: Stack)
    requires forall i :: 0 <= i < |c| ==> !HasAt(c + "-->", i, "-->")
    ensures ParseFrom("<!--" + (c + ("-->" + rest)), stack) == ParseFrom(rest, stack)
  {
    hide ParseFrom, FindStr;
    var s := "<!--" + (c + ("-->" + rest));
    var e := |c| + 4;
    assert s[0..4] == "<!--" && s[e..e + 3] == "-->" && s[e + 3..] == rest;
    forall i | 4 <= i < e ensures !HasAt(s, i, "-->") {
      assert !HasAt(c + "-->", i - 4, "-->");
      assert s[i..i + 3] == (c + "-->")[i - 4..i - 1];
    }
    FirstAt(s, 4, "-->", e);
    assert ParseStep(s, stack) == Step(e + 3, stack);
    Resume(s, e + 3, rest, stack, stack);
  }

  lemma FirstAt(s: string, from: nat, m: string, at: nat)
    requires m != "" && from <= at && HasAt(s, at, m) && forall i :: from <= i < at ==> !HasAt(s, i, m)
    ensures FindStr(s, from, m) == at
  {
    hide FindStr, HasAt;
    InString(s, at, m);
  }

  lemma InString(s: string, at: nat, m: string)
    requires m != "" && HasAt(s, at, m)
    ensures at < |s|
  {}

  /** One that is never closed takes all that follows. */
  lemma OpenComment(c: string, stack: Stack)
    requires forall i :: 0 <= i < |c| ==> !HasAt(c, i, "-->")
    ensures ParseFrom("<!--" + c, stack) == stack
  {
    hide FindStr;
    var s := "<!--" + c;
    assert s[0..4] == "<!--";
    forall i | 4 <= i < |s| ensures !HasAt(s, i, "-->") {
      assert !HasAt(c, i - 4, "-->");
      if i + 3 <= |s| { assert s[i..i + 3] == c[i - 4..i - 1]; }
    }
    assert FindStr(s, 4, "-->") == |s|;
    assert s[|s|..] == "";
  }

  /** A declaration or processing instruction is skipped up to its first '>'. */
  lemma DeclarationSkipped(x: string, rest: string, stack: Stack)
    requires x != "" && x[0] in "?!" && !("!--" <= x) && '>' !in x
    ensures ParseFrom("<" + (x + (">" + rest)), stack) == ParseFrom(rest, stack)
  {
    hide ParseFrom, Find;
    var s := "<" + (x + (">" + rest));
    var e := |x| + 1;
    assert s[1..] == x + (">" + rest) && s[1] == x[0] && s[e] == '>' && s[e + 1..] == rest;
    NotAComment(x, rest);
    assert forall i :: 1 <= i < e ==> s[i] == x[i - 1] && x[i - 1] in x;
    assert Find(s, 1, '>') == e;
    assert ParseStep(s, stack) == Step(e + 1, stack);
    Resume(s, e + 1, rest, stack, stack);
  }

  lemma NotAComment(x: string, rest: string)
    requires x != "" && !("!--" <= x)
    ensures !HasAt("<" + (x + (">" + rest)), 0, "<!--")
  {
    var s := "<" + (x + (">" + rest));
    assert forall i :: 0 <= i < |x| ==> s[i + 1] == x[i];
    assert s[|x| + 1] == '>';
    if |s| >= 4 {
      var m := s[0..4];
      assert m[1] == s[1] && m[2] == s[2] && m[3] == s[3];
    }
  }

  // ---- End tags -----------------------------------------------------------------------------------

  /** The innermost open element with this name, in any case, is d. */
  ghost predicate Innermost(stack: Stack, name: string, d: nat) {
    1 <= d < |stack| && SameFold(stack[d].name, name) && forall k :: d < k < |stack| ==> !SameFold(stack[k].name, name)
  }

  lemma {:induction false} MatchingIs(stack: Stack, name: string, d: nat)
    requires d < |stack| && forall k :: d < k < |stack| ==> !SameFold(stack[k].name, name)
    ensures var r := Matching(stack, name, d);
            if r == 0 then forall k :: !Innermost(stack, name, k) else Innermost(stack, name, r)
  {
    hide SameFold;
    if d > 0 && !SameFold(stack[d].name, name) { MatchingIs(stack, name, d - 1); }
  }

  /** Elements left open inside each other. */
  function Nested(opens: seq<Open>): Node
    requires opens != []
    decreases |opens|
  {
    var o := opens[0];
    Elem(o.name, o.attrs, o.kids + if |opens| == 1 then [] else [Nested(opens[1..])])
  }

  /** What is open after element d has ended, and with it all that was open inside it. */
  function Ended(stack: Stack, d: nat): Stack
    requires 1 <= d < |stack|
  {
    AddKids(stack[..d], [Nested(stack[d..])])
  }

  lemma {:induction false} LastNested(opens: seq<Open>)
    requires |opens| >= 2
    ensures var n := |opens| - 1;
            var last := opens[n - 1];
            Nested(opens) == Nested(opens[..n - 1] + [last.(kids := last.kids + [Nested([opens[n]])])])
    decreases |opens|
  {
    var n := |opens| - 1;
    var last := opens[n - 1];
    var shorter := opens[..n - 1] + [last.(kids := last.kids + [Nested([opens[n]])])];
    if n == 1 {
      assert opens[1..] == [opens[1]];
      assert last.kids + [Nested([opens[1]])] + [] == last.kids + [Nested([opens[1]])];
    } else {
      LastNested(opens[1..]);
      assert shorter[0] == opens[0];
      assert shorter[1..] == opens[1..][..n - 2] + [last.(kids := last.kids + [Nested([opens[n]])])];
    }
  }

  lemma {:induction false} CloseNests(stack: Stack, d: nat)
    requires 1 <= d < |stack|
    ensures CloseTo(stack, d) == Ended(stack, d)
    decreases |stack|
  {
    hide Nested;
    var n := |stack| - 1;
    var top, below := stack[n], stack[..n];
    OneNested(top);
    var next := AddKids(below, [Elem(top.name, top.attrs, top.kids)]);
    if n == d {
      assert stack[d..] == [top];
    } else {
      CloseNests(next, d);
      var opens := stack[d..];
      LastNested(opens);
      var last := stack[n - 1];
      assert next[..d] == stack[..d];
      assert next[d..] == opens[..|opens| - 2] + [last.(kids := last.kids + [Nested([top])])];
    }
  }

  lemma OneNested(o: Open)
    ensures Nested([o]) == Elem(o.name, o.attrs, o.kids)
  {
    assert o.kids + [] == o.kids;
  }

  /** An end tag ends the innermost open element of its name with all that is open inside
      it, whatever stands behind the name; one that matches nothing is ignored. */
  lemma EndTagMeans(name: string, junk: string, rest: string, stack: Stack)
    requires |name| <= NAME_MAX && (forall i :: 0 <= i < |name| ==> IsNameChar(name[i]))
    requires '>' !in junk && (junk == "" || !IsNameChar(junk[0]))
    ensures var s := "</" + (name + (junk + (">" + rest)));
            && (forall d: nat :: Innermost(stack, name, d) ==> ParseFrom(s, stack) == ParseFrom(rest, Ended(stack, d)))
            && ((forall d: nat :: !Innermost(stack, name, d)) ==> ParseFrom(s, stack) == ParseFrom(rest, stack))
  {
    hide ParseFrom, ParseStep, CloseTo, Innermost, Ended, Matching, SameFold;
    var s := "</" + (name + (junk + (">" + rest)));
    var e := 2 + |name| + |junk|;
    EndTagStepIs(name, junk, rest, stack);
    MatchingIs(stack, name, |stack| - 1);
    var r := Matching(stack, name, |stack| - 1);
    forall d: nat | Innermost(stack, name, d) ensures d == r {
      OneInnermost(stack, name, d, r);
    }
    var after := if r == 0 then stack else CloseTo(stack, r);
    Resume(s, e + 1, rest, stack, after);
    if r > 0 { InnermostOpen(stack, name, r); CloseNests(stack, r); }
  }

  lemma EndTagStepIs(name: string, junk: string, rest: string, stack: Stack)
    requires |name| <= NAME_MAX && (forall i :: 0 <= i < |name| ==> IsNameChar(name[i]))
    requires '>' !in junk && (junk == "" || !IsNameChar(junk[0]))
    ensures var s := "</" + (name + (junk + (">" + rest)));
            var e := 2 + |name| + |junk|;
            var r := Matching(stack, name, |stack| - 1);
            && |s| > e && s[e + 1..] == rest
            && ParseStep(s, stack) == Step(e + 1, if r == 0 then stack else CloseTo(stack, r))
  {
    hide ParseStep, PastAngle, NameLen, CloseTo, Matching;
    var tail := junk + (">" + rest);
    var s := "</" + (name + tail);
    EndTagCut(name, junk, rest);
    EndsTag(s, stack);
    NameStops(name, tail);
  }

  lemma InnermostOpen(stack: Stack, name: string, d: nat)
    requires Innermost(stack, name, d)
    ensures 1 <= d < |stack|
  {}

  lemma OneInnermost(stack: Stack, name: string, d: nat, r: nat)
    requires Innermost(stack, name, d) && (r == 0 || Innermost(stack, name, r)) && (r == 0 ==> forall k :: !Innermost(stack, name, k))
    ensures d == r
  {
    hide SameFold;
  }

  lemma EndTagCut(name: string, junk: string, rest: string)
    requires '>' !in junk && forall i :: 0 <= i < |name| ==> IsNameChar(name[i])
    ensures var s := "</" + (name + (junk + (">" + rest)));
            var e := 2 + |name| + |junk|;
            && |s| > e && s[0] == '<' && s[1] == '/' && s[2..] == name + (junk + (">" + rest))
            && s[2..2 + |name|] == name && PastAngle(s, 2 + |name|) == e + 1 && s[e + 1..] == rest
  {
    hide Find, PastAngle;
    var tail := junk + (">" + rest);
    var s := "</" + (name + tail);
    TwoCut("</", name, tail);
    TwoCut("</" + name, junk, ">" + rest);
    Assoc("</", name, tail);
    TwoCut("</" + name + junk, ">", rest);
    Assoc("</" + name, junk, ">" + rest);
    AngleIs(s, 2 + |name|, junk, rest);
  }

  lemma TwoCut(a: string, b: string, c: string)
    ensures var s := a + (b + c);
            s[..|a|] == a && s[|a|..] == b + c && s[|a|..|a| + |b|] == b && s[|a| + |b|..] == c
  {}

  lemma AngleIs(s: string, at: nat, junk: string, rest: string)
    requires at <= |s| && s[at..] == junk + (">" + rest) && '>' !in junk
    ensures PastAngle(s, at) == at + |junk| + 1 && |s| > at + |junk|
  {
    hide Find;
    var tail, e := junk + (">" + rest), at + |junk|;
    assert |s| == at + |tail|;
    assert s[e] == tail[|junk|] == '>';
    forall i | at <= i < e ensures s[i] != '>' {
      assert s[i] == tail[i - at] == junk[i - at] && junk[i - at] in junk;
    }
  }

  // ---- Attributes -------------------------------------------------------------------------------------

  predicate AllSpace(s: string) { forall i :: 0 <= i < |s| ==> IsSpace(s[i]) }

  /** `text` writes the value v in front of `rest`: in quotes of either kind, or bare. */
  predicate WritesValue(text: string, v: string, rest: string) {
    || (exists q :: q in "\"'" && q !in v && text == [q] + v + [q])
    || (text == v && v != "" && v[0] !in "\"'" && (forall i :: 0 <= i < |v| ==> !IsSpace(v[i]) && v[i] != '>')
        && (rest == "" || IsSpace(rest[0]) || rest[0] == '>'))
  }

  lemma {:induction false} BareStops(v: string, rest: string)
    requires forall i :: 0 <= i < |v| ==> !IsSpace(v[i]) && v[i] != '>'
    requires rest == "" || IsSpace(rest[0]) || rest[0] == '>'
    ensures BareLen(v + rest) == |v|
  {
    if v == "" {
      assert v + rest == rest;
    } else {
      assert (v + rest)[1..] == v[1..] + rest;
      BareStops(v[1..], rest);
    }
  }

  lemma {:induction false} SpaceStops(a: string, rest: string)
    requires AllSpace(a) && (rest == "" || !IsSpace(rest[0]))
    ensures SpaceLen(a + rest) == |a|
  {
    if a == "" {
      assert a + rest == rest;
    } else {
      assert (a + rest)[1..] == a[1..] + rest;
      SpaceStops(a[1..], rest);
    }
  }

  lemma ValueTaken(text: string, v: string, rest: string)
    requires WritesValue(text, v, rest)
    ensures ReadValue(text + rest) == Value(DecodeEntities(v), |text|)
    ensures text != "" && !IsSpace(text[0])
  {
    hide DecodeEntities, Find, BareLen;
    var s := text + rest;
    if q :| q in "\"'" && q !in v && text == [q] + v + [q] {
      var e := |v| + 1;
      assert s[0] == q && s[e] == q && s[1..e] == v;
      assert forall i :: 1 <= i < e ==> s[i] == v[i - 1] && v[i - 1] in v;
      assert Find(s, 1, q) == e;
    } else {
      BareStops(v, rest);
      assert s[0] == v[0] && s[..|v|] == v;
    }
  }

  /** An attribute reads the same however its value is quoted and spaced. */
  lemma AttributeReads(name: string, a: string, b: string, text: string, v: string, rest: string)
    requires name != "" && (forall i :: 0 <= i < |name| ==> IsNameChar(name[i])) && AllSpace(a) && AllSpace(b)
    requires WritesValue(text, v, rest)
    ensures var r := ScanAttrs(name + (a + ("=" + (b + (text + rest)))));
            var more := ScanAttrs(rest);
            r.attrs == [Attribute(ShortName(name), DecodeEntities(v))] + more.attrs && r.selfClose == more.selfClose
  {
    hide DecodeEntities, NameLen, SpaceLen, ReadValue, ScanAttrs, WritesValue, ShortName;
    var tail := a + ("=" + (b + (text + rest)));
    AfterNameStops(a, "=" + (b + (text + rest)));
    NameStops(name, tail);
    ValueTaken(text, v, rest);
    EqualsRead(ShortName(name), a, b, text, rest, DecodeEntities(v));
    NameTaken(name, tail, Value(DecodeEntities(v), |tail| - |rest|), rest);
  }

  lemma AfterNameStops(a: string, x: string)
    requires AllSpace(a) && x != "" && x[0] == '='
    ensures (a + x) != "" && !IsNameChar((a + x)[0])
  {}

  lemma EqualsRead(name: string, a: string, b: string, text: string, rest: string, v: string)
    requires AllSpace(a) && AllSpace(b) && text != "" && !IsSpace(text[0])
    requires ReadValue(text + rest) == Value(v, |text|)
    ensures var tail := a + ("=" + (b + (text + rest))); ReadRest(name, tail) == Value(v, |tail| - |rest|)
  {
    hide ReadValue, SpaceLen;
    var value := text + rest;
    var eq := "=" + (b + value);
    var tail := a + eq;
    SpaceStops(a, eq);
    SpaceStops(b, value);
    assert tail[|a|] == '=' && tail[|a| + 1..] == b + value && (b + value)[|b|..] == value;
  }

  lemma NameTaken(name: string, tail: string, v: Value, rest: string)
    requires name != "" && (forall i :: 0 <= i < |name| ==> IsNameChar(name[i])) && NameLen(name + tail) == |name|
    requires ReadRest(ShortName(name), tail) == v && v.used == |tail| - |rest| && tail[|tail| - |rest|..] == rest
    ensures var r := ScanAttrs(name + tail);
            var more := ScanAttrs(rest);
            r.attrs == [Attribute(ShortName(name), v.text)] + more.attrs && r.selfClose == more.selfClose
  {
    hide ReadRest, NameLen, ShortName, ScanAttrs, IsNameChar;
    var s, k := name + tail, |tail| - |rest|;
    NameCut(name, tail, k);
    NoAngle(name[0]);
    ScanStep(s, |name|, name, tail, v, rest);
  }

  lemma ScanStep(s: string, n: nat, name: string, tail: string, v: Value, rest: string)
    requires s != "" && s[0] != '>' && NameLen(s) == n && 0 < n <= |s| && s[..n] == name && s[n..] == tail
    requires ReadRest(ShortName(name), tail) == v && n + v.used <= |s| && s[n + v.used..] == rest
    ensures var r := ScanAttrs(s);
            var more := ScanAttrs(rest);
            r.attrs == [Attribute(ShortName(name), v.text)] + more.attrs && r.selfClose == more.selfClose
  {
    hide ReadRest, NameLen, ShortName;
  }

  lemma NameCut(name: string, tail: string, k: nat)
    requires name != "" && k <= |tail|
    ensures var s := name + tail;
            s[0] == name[0] && s[..|name|] == name && s[|name|..] == tail && s[|name| + k..] == tail[k..]
  {}

  lemma NoAngle(c: char)
    requires IsNameChar(c)
    ensures c != '>'
  {}

  /** An attribute without a value has its own name for one. */
  lemma BareAttribute(name: string, a: string, rest: string)
    requires name != "" && (forall i :: 0 <= i < |name| ==> IsNameChar(name[i])) && AllSpace(a)
    requires rest != "" && !IsSpace(rest[0]) && rest[0] != '=' && (a == "" ==> !IsNameChar(rest[0]))
    ensures var r := ScanAttrs(name + (a + rest));
            var more := ScanAttrs(rest);
            r.attrs == [Attribute(ShortName(name), ShortName(name))] + more.attrs && r.selfClose == more.selfClose
  {
    hide NameLen, SpaceLen, ScanAttrs, ShortName;
    var tail := a + rest;
    assert tail[|a|] == rest[0] && tail[|a|..] == rest;
    assert a != "" ==> tail[0] == a[0] && !IsNameChar(a[0]);
    NameStops(name, tail);
    SpaceStops(a, rest);
    NameTaken(name, tail, Value(ShortName(name), |a|), rest);
  }

  // ---- Start tags ----------------------------------------------------------------------------------------

  /** An element that has no end tag stands by itself; any other is open until its end, up
      to 63 of them. */
  lemma StartTagMeans(name: string, rest: string, stack: Stack)
    requires 0 < |name| <= NAME_MAX && forall i :: 0 <= i < |name| ==> IsNameChar(name[i])
    ensures var s := "<" + (name + (">" + rest));
            ParseFrom(s, stack) ==
            if LowerAll(name) in ["br", "img", "input", "meta"] || |stack| >= 64
            then ParseFrom(rest, AddKids(stack, [Elem(name, [], [])])) else ParseFrom(rest, stack + [Open(name, [], [])])
  {
    hide ParseFrom, ParseStep, AddKids, LowerAll;
    var s := "<" + (name + (">" + rest));
    StartStepIs(name, rest, stack);
    assert s[|name| + 2..] == rest;
    Resume(s, |name| + 2, rest, stack, ParseStep(s, stack).stack);
  }

  lemma StartStepIs(name: string, rest: string, stack: Stack)
    requires 0 < |name| <= NAME_MAX && forall i :: 0 <= i < |name| ==> IsNameChar(name[i])
    ensures var s := "<" + (name + (">" + rest));
            ParseStep(s, stack) == Step(|name| + 2, if IsVoidTag(name) || |stack| >= STACK_MAX
                                                    then AddKids(stack, [Elem(name, [], [])]) else stack + [Open(name, [], [])])
  {
    hide ParseStep, NameLen, ScanAttrs, AddKids, IsVoidTag;
    var tail := ">" + rest;
    var s := "<" + (name + tail);
    assert s[1..] == name + tail && s[1..1 + |name|] == name && s[1 + |name|..] == tail;
    StartsTag(name, tail, stack);
    NameStops(name, tail);
    ScanEnd(tail);
  }

  lemma ScanEnd(tail: string)
    requires tail != "" && tail[0] == '>'
    ensures ScanAttrs(tail) == Scan([], false, 1)
  {}
}
