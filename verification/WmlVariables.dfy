/** Variable references as section 10.3.1 of WML 1.1 defines them, apart from the
    code, and when put_str of src/wap_gateway/wbxml.c reads them the same way. */
module WmlVariables {
  import opened Ascii
  import opened Options
  import opened WmlString

  // ---- The grammar ----------------------------------------------------------------------

  predicate IsVarName(n: string) {
    n != "" && IsNameStart(n[0]) && forall i :: 0 <= i < |n| ==> IsNameRest(n[i])
  }

  /** escape, noesc and unesc, or their first letters, in either case. */
  function ConvNamed(t: string): Option<Conv> {
    if LowerAll(t) in {"e", "escape"} then Some(Escape)
    else if LowerAll(t) in {"u", "unesc"} then Some(Unescape)
    else if LowerAll(t) in {"n", "noesc"} then Some(NoEscape)
    else None
  }

  /** "$" and the longest name there. */
  predicate IsShort(s: string, p: nat, r: Reference) {
    && r.Ref? && r.start == p + 1 && r.start < r.end <= |s| && r.after == r.end && r.conv == NoEscape
    && IsVarName(s[r.start..r.end]) && (r.end < |s| ==> !IsNameRest(s[r.end]))
  }

  /** "$(", a name, perhaps ":" and a conversion, and ")". */
  predicate IsLong(s: string, p: nat, r: Reference) {
    && r.Ref? && r.start == p + 2 && r.start < r.end < r.after <= |s| && s[p + 1] == '('
    && IsVarName(s[r.start..r.end]) && s[r.after - 1] == ')'
    && (if s[r.end] == ':' then r.end + 1 < r.after && ConvNamed(s[r.end + 1..r.after - 1]) == Some(r.conv)
        else r.after == r.end + 1 && r.conv == NoEscape)
  }

  /** A variable reference starts at the "$" s[p]. */
  predicate IsReference(s: string, p: nat, r: Reference) {
    p < |s| && s[p] == '$' && (IsShort(s, p, r) || IsLong(s, p, r))
  }

  lemma ConvIsLetters(t: string)
    requires ConvNamed(t).Some?
    ensures ')' !in t
  {
    var l := LowerAll(t);
    forall i | 0 <= i < |t| ensures t[i] != ')' { assert l[i] == Lower(t[i]) && l[i] != ')'; }
  }

  /** A name ends where its letters do. */
  lemma NameEndIs(s: string, start: nat, end: nat)
    requires start < end <= |s| && IsVarName(s[start..end]) && (end < |s| ==> !IsNameRest(s[end]))
    ensures NameEnd(s, start) == end && IsNameStart(s[start])
  {
    assert s[start] == s[start..end][0];
    NameRun(s, start, end, start);
  }

  lemma {:induction false} NameRun(s: string, start: nat, end: nat, i: nat)
    requires start <= i <= end <= |s| && start < end && IsVarName(s[start..end]) && (end < |s| ==> !IsNameRest(s[end]))
    ensures NameEnd(s, i) == end
    decreases end - i
  {
    if i < end {
      assert s[i] == s[start..end][i - start];
      NameRun(s, start, end, i + 1);
    }
  }

  lemma {:induction false} NameEndName(s: string, i: nat)
    requires i <= |s|
    ensures var e := NameEnd(s, i);
            && (e < |s| ==> !IsNameRest(s[e]))
            && forall k :: i <= k < e ==> IsNameRest(s[k])
    decreases |s| - i
  {
    if i < |s| && IsNameRest(s[i]) { NameEndName(s, i + 1); }
  }

  /** The text of the conversion in a long reference to the name s[start..end). */
  function ConvText(s: string, end: nat): string
    requires end < |s|
  {
    var close := Find(s, end, ')');
    if end < close then s[end + 1..close] else ""
  }

  /** Every reference of the grammar is read as one, up to its conversion. */
  lemma ReferenceIsRead(s: string, p: nat, r: Reference)
    requires IsReference(s, p, r)
    ensures var c := ReadRef(s, p);
            && c.Ref? && c.start == r.start && c.end == r.end && c.after == r.after
            && (if At(s, p + 1) == '(' && At(s, r.end) == ':'
                then c.conv == ConvOf(ConvText(s, r.end)) && ConvNamed(ConvText(s, r.end)) == Some(r.conv)
                else c.conv == r.conv)
  {
    hide NameEnd, ConvNamed, ConvOf, Find, IsVarName;
    if IsShort(s, p, r) {
      NameEndIs(s, r.start, r.end);
    } else {
      NameEndIs(s, r.start, r.end);
      var close := r.after - 1;
      if s[r.end] == ':' {
        var t := s[r.end + 1..close];
        ConvIsLetters(t);
        forall i | r.end <= i < close ensures s[i] != ')' { if i > r.end { assert s[i] == t[i - r.end - 1]; } }
        FindFromIs(s, r.end, ')', close);
      } else {
        FindFromIs(s, r.end, ')', close);
      }
    }
  }

  lemma FindFromIs(s: string, from: nat, c: char, at: nat)
    requires from <= at < |s| && s[at] == c && forall i :: from <= i < at ==> s[i] != c
    ensures Find(s, from, c) == at
  {
    hide Find;
    var r := Find(s, from, c);
  }

  lemma ReferenceUnique(s: string, p: nat, a: Reference, b: Reference)
    requires IsReference(s, p, a) && IsReference(s, p, b)
    ensures a == b
  {
    hide ReadRef, ConvNamed, ConvOf, ConvText, IsVarName;
    ReferenceIsRead(s, p, a);
    ReferenceIsRead(s, p, b);
  }

  // ---- What a string means --------------------------------------------------------------------

  /** The reference at s[p], if the grammar has one there. */
  ghost function TheReference(s: string, p: nat): (r: Reference)
    ensures r.Ref? ==> IsReference(s, p, r) && p < r.start < r.end <= r.after <= |s|
    ensures r.NoRef? ==> forall x :: !IsReference(s, p, x)
  {
    if exists x :: IsReference(s, p, x) then var x :| IsReference(s, p, x); x else NoRef
  }

  /** What the browser shows for s[p..]: "$$" is "$", a reference its variable's
      value, anything else itself. */
  ghost function Meant(s: string, p: nat, env: (Conv, string) -> string): string
    requires p <= |s|
    decreases |s| - p
  {
    if p == |s| then ""
    else if s[p] != '$' then [s[p]] + Meant(s, p + 1, env)
    else if At(s, p + 1) == '$' then "$" + Meant(s, p + 2, env)
    else
      match TheReference(s, p)
      case NoRef => "$" + Meant(s, p + 1, env)
      case Ref(conv, start, end, after) => env(conv, s[start..end]) + Meant(s, after, env)
  }

  // ---- Where the code agrees --------------------------------------------------------------------

  /** A conversion the code reads rightly: escape and unesc in lower case only,
      noesc in any. */
  predicate ConvKnown(t: string) { t in {"e", "escape", "u", "unesc"} || LowerAll(t) in {"n", "noesc"} }

  /** What looks like a reference with a conversion at s[p] has a known one. */
  predicate KnownAt(s: string, p: nat)
    requires p < |s| && s[p] == '$'
  {
    var r := ReadRef(s, p);
    r.Ref? && At(s, p + 1) == '(' && At(s, r.end) == ':' ==> ConvKnown(ConvText(s, r.end))
  }

  lemma LowerSpelled()
    ensures LowerAll("e") == "e" && LowerAll("escape") == "escape" && LowerAll("u") == "u" && LowerAll("unesc") == "unesc"
  {}

  lemma ConvKnownExactly(t: string)
    ensures ConvKnown(t) <==> ConvNamed(t) == Some(ConvOf(t))
  {
    hide LowerAll;
    LowerSpelled();
  }

  lemma NameThere(s: string, start: nat, end: nat)
    requires start < end <= |s| && IsNameStart(s[start]) && forall k :: start <= k < end ==> IsNameRest(s[k])
    ensures IsVarName(s[start..end])
  {}

  /** What the code reads is a reference of the grammar when its conversion is one. */
  lemma ReadIsReference(s: string, p: nat, conv: Conv)
    requires p < |s| && s[p] == '$' && ReadRef(s, p).Ref?
    requires var c := ReadRef(s, p);
             if At(s, p + 1) == '(' && At(s, c.end) == ':' then ConvNamed(ConvText(s, c.end)) == Some(conv) else conv == c.conv
    ensures IsReference(s, p, ReadRef(s, p).(conv := conv))
  {
    hide NameEnd, ConvNamed, ConvOf, Find, IsVarName, IsShort, IsLong;
    var c := ReadRef(s, p);
    NameEndName(s, c.start);
    NameThere(s, c.start, c.end);
    if At(s, p + 1) == '(' { LongRead(s, p, conv); } else { ShortRead(s, p); }
  }

  lemma ShortRead(s: string, p: nat)
    requires p < |s| && s[p] == '$' && ReadRef(s, p).Ref? && At(s, p + 1) != '('
    requires var c := ReadRef(s, p); IsVarName(s[c.start..c.end]) && (c.end < |s| ==> !IsNameRest(s[c.end]))
    ensures IsShort(s, p, ReadRef(s, p))
  {
    hide NameEnd, IsVarName, Find;
  }

  lemma LongRead(s: string, p: nat, conv: Conv)
    requires p < |s| && s[p] == '$' && ReadRef(s, p).Ref? && At(s, p + 1) == '('
    requires var c := ReadRef(s, p); IsVarName(s[c.start..c.end])
    requires var c := ReadRef(s, p);
             if At(s, c.end) == ':' then ConvNamed(ConvText(s, c.end)) == Some(conv) else conv == c.conv
    ensures IsLong(s, p, ReadRef(s, p).(conv := conv))
  {
    hide NameEnd, IsVarName, Find, ConvNamed, ConvOf;
  }

  /** The code and the grammar agree at s[p] exactly when a conversion there is known. */
  lemma AgreeExactly(s: string, p: nat)
    requires p < |s| && s[p] == '$'
    ensures ReadRef(s, p) == TheReference(s, p) <==> KnownAt(s, p)
  {
    hide ReadRef, IsReference, ConvNamed, ConvOf, ConvKnown, ConvText;
    var c, g := ReadRef(s, p), TheReference(s, p);
    if g.Ref? {
      ReferenceIsRead(s, p, g);
      if At(s, p + 1) == '(' && At(s, c.end) == ':' { ConvKnownExactly(ConvText(s, c.end)); }
    } else if c.Ref? {
      if At(s, p + 1) == '(' && At(s, c.end) == ':' {
        var t := ConvText(s, c.end);
        ConvKnownExactly(t);
        if ConvNamed(t).Some? { ReadIsReference(s, p, ConvNamed(t).value); }
      } else {
        ReadIsReference(s, p, c.conv);
      }
    }
  }

  /** Every conversion met by the left-to-right reading from p on is known. */
  predicate AllKnown(s: string, p: nat)
    requires p <= |s|
    decreases |s| - p
  {
    if p == |s| then true
    else if s[p] != '$' then AllKnown(s, p + 1)
    else if At(s, p + 1) == '$' then AllKnown(s, p + 2)
    else
      KnownAt(s, p) &&
      match ReadRef(s, p)
      case NoRef => AllKnown(s, p + 1)
      case Ref(_, _, _, after) => AllKnown(s, after)
  }

  lemma {:induction false} KnownAgrees(s: string, p: nat, env: (Conv, string) -> string)
    requires p <= |s| && AllKnown(s, p)
    ensures Substitute(s, p, env) == Meant(s, p, env)
    decreases |s| - p
  {
    hide ReadRef, TheReference, KnownAt;
    if p < |s| {
      if s[p] != '$' {
        KnownAgrees(s, p + 1, env);
      } else if At(s, p + 1) == '$' {
        KnownAgrees(s, p + 2, env);
      } else {
        AgreeExactly(s, p);
        match ReadRef(s, p)
        case NoRef => KnownAgrees(s, p + 1, env);
        case Ref(_, _, _, after) => KnownAgrees(s, after, env);
      }
    }
  }

  // ---- Where it does not, some values show it ---------------------------------------------------

  /** Converted variables show one character, the others none. */
  function Telling(conv: Conv, name: string): string { if conv == NoEscape then "" else "x" }

  /** A reference inside the conversion text of another ends no later than that. */
  lemma InnerEnds(s: string, p: nat, q: nat)
    requires p < q < |s| && s[p] == '$' && s[q] == '$' && ReadRef(s, p).Ref? && q < ReadRef(s, p).after
    requires At(s, p + 1) == '('
    ensures s[ReadRef(s, p).after - 1] == ')'
    ensures TheReference(s, q).Ref? ==> TheReference(s, q).after <= ReadRef(s, p).after
    ensures At(s, q + 1) == '$' ==> q + 2 <= ReadRef(s, p).after
  {
    hide NameEnd, ConvOf, ConvNamed;
    var close := ReadRef(s, p).after - 1;
    assert s[close] == ')';
    var g := TheReference(s, q);
    if g.Ref? {
      if IsShort(s, q, g) {
        var n := s[g.start..g.end];
        assert forall i :: g.start <= i < g.end ==> s[i] == n[i - g.start];
      } else {
        ReferenceIsRead(s, q, g);
        LongCloses(s, q, close);
      }
    }
  }

  lemma LongCloses(s: string, q: nat, close: nat)
    requires q < close < |s| && s[q] == '$' && s[close] == ')' && At(s, q + 1) == '(' && ReadRef(s, q).Ref?
    ensures ReadRef(s, q).after <= close + 1
  {
    hide NameEnd, ConvOf;
    var r := ReadRef(s, q);
    NameEndName(s, r.start);
    assert !IsNameRest(')');
  }

  /** What is read next adds to what is shown. */
  lemma MeantShorter(s: string, q: nat, env: (Conv, string) -> string)
    requires q < |s|
    ensures var shown := |Meant(s, q, env)|;
            if s[q] != '$' then shown >= |Meant(s, q + 1, env)|
            else if At(s, q + 1) == '$' then shown >= |Meant(s, q + 2, env)|
            else match TheReference(s, q)
              case NoRef => shown >= |Meant(s, q + 1, env)|
              case Ref(_, _, _, after) => shown >= |Meant(s, after, env)|
  {
    hide TheReference;
  }

  /** Reading on inside the conversion text shows at least as much as skipping it. */
  lemma {:induction false} InsideShowsMore(s: string, p: nat, q: nat)
    requires p < q <= |s| && s[p] == '$' && At(s, p + 1) == '(' && ReadRef(s, p).Ref? && q <= ReadRef(s, p).after
    ensures |Meant(s, q, Telling)| >= |Meant(s, ReadRef(s, p).after, Telling)|
    decreases |s| - q
  {
    hide ReadRef, TheReference, Telling, Meant;
    var after := ReadRef(s, p).after;
    if q < after {
      MeantShorter(s, q, Telling);
      if s[q] != '$' {
        InsideShowsMore(s, p, q + 1);
      } else {
        InnerEnds(s, p, q);
        if At(s, q + 1) == '$' {
          InsideShowsMore(s, p, q + 2);
        } else {
          match TheReference(s, q)
          case NoRef => InsideShowsMore(s, p, q + 1);
          case Ref(_, _, _, end) => InsideShowsMore(s, p, end);
        }
      }
    }
  }

  /** With those values the grammar's reading shows at least as much, and more
      where a conversion is not known. */
  lemma {:induction false} GrammarShowsMore(s: string, p: nat)
    requires p <= |s|
    ensures |Meant(s, p, Telling)| >= |Substitute(s, p, Telling)|
    ensures !AllKnown(s, p) ==> |Meant(s, p, Telling)| > |Substitute(s, p, Telling)|
    decreases |s| - p
  {
    hide ReadRef, TheReference, KnownAt, Telling;
    if p < |s| {
      if s[p] != '$' {
        GrammarShowsMore(s, p + 1);
      } else if At(s, p + 1) == '$' {
        GrammarShowsMore(s, p + 2);
      } else {
        AgreeExactly(s, p);
        match ReadRef(s, p)
        case NoRef =>
          assert KnownAt(s, p) by { NoneIsKnown(s, p); }
          GrammarShowsMore(s, p + 1);
        case Ref(conv, start, end, after) =>
          GrammarShowsMore(s, after);
          if !KnownAt(s, p) { UnknownShowsMore(s, p); }
      }
    }
  }

  lemma NoneIsKnown(s: string, p: nat)
    requires p < |s| && s[p] == '$' && ReadRef(s, p).NoRef?
    ensures KnownAt(s, p)
  {}

  lemma UnknownShowsMore(s: string, p: nat)
    requires p < |s| && s[p] == '$' && At(s, p + 1) != '$' && !KnownAt(s, p)
    ensures ReadRef(s, p).Ref? && Telling(ReadRef(s, p).conv, s[ReadRef(s, p).start..ReadRef(s, p).end]) == ""
    ensures |Meant(s, p, Telling)| > |Meant(s, ReadRef(s, p).after, Telling)|
  {
    hide ReadRef, TheReference, ConvText, ConvNamed, ConvOf, ConvKnown;
    var c, g := ReadRef(s, p), TheReference(s, p);
    UnknownIsPlain(s, p);
    AgreeExactly(s, p);
    if g.Ref? {
      ReferenceIsRead(s, p, g);
    } else {
      InsideShowsMore(s, p, p + 1);
    }
  }

  /** A conversion that is not known is taken for none. */
  lemma UnknownIsPlain(s: string, p: nat)
    requires p < |s| && s[p] == '$' && !KnownAt(s, p)
    ensures ReadRef(s, p).Ref? && At(s, p + 1) == '(' && At(s, ReadRef(s, p).end) == ':' && ReadRef(s, p).conv == NoEscape
  {
    hide NameEnd, Find, ConvNamed;
  }

  /** Variable strings keep the meaning WML gives them, in every environment,
      exactly when every conversion in them is one the code knows. */
  lemma VariablesMean(s: string)
    requires NulFree(s)
    ensures DecodeString(Encode(s)).1 == ""
    ensures (forall env :: Render(DecodeString(Encode(s)).0, env) == Meant(s, 0, env)) <==> AllKnown(s, 0)
  {
    hide Encode, DecodeString, Meant, Substitute, AllKnown, Render;
    VariablesKeepMeaning(s, Telling);
    if AllKnown(s, 0) {
      forall env ensures Render(DecodeString(Encode(s)).0, env) == Meant(s, 0, env) {
        VariablesKeepMeaning(s, env);
        KnownAgrees(s, 0, env);
      }
    } else {
      GrammarShowsMore(s, 0);
    }
  }

  // ---- Two such strings ----------------------------------------------------------------------------

  lemma NotKnown(t: string)
    requires t == "E" || t == "zzz"
    ensures !ConvKnown(t)
  {
    assert LowerAll(t)[0] == Lower(t[0]);
  }

  /** Some environment shows something else than the grammar says. */
  ghost predicate Misread(s: string) { exists env :: Render(DecodeString(Encode(s)).0, env) != Meant(s, 0, env) }

  /** A conversion in capitals is read as none, and an unknown one too. */
  lemma ConvExamples()
    ensures Misread("$(x:E)") && Misread("$(x:zzz)")
  {
    hide AllKnown, Misread;
    OneMisread("E");
    OneMisread("zzz");
    assert "$(x:" + "E" + ")" == "$(x:E)" && "$(x:" + "zzz" + ")" == "$(x:zzz)";
  }

  lemma OneMisread(t: string)
    requires t == "E" || t == "zzz"
    ensures Misread("$(x:" + t + ")")
  {
    hide AllKnown, Encode, DecodeString, Meant, Render;
    OneUnknown(t);
    VariablesMean("$(x:" + t + ")");
  }

  lemma OneUnknown(t: string)
    requires t == "E" || t == "zzz"
    ensures !AllKnown("$(x:" + t + ")", 0)
  {
    hide ConvKnown, ConvOf;
    var s := "$(x:" + t + ")";
    NotKnown(t);
    assert s[0] == '$' && s[1] == '(' && s[2] == 'x' && s[3] == ':' && s[|s| - 1] == ')';
    assert forall i :: 3 < i < |s| - 1 ==> s[i] == t[i - 4];
    assert s[2..3] == "x" && IsVarName("x");
    NameEndIs(s, 2, 3);
    FindFromIs(s, 3, ')', |s| - 1);
    assert ConvText(s, 3) == t;
  }
}
