/** WML strings with variable references, and their WBXML encoding
    (put_literal and put_str of src/wap_gateway/wbxml.c). */
module WmlString {
  import opened Ascii

  const STR_I: char := '\U{03}'
  const EXT_I_0: char := '\U{40}'
  const EXT_I_1: char := '\U{41}'
  const EXT_I_2: char := '\U{42}'

  // ---- The growable byte buffer ----------------------------------------------

  class Buf {
    var d: string

    constructor ()
      ensures d == ""
    {
      d := "";
    }

    method Put(s: string)
      modifies this
      ensures d == old(d) + s
    {
      d := d + s;
    }
  }

  // ---- What a WML string means -------------------------------------------------

  datatype Conv = Escape | Unescape | NoEscape

  /** One unit of a WML string: a character to show, or a variable to substitute. */
  datatype Atom = Lit(c: char) | Var(conv: Conv, name: string)

  /** A variable reference found at a '$': the name is s[start..end), the
      reference ends just before `after`. */
  datatype Reference = NoRef | Ref(conv: Conv, start: nat, end: nat, after: nat)

  predicate IsNameStart(c: char) { IsAlpha(c) || c == '_' }

  predicate IsNameRest(c: char) { IsAlnum(c) || c == '_' }

  function NameEnd(s: string, i: nat): (r: nat)
    requires i <= |s|
    ensures i <= r <= |s|
    ensures i < |s| && IsNameRest(s[i]) ==> i < r
    decreases |s| - i
  {
    if i < |s| && IsNameRest(s[i]) then NameEnd(s, i + 1) else i
  }

  function ConvOf(conv: string): Conv {
    if conv == "e" || conv == "escape" then Escape
    else if conv == "u" || conv == "unesc" then Unescape
    else NoEscape
  }

  /** The reference "$(name" opens, its name being s[start..end): it needs a ')',
      at once or after a conversion. */
  function CloseRef(s: string, start: nat, end: nat): (r: Reference)
    requires start < end <= |s|
    ensures r.Ref? ==> r.start == start && r.end == end && end <= r.after <= |s|
  {
    var close := Find(s, end, ')');
    if close == |s| then NoRef
    else if s[end] == ':' then Ref(ConvOf(s[end + 1..close]), start, end, close + 1)
    else if end != close then NoRef
    else Ref(NoEscape, start, end, close + 1)
  }

  /** The reference whose '$' is s[p], if there is one. */
  function ReadRef(s: string, p: nat): (r: Reference)
    requires p < |s| && s[p] == '$'
    ensures r.Ref? ==> p < r.start < r.end <= r.after <= |s|
  {
    var paren := At(s, p + 1) == '(';
    var start := if paren then p + 2 else p + 1;
    if !IsNameStart(At(s, start)) then NoRef
    else
      var end := NameEnd(s, start);
      if paren then CloseRef(s, start, end) else Ref(NoEscape, start, end, end)
  }

  /** The left-to-right reading of s[p..]: "$$" is one '$', a reference is a
      variable, anything else (a lone '$' too) stands for itself. */
  function AtomsFrom(s: string, p: nat): seq<Atom>
    requires p <= |s|
    decreases |s| - p
  {
    if p == |s| then []
    else if s[p] != '$' then [Lit(s[p])] + AtomsFrom(s, p + 1)
    else if At(s, p + 1) == '$' then [Lit('$')] + AtomsFrom(s, p + 2)
    else
      match ReadRef(s, p)
      case NoRef => [Lit('$')] + AtomsFrom(s, p + 1)
      case Ref(conv, start, end, after) => [Var(conv, s[start..end])] + AtomsFrom(s, after)
  }

  function Atoms(s: string): seq<Atom> { AtomsFrom(s, 0) }

  function Lits(s: string): (r: seq<Atom>)
    ensures |r| == |s|
    ensures forall i :: 0 <= i < |s| ==> r[i] == Lit(s[i])
  {
    seq(|s|, i requires 0 <= i < |s| => Lit(s[i]))
  }

  /** What the browser shows for a string once its variables have values. */
  function Render(atoms: seq<Atom>, env: (Conv, string) -> string): string {
    if atoms == [] then ""
    else (match atoms[0] case Lit(c) => [c] case Var(conv, name) => env(conv, name))
         + Render(atoms[1..], env)
  }

  /** Direct left-to-right substitution in the source text, with no token in between. */
  function Substitute(s: string, p: nat, env: (Conv, string) -> string): string
    requires p <= |s|
    decreases |s| - p
  {
    if p == |s| then ""
    else if s[p] != '$' then [s[p]] + Substitute(s, p + 1, env)
    else if At(s, p + 1) == '$' then "$" + Substitute(s, p + 2, env)
    else
      match ReadRef(s, p)
      case NoRef => "$" + Substitute(s, p + 1, env)
      case Ref(conv, start, end, after) => env(conv, s[start..end]) + Substitute(s, after, env)
  }

  // ---- The encoder ---------------------------------------------------------------

  function Literal(s: string): string {
    if s == "" then "" else [STR_I] + s + [NUL]
  }

  function ExtToken(conv: Conv): char {
    match conv case Escape => EXT_I_0 case Unescape => EXT_I_1 case NoEscape => EXT_I_2
  }

  function Variable(conv: Conv, name: string): string { [ExtToken(conv)] + name + [NUL] }

  /** What put_str still appends when its scan is at `p` and the literal run
      not yet written began at `run`. */
  function EncodeFrom(s: string, run: nat, p: nat): string
    requires run <= p <= |s|
    decreases |s| - p
  {
    if p == |s| then Literal(s[run..])
    else if s[p] != '$' then EncodeFrom(s, run, p + 1)
    else if At(s, p + 1) == '$' then Literal(s[run..p + 1]) + EncodeFrom(s, p + 2, p + 2)
    else
      match ReadRef(s, p)
      case NoRef => EncodeFrom(s, run, p + 1)
      case Ref(conv, start, end, after) =>
        Literal(s[run..p]) + (Variable(conv, s[start..end]) + EncodeFrom(s, after, after))
  }

  function Encode(s: string): string {
    if s == "" then [STR_I, NUL] else EncodeFrom(s, 0, 0)
  }

  method PutLiteral(b: Buf, s: string)
    modifies b
    ensures b.d == old(b.d) + Literal(s)
  {
    if |s| == 0 { return; }
    b.Put([STR_I]);
    b.Put(s);
    b.Put([NUL]);
  }

  lemma NameEndNext(s: string, i: nat)
    requires i <= |s|
    ensures NameEnd(s, i) == if i < |s| && IsNameRest(s[i]) then NameEnd(s, i + 1) else i
  {}

  /** The part of put_str's loop body that decides whether s[p] opens a reference. */
  method ScanRef(s: string, p: nat) returns (r: Reference)
    requires p < |s| && s[p] == '$'
    ensures r == ReadRef(s, p)
  {
    hide NameEnd, Find, ConvOf;
    var name := p + 1;
    var paren := At(s, name) == '(';
    if paren { name := name + 1; }
    if !IsNameStart(At(s, name)) { return NoRef; }
    var end := name;
    while end < |s| && IsNameRest(s[end])
      invariant name <= end <= |s|
      invariant NameEnd(s, name) == NameEnd(s, end)
    {
      NameEndNext(s, end);
      end := end + 1;
    }
    NameEndNext(s, end);
    var conv, after := NoEscape, end;
    if paren {
      var close := Find(s, end, ')');
      if close == |s| { return NoRef; }
      if s[end] == ':' {
        conv := ConvOf(s[end + 1..close]);
      } else if end != close {
        return NoRef;
      }
      after := close + 1;
    }
    return Ref(conv, name, end, after);
  }

  lemma AppendTwo(b: string, done: string, x: string, y: string, tail: string)
    ensures (b + done) + x + y == b + (done + x + y)
    ensures done + (x + (y + tail)) == (done + x + y) + tail
  {}

  lemma EncodeIs(s: string)
    ensures Encode(s) == if s == "" then [STR_I, NUL] else EncodeFrom(s, 0, 0)
  {
    hide EncodeFrom;
  }

  lemma EncodeEnd(s: string, run: nat)
    requires run <= |s|
    ensures EncodeFrom(s, run, |s|) == Literal(s[run..])
  {
    hide Literal;
  }

  /** What one turn of the loop leaves to be written. */
  lemma EncodeNext(s: string, run: nat, p: nat)
    requires run <= p < |s|
    ensures EncodeFrom(s, run, p) ==
            if s[p] != '$' then EncodeFrom(s, run, p + 1)
            else if At(s, p + 1) == '$' then Literal(s[run..p + 1]) + EncodeFrom(s, p + 2, p + 2)
            else match ReadRef(s, p)
              case NoRef => EncodeFrom(s, run, p + 1)
              case Ref(conv, start, end, after) =>
                Literal(s[run..p]) + (Variable(conv, s[start..end]) + EncodeFrom(s, after, after))
  {
    hide Literal, Variable, ReadRef;
  }

  method PutStr(b: Buf, s: string)
    modifies b
    ensures b.d == old(b.d) + Encode(s)
  {
    hide EncodeFrom, Literal, Variable, ReadRef;
    var run: nat, p: nat := 0, 0;
    ghost var done := "";
    EncodeIs(s);
    while p < |s|
      invariant run <= p <= |s|
      invariant b.d == old(b.d) + done
      invariant done + EncodeFrom(s, run, p) == EncodeFrom(s, 0, 0)
      decreases |s| - p
    {
      EncodeNext(s, run, p);
      if s[p] != '$' { p := p + 1; continue; }
      if At(s, p + 1) == '$' {
        PutLiteral(b, s[run..p + 1]);
        Assoc(old(b.d), done, Literal(s[run..p + 1]));
        Assoc(done, Literal(s[run..p + 1]), EncodeFrom(s, p + 2, p + 2));
        done := done + Literal(s[run..p + 1]);
        p := p + 2;
        run := p;
        continue;
      }
      var r := ScanRef(s, p);
      if r.NoRef? { p := p + 1; continue; }
      ghost var lit, v := Literal(s[run..p]), Variable(r.conv, s[r.start..r.end]);
      PutLiteral(b, s[run..p]);
      b.Put(Variable(r.conv, s[r.start..r.end]));
      AppendTwo(old(b.d), done, lit, v, EncodeFrom(s, r.after, r.after));
      done := done + lit + v;
      p := r.after;
      run := p;
    }
    if |s| != 0 {
      EncodeEnd(s, run);
      Assoc(old(b.d), done, Literal(s[run..]));
      PutLiteral(b, s[run..]);
    } else {
      b.Put([STR_I, NUL]);
    }
  }

  // ---- The decoder: WBXML 1.1, section 5.8.4 (inline strings and extensions) -------

  // Its tokens are those of the format, 03 and 40 to 42, whatever the encoder writes.

  function ConvOfToken(t: char): Conv {
    if t == '\U{40}' then Escape else if t == '\U{41}' then Unescape else NoEscape
  }

  predicate StartsPiece(b: string) { b != "" && b[0] in ['\U{03}', '\U{40}', '\U{41}', '\U{42}'] }

  /** Reads inline strings and variable references for as long as there are
      any: their atoms, and the bytes left. An unterminated piece is left unread. */
  function DecodeString(b: string): (r: (seq<Atom>, string))
    ensures |r.1| <= |b|
    ensures StartsPiece(b) && Find(b, 1, NUL) < |b| ==> |r.1| < |b|
  {
    if !StartsPiece(b) || Find(b, 1, NUL) == |b| then ([], b)
    else
      var end := Find(b, 1, NUL);
      var (more, rest) := DecodeString(b[end + 1..]);
      if b[0] == '\U{03}' then (Lits(b[1..end]) + more, rest)
      else ([Var(ConvOfToken(b[0]), b[1..end])] + more, rest)
  }

  // ---- Properties -------------------------------------------------------------------

  /** The code's reading of a string is direct substitution, for every environment. */
  lemma {:induction false} AtomsSubstitute(s: string, p: nat, env: (Conv, string) -> string)
    requires p <= |s|
    ensures Render(AtomsFrom(s, p), env) == Substitute(s, p, env)
    decreases |s| - p
  {
    if p < |s| {
      var next :=
        if s[p] != '$' then p + 1
        else if At(s, p + 1) == '$' then p + 2
        else match ReadRef(s, p)
          case NoRef => p + 1
          case Ref(conv, start, end, after) => after;
      assert AtomsFrom(s, p)[1..] == AtomsFrom(s, next);
      AtomsSubstitute(s, next, env);
    }
  }

  lemma FirstNul(t: string, tail: string, first: char)
    requires NulFree(t)
    ensures Find([first] + t + [NUL] + tail, 1, NUL) == |t| + 1
  {
    var b := [first] + t + [NUL] + tail;
    assert b[|t| + 1] == NUL;
    assert forall i :: 1 <= i < |t| + 1 ==> b[i] == t[i - 1];
  }

  /** One piece in front: its atoms come first, the rest is read as before. */
  lemma PieceDecodes(first: char, t: string, rest: string)
    requires NulFree(t) && first in [STR_I, EXT_I_0, EXT_I_1, EXT_I_2]
    ensures var (more, left) := DecodeString(rest);
            DecodeString([first] + t + [NUL] + rest)
            == ((if first == STR_I then Lits(t) else [Var(ConvOfToken(first), t)]) + more, left)
  {
    var b := [first] + t + [NUL] + rest;
    FirstNul(t, rest, first);
    assert b[|t| + 2..] == rest;
    assert b[1..|t| + 1] == t;
  }

  lemma LiteralDecodes(t: string, rest: string)
    requires NulFree(t)
    ensures var (more, left) := DecodeString(rest);
            DecodeString(Literal(t) + rest) == (Lits(t) + more, left)
  {
    if t == "" {
      assert Literal(t) + rest == rest;
      assert Lits(t) + DecodeString(rest).0 == DecodeString(rest).0;
    } else {
      PieceDecodes(STR_I, t, rest);
    }
  }

  lemma LitsSplit(s: string, run: nat, p: nat, more: seq<Atom>)
    requires run <= p < |s|
    ensures Lits(s[run..p + 1]) + more == Lits(s[run..p]) + ([Lit(s[p])] + more)
  {}

  lemma {:induction false} EncodeFromDecodes(s: string, run: nat, p: nat, rest: string)
    requires run <= p <= |s| && NulFree(s)
    ensures var (more, left) := DecodeString(rest);
            DecodeString(EncodeFrom(s, run, p) + rest)
            == (Lits(s[run..p]) + (AtomsFrom(s, p) + more), left)
    decreases |s| - p
  {
    var more := DecodeString(rest).0;
    if p == |s| {
      LiteralDecodes(s[run..], rest);
      assert s[run..p] == s[run..];
      assert AtomsFrom(s, p) + more == more;
    } else if s[p] != '$' || (At(s, p + 1) != '$' && ReadRef(s, p).NoRef?) {
      EncodeFromDecodes(s, run, p + 1, rest);
      LitsSplit(s, run, p, AtomsFrom(s, p + 1) + more);
      Assoc([Lit(s[p])], AtomsFrom(s, p + 1), more);
    } else if At(s, p + 1) == '$' {
      EncodeDollar(s, run, p, rest);
    } else {
      EncodeReference(s, run, p, rest);
    }
  }

  lemma {:induction false} EncodeDollar(s: string, run: nat, p: nat, rest: string)
    requires run <= p < |s| && NulFree(s) && s[p] == '$' && At(s, p + 1) == '$'
    ensures var (more, left) := DecodeString(rest);
            DecodeString(EncodeFrom(s, run, p) + rest)
            == (Lits(s[run..p]) + (AtomsFrom(s, p) + more), left)
    decreases |s| - p, 0
  {
    hide DecodeString, Literal, ReadRef, Lits, StartsPiece;
    var more := DecodeString(rest).0;
    var tail := EncodeFrom(s, p + 2, p + 2);
    EncodeFromDecodes(s, p + 2, p + 2, rest);
    LiteralBefore(s[run..p + 1], tail, rest);
    LitsSplit(s, run, p, AtomsFrom(s, p + 2) + more);
    Assoc([Lit('$')], AtomsFrom(s, p + 2), more);
    EmptyRun(s, p + 2, AtomsFrom(s, p + 2) + more);
  }

  lemma {:induction false} EncodeReference(s: string, run: nat, p: nat, rest: string)
    requires run <= p < |s| && NulFree(s) && s[p] == '$' && At(s, p + 1) != '$' && ReadRef(s, p).Ref?
    ensures var (more, left) := DecodeString(rest);
            DecodeString(EncodeFrom(s, run, p) + rest)
            == (Lits(s[run..p]) + (AtomsFrom(s, p) + more), left)
    decreases |s| - p, 0
  {
    hide DecodeString, Literal, ReadRef, Lits, StartsPiece, Variable;
    var Ref(conv, start, end, after) := ReadRef(s, p);
    var tail := EncodeFrom(s, after, after);
    EncodeFromDecodes(s, after, after, rest);
    ReferenceDecodes(s[run..p], conv, s[start..end], tail, rest);
    EmptyRun(s, after, AtomsFrom(s, after) + DecodeString(rest).0);
    Assoc([Var(conv, s[start..end])], AtomsFrom(s, after), DecodeString(rest).0);
  }

  lemma LiteralBefore(t: string, tail: string, rest: string)
    requires NulFree(t)
    ensures var (more, left) := DecodeString(tail + rest);
            DecodeString(Literal(t) + tail + rest) == (Lits(t) + more, left)
  {
    LiteralDecodes(t, tail + rest);
    Assoc(Literal(t), tail, rest);
  }

  lemma EmptyRun(s: string, p: nat, atoms: seq<Atom>)
    requires p <= |s|
    ensures Lits(s[p..p]) + atoms == atoms
  {}

  lemma ReferenceDecodes(t: string, conv: Conv, name: string, tail: string, rest: string)
    requires NulFree(t) && NulFree(name)
    ensures var (more, left) := DecodeString(tail + rest);
            DecodeString(Literal(t) + (Variable(conv, name) + tail) + rest)
            == (Lits(t) + ([Var(conv, name)] + more), left)
  {
    var v := Variable(conv, name);
    PieceDecodes(ExtToken(conv), name, tail + rest);
    Assoc(v, tail, rest);
    LiteralBefore(t, v + tail, rest);
  }

  /** The encoding of any string decodes to its reading, in front of any bytes. */
  lemma EncodeDecodes(s: string, rest: string)
    requires NulFree(s)
    ensures var (more, left) := DecodeString(rest);
            DecodeString(Encode(s) + rest) == (Atoms(s) + more, left)
  {
    if s == "" {
      PieceDecodes(STR_I, "", rest);
      assert [STR_I] + "" + [NUL] == Encode(s);
    } else {
      EncodeFromDecodes(s, 0, 0, rest);
      assert Lits(s[0..0]) + (Atoms(s) + DecodeString(rest).0) == Atoms(s) + DecodeString(rest).0;
    }
  }

  /** Variable strings keep their meaning: what a browser shows for the tokens
      of put_str is the direct substitution in the string itself, and
      nothing is left undecoded. */
  lemma VariablesKeepMeaning(s: string, env: (Conv, string) -> string)
    requires NulFree(s)
    ensures DecodeString(Encode(s)).1 == ""
    ensures Render(DecodeString(Encode(s)).0, env) == Substitute(s, 0, env)
  {
    EncodeDecodes(s, "");
    assert Encode(s) + "" == Encode(s);
    AtomsSubstitute(s, 0, env);
    assert Atoms(s) + [] == Atoms(s);
  }

  lemma {:induction false} EncodeFromStarts(s: string, run: nat, p: nat)
    requires run <= p <= |s| && run < |s|
    ensures StartsPiece(EncodeFrom(s, run, p))
    decreases |s| - p
  {
    if p == |s| {
    } else if s[p] != '$' || (At(s, p + 1) != '$' && ReadRef(s, p).NoRef?) {
      EncodeFromStarts(s, run, p + 1);
    }
  }

  /** Even the empty string encodes to at least one token. */
  lemma EncodeStarts(s: string)
    ensures StartsPiece(Encode(s))
  {
    if s != "" { EncodeFromStarts(s, 0, 0); }
  }
}
