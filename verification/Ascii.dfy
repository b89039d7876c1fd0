/** The C library's view of strings that the rest of the project needs:
    character classes of the "C" locale, case folding and searching.
    A C `char` is a Dafny `char`; a C string is a `string` without the
    terminating NUL, which `At` supplies when a scan reads one past the end. */
module Ascii {

  const NUL: char := '\0'

  predicate IsDigit(c: char) { '0' <= c <= '9' }

  predicate IsAlpha(c: char) { 'a' <= c <= 'z' || 'A' <= c <= 'Z' }

  predicate IsAlnum(c: char) { IsAlpha(c) || IsDigit(c) }

  predicate IsXDigit(c: char) { IsDigit(c) || 'a' <= c <= 'f' || 'A' <= c <= 'F' }

  /** isspace(): space, \t, \n, \v, \f, \r. */
  predicate IsSpace(c: char) { c == ' ' || '\t' <= c <= '\r' }

  function Lower(c: char): char {
    if 'A' <= c <= 'Z' then (c as int + 32) as char else c
  }

  function LowerAll(s: string): (r: string)
    ensures |r| == |s|
    ensures forall i :: 0 <= i < |s| ==> r[i] == Lower(s[i])
  {
    seq(|s|, i requires 0 <= i < |s| => Lower(s[i]))
  }

  /** strcasecmp(a, b) == 0 */
  predicate SameFold(a: string, b: string) { LowerAll(a) == LowerAll(b) }

  /** s[i] of a NUL-terminated string. */
  function At(s: string, i: nat): char { if i < |s| then s[i] else NUL }

  predicate NulFree(s: string) { forall i :: 0 <= i < |s| ==> s[i] != NUL }

  /** strchr(s + from, c): the index of the first `c` at or after `from`, |s| if none. */
  function Find(s: string, from: nat, c: char): (r: nat)
    requires from <= |s|
    ensures from <= r <= |s|
    ensures forall i :: from <= i < r ==> s[i] != c
    ensures r < |s| ==> s[r] == c
    decreases |s| - from
  {
    if from == |s| || s[from] == c then from else Find(s, from + 1, c)
  }

  lemma FindIs(s: string, c: char, at: nat)
    requires at <= |s| && (at < |s| ==> s[at] == c) && forall i :: 0 <= i < at ==> s[i] != c
    ensures Find(s, 0, c) == at
  {
    hide Find;
    var r := Find(s, 0, c);
  }

  /** !strncmp(s + at, m, strlen(m)) */
  predicate HasAt(s: string, at: nat, m: string) { at + |m| <= |s| && s[at..at + |m|] == m }

  /** strstr(s + from, m): the first occurrence at or after `from`, |s| if none. */
  function FindStr(s: string, from: nat, m: string): (r: nat)
    requires from <= |s| && |m| > 0
    ensures from <= r <= |s|
    ensures forall i :: from <= i < r ==> !HasAt(s, i, m)
    ensures r < |s| ==> HasAt(s, r, m)
    decreases |s| - from
  {
    if from == |s| || HasAt(s, from, m) then from else FindStr(s, from + 1, m)
  }

  /** Concatenation is associative: named so that proofs can say where. */
  lemma Assoc<T>(a: seq<T>, b: seq<T>, c: seq<T>)
    ensures (a + b) + c == a + (b + c)
  {}
}
