/** The HTTP/0.9 answer (connection_write of src/web_server/connection.c): the
    header block is dropped from a response however it is cut into writes. */
module HeaderStrip {
  import opened Ascii

  const END: string := "\r\n\r\n"

  /** The bytes after the first blank line; nothing while there is none. */
  function Body(s: string): string {
    var at := FindStr(s, 0, END);
    if at < |s| then s[at + 4..] else ""
  }

  predicate HasEnd(s: string) { FindStr(s, 0, END) < |s| }

  // ---- The matcher ----------------------------------------------------------------------

  function EndChar(k: nat): char { if k % 2 == 0 then '\r' else '\n' }

  /** One turn of the matcher: how much of the blank line has been seen. */
  function Match(m: nat, c: char): (r: nat)
    requires m < 4
    ensures r <= 4
  {
    if c == EndChar(m) then m + 1 else if c == '\r' then 1 else 0
  }

  /** How many bytes of s the matcher takes as header, starting at m. */
  function HeaderLen(m: nat, s: string): (r: nat)
    requires m <= 4
    ensures r <= |s|
    decreases |s|
  {
    if s == "" || m == 4 then 0 else 1 + HeaderLen(Match(m, s[0]), s[1..])
  }

  function MatchAll(m: nat, s: string): (r: nat)
    requires m <= 4
    ensures r <= 4
    decreases |s|
  {
    if s == "" || m == 4 then m else MatchAll(Match(m, s[0]), s[1..])
  }

  /** s ends with the first k bytes of the blank line. */
  ghost predicate EndsWith(s: string, k: nat) {
    k <= |s| && forall j :: 0 <= j < k ==> s[|s| - k + j] == EndChar(j)
  }

  /** m is the most of the blank line that s ends with. */
  ghost predicate Longest(s: string, m: nat) {
    m <= 4 && EndsWith(s, m) && forall k :: m < k <= 4 ==> !EndsWith(s, k)
  }

  lemma EndsMore(s: string, c: char, k: nat)
    requires k < 4
    ensures EndsWith(s + [c], k + 1) <==> EndsWith(s, k) && c == EndChar(k)
  {
    var t := s + [c];
    if k < |t| {
      assert t[|t| - (k + 1) + k] == c;
      if EndsWith(t, k + 1) {
        forall j | 0 <= j < k
          ensures s[|s| - k + j] == EndChar(j)
        {
          assert t[|t| - (k + 1) + j] == EndChar(j);
        }
      }
    }
  }

  /** The last byte tells the shorter matches from the longer ones. */
  lemma EndsShorter(s: string, m: nat)
    requires m < 4 && EndsWith(s, m)
    ensures m == 1 ==> !EndsWith(s, 2)
    ensures m == 2 ==> !EndsWith(s, 1) && !EndsWith(s, 3)
    ensures m == 3 ==> EndsWith(s, 1) && !EndsWith(s, 2)
  {
    if m > 0 { assert s[|s| - m + (m - 1)] == EndChar(m - 1); }
    if EndsWith(s, 2) { assert s[|s| - 2 + 1] == EndChar(1); }
    if EndsWith(s, 3) { assert s[|s| - 3 + 2] == EndChar(2); }
    if EndsWith(s, 1) { assert s[|s| - 1 + 0] == EndChar(0); }
  }

  lemma MatchStep(s: string, c: char, m: nat)
    requires m < 4 && Longest(s, m)
    ensures Longest(s + [c], Match(m, c))
  {
    hide EndsWith;
    EndsMore(s, c, 0);
    EndsMore(s, c, 1);
    EndsMore(s, c, 2);
    EndsMore(s, c, 3);
    EndsShorter(s, m);
    EmptyEnd(s);
    EmptyEnd(s + [c]);
  }

  lemma EmptyEnd(s: string)
    ensures EndsWith(s, 0)
  {}

  // ---- The first blank line -------------------------------------------------------------------

  lemma EndThere(s: string, i: nat)
    requires i + 4 <= |s|
    ensures HasAt(s, i, END) <==> EndsWith(s[..i + 4], 4)
  {
    var t := s[..i + 4];
    assert t[i..i + 4] == s[i..i + 4];
    if HasAt(s, i, END) {
      assert s[i] == END[0] && s[i + 1] == END[1] && s[i + 2] == END[2] && s[i + 3] == END[3] by {
        assert s[i..i + 4] == END;
      }
    }
    if EndsWith(t, 4) {
      assert t[|t| - 4 + 0] == EndChar(0) && t[|t| - 4 + 1] == EndChar(1);
      assert t[|t| - 4 + 2] == EndChar(2) && t[|t| - 4 + 3] == EndChar(3);
      assert s[i..i + 4] == END;
    }
  }

  /** What the connection has seen of the response, and where its matcher stands. */
  ghost predicate InHeader(s: string, m: nat) { m < 4 && Longest(s, m) && !HasEnd(s) }

  lemma HasAtPrefix(s: string, t: string, i: nat)
    ensures HasAt(s, i, END) ==> HasAt(s + t, i, END)
    ensures i + 4 <= |s| && HasAt(s + t, i, END) ==> HasAt(s, i, END)
  {
    if i + 4 <= |s| { assert (s + t)[i..i + 4] == s[i..i + 4]; }
  }

  /** The first occurrence is at i. */
  lemma FirstEnd(s: string, i: nat)
    requires i < |s| && HasAt(s, i, END) && forall k :: 0 <= k < i ==> !HasAt(s, k, END)
    ensures FindStr(s, 0, END) == i
  {
    var at := FindStr(s, 0, END);
  }

  lemma NoEarlier(s: string, t: string, i: nat)
    requires !HasEnd(s) && i + 4 <= |s|
    ensures !HasAt(s + t, i, END)
  {
    HasAtPrefix(s, t, i);
    assert !HasAt(s, i, END);
  }

  /** One header byte: either the header goes on, or this byte ends it. */
  lemma HeaderStep(s: string, c: char, m: nat)
    requires InHeader(s, m)
    ensures Match(m, c) < 4 ==> InHeader(s + [c], Match(m, c))
    ensures Match(m, c) == 4 ==> HasEnd(s + [c]) && Body(s + [c]) == ""
  {
    hide Longest, HasAt, END;
    var t := s + [c];
    MatchStep(s, c, m);
    assert Longest(t, Match(m, c));
    LongestIs(t, Match(m, c));
    forall k | 0 <= k < |t| && k + 4 < |t|
      ensures !HasAt(t, k, END)
    {
      NoEarlier(s, [c], k);
    }
    if |t| >= 4 {
      EndThere(t, |t| - 4);
      assert t[..|t|] == t;
    }
    EndFits(t);
    if Match(m, c) == 4 {
      FirstEnd(t, |t| - 4);
    }
  }

  lemma LongestIs(s: string, m: nat)
    requires Longest(s, m)
    ensures m == 4 <==> EndsWith(s, 4)
    ensures m == 4 ==> |s| >= 4
  {}

  lemma EndFits(s: string)
    ensures forall k: nat :: k + 4 > |s| ==> !HasAt(s, k, END)
  {}

  /** Past the blank line the rest of the response is body. */
  lemma BodyGrows(s: string, t: string)
    requires HasEnd(s)
    ensures HasEnd(s + t) && Body(s + t) == Body(s) + t
  {
    var i := FindStr(s, 0, END);
    HasAtPrefix(s, t, i);
    EndFits(s);
    forall k | 0 <= k < i
      ensures !HasAt(s + t, k, END)
    {
      HasAtPrefix(s, t, k);
    }
    FirstEnd(s + t, i);
    assert (s + t)[i + 4..] == s[i + 4..] + t;
  }

  /** The matcher finds the first blank line, from wherever it stands. */
  lemma {:induction false} MatcherRight(s: string, m: nat, buf: string)
    requires InHeader(s, m)
    ensures var n := HeaderLen(m, buf);
            if MatchAll(m, buf) == 4 then HasEnd(s + buf[..n]) && Body(s + buf[..n]) == ""
            else n == |buf| && InHeader(s + buf, MatchAll(m, buf))
    decreases |buf|
  {
    hide InHeader, HasEnd, Body;
    if buf == "" {
      assert s + buf == s;
      HeaderGoesOn(s, m);
    } else {
      var c, rest := buf[0], buf[1..];
      HeaderGoesOn(s, m);
      HeaderStep(s, c, m);
      var m' := Match(m, c);
      var n := HeaderLen(m, buf);
      assert buf == [c] + rest;
      if m' == 4 {
        assert HeaderLen(m', rest) == 0 && MatchAll(m', rest) == 4;
        assert buf[..1] == [c];
      } else {
        MatcherRight(s + [c], m', rest);
        var k := HeaderLen(m', rest);
        assert buf[..k + 1] == [c] + rest[..k];
        Assoc(s, [c], rest[..k]);
        Assoc(s, [c], rest);
      }
    }
  }

  lemma HeaderGoesOn(s: string, m: nat)
    requires InHeader(s, m)
    ensures m < 4
  {}

  // ---- Whole responses ---------------------------------------------------------------------------

  /** What a write of buf passes on when the matcher stands at m. */
  function Passed(m: nat, buf: string): string
    requires m <= 4
  {
    buf[HeaderLen(m, buf)..]
  }

  function Flatten(chunks: seq<string>): string {
    if chunks == [] then "" else chunks[0] + Flatten(chunks[1..])
  }

  /** What the writes of some chunks pass on together. */
  function PassedAll(m: nat, chunks: seq<string>): string
    requires m <= 4
    decreases |chunks|
  {
    if chunks == [] then ""
    else Passed(m, chunks[0]) + PassedAll(MatchAll(m, chunks[0]), chunks[1..])
  }

  lemma {:induction false} PassesBody(chunks: seq<string>)
    ensures PassedAll(4, chunks) == Flatten(chunks)
    decreases |chunks|
  {
    if chunks != [] { PassesBody(chunks[1..]); }
  }

  lemma {:induction false} PassesFrom(s: string, m: nat, chunks: seq<string>)
    requires InHeader(s, m)
    ensures PassedAll(m, chunks) == Body(s + Flatten(chunks))
    decreases |chunks|
  {
    hide InHeader, HasEnd, Body, HeaderLen, MatchAll, Match;
    HeaderGoesOn(s, m);
    if chunks == [] {
      assert s + "" == s;
      NoBody(s, m);
    } else {
      var buf, rest := chunks[0], chunks[1..];
      var n := HeaderLen(m, buf);
      MatcherRight(s, m, buf);
      Assoc(s, buf, Flatten(rest));
      if MatchAll(m, buf) == 4 {
        PassesBody(rest);
        BodyGrows(s + buf[..n], buf[n..] + Flatten(rest));
        assert s + buf[..n] + (buf[n..] + Flatten(rest)) == s + (buf + Flatten(rest)) by {
          assert buf[..n] + buf[n..] == buf;
        }
      } else {
        PassesFrom(s + buf, MatchAll(m, buf), rest);
      }
    }
  }

  lemma NoBody(s: string, m: nat)
    requires InHeader(s, m)
    ensures Body(s) == ""
  {}

  /** However a response is cut, the same bytes come out: those after its first blank line. */
  lemma CutsDoNotMatter(chunks: seq<string>)
    ensures PassedAll(0, chunks) == Body(Flatten(chunks))
  {
    assert InHeader("", 0);
    PassesFrom("", 0, chunks);
    assert "" + Flatten(chunks) == Flatten(chunks);
  }

  /** A write that got as far as the socket and failed there has moved the matcher.
      Written once more, the same bytes come out right exactly when the header had
      ended before. */
  lemma RetryExactly(m: nat, buf: string)
    requires m <= 4 && HeaderLen(m, buf) < |buf|
    ensures Passed(MatchAll(m, buf), buf) == Passed(m, buf) <==> m == 4
  {
    ReachedBody(m, buf);
    if m < 4 { assert |Passed(4, buf)| == |buf| && |Passed(m, buf)| < |buf|; }
  }

  /** One such write: the end of a header with the first byte of the body behind it. */
  lemma RetryExample()
    ensures var buf := "\r\n\r\nx";
            Passed(0, buf) == "x" && Passed(MatchAll(0, buf), buf) == buf
  {
    var buf := "\r\n\r\nx";
    assert buf[1..] == "\n\r\nx" && buf[2..] == "\r\nx" && buf[3..] == "\nx" && buf[4..] == "x";
    assert buf[1..][1..] == buf[2..] && buf[2..][1..] == buf[3..] && buf[3..][1..] == buf[4..];
    assert HeaderLen(4, buf[4..]) == 0 && MatchAll(4, buf[4..]) == 4;
    assert HeaderLen(3, buf[3..]) == 1 && MatchAll(3, buf[3..]) == 4;
    assert HeaderLen(2, buf[2..]) == 2 && MatchAll(2, buf[2..]) == 4;
    assert HeaderLen(1, buf[1..]) == 3 && MatchAll(1, buf[1..]) == 4;
  }

  lemma {:induction false} ReachedBody(m: nat, buf: string)
    requires m <= 4 && HeaderLen(m, buf) < |buf|
    ensures MatchAll(m, buf) == 4
    decreases |buf|
  {
    if m < 4 { ReachedBody(Match(m, buf[0]), buf[1..]); }
  }

  // ---- The connection ----------------------------------------------------------------------------

  class Connection {
    var simpleResponse: bool
    var matched: nat
    /** What went out on the socket. */
    var wire: string
    /** The response bytes that writes have reported as taken. */
    ghost var seen: string

    /** On the wire is exactly the body of what was taken. */
    ghost predicate Valid()
      reads this
    {
      if !simpleResponse then matched == 0 && wire == seen
      else if matched < 4 then InHeader(seen, matched) && wire == ""
      else matched == 4 && HasEnd(seen) && wire == Body(seen)
    }

    constructor (simple: bool)
      ensures Valid() && simpleResponse == simple && wire == "" && seen == ""
    {
      simpleResponse, matched, wire, seen := simple, 0, "", "";
    }

    /** raw_write as the network lets it: `room` bytes fit; none or less is an error. */
    method RawWrite(buf: string, room: int) returns (r: int)
      modifies this`wire
      ensures r == if room <= 0 then room else if room < |buf| then room else |buf|
      ensures wire == if r > 0 then old(wire) + buf[..r] else old(wire)
    {
      r := if room <= 0 then room else if room < |buf| then room else |buf|;
      if r > 0 { wire := wire + buf[..r]; }
    }

    /** connection_write: every write that makes progress keeps the wire at the body. */
    method Write(buf: string, room: int) returns (ret: int)
      requires Valid()
      modifies this
      ensures ret <= |buf| && simpleResponse == old(simpleResponse)
      ensures ret > 0 ==> Valid() && seen == old(seen) + buf[..ret]
      ensures buf == "" && room > 0 ==> ret == 0 && Valid() && seen == old(seen)
      ensures room > 0 && buf != "" ==> ret > 0
      ensures ret <= 0 ==> wire == old(wire) && seen == old(seen)
      ensures matched == if simpleResponse && old(matched) < 4 then MatchAll(old(matched), buf) else old(matched)
    {
      hide HeaderLen, MatchAll, InHeader, HasEnd, Body, Match;
      if simpleResponse && matched < 4 {
        var i, m := ScanHeader(matched, buf);
        MatcherRight(seen, matched, buf);
        matched := m;
        if i == |buf| {
          seen := seen + buf;
          assert buf[..i] == buf;
          return |buf|;
        }
        var sent := RawWrite(buf[i..], room);
        if sent <= 0 { return sent; }
        seen := seen + buf[..i + sent];
        CutAt(buf, i, sent);
        Assoc(old(seen), buf[..i], buf[i..][..sent]);
        BodyGrows(old(seen) + buf[..i], buf[i..][..sent]);
        return i + sent;
      }
      ret := RawWrite(buf, room);
      if ret > 0 {
        if simpleResponse { BodyGrows(seen, buf[..ret]); }
        seen := seen + buf[..ret];
      }
    }
  }

  lemma CutAt(buf: string, i: nat, n: nat)
    requires i + n <= |buf|
    ensures buf[..i + n] == buf[..i] + buf[i..][..n]
  {}

  /** The loop of connection_write over the bytes that are still header. */
  method ScanHeader(m0: nat, buf: string) returns (i: nat, m: nat)
    requires m0 < 4
    ensures i == HeaderLen(m0, buf) && m == MatchAll(m0, buf)
    ensures i < |buf| ==> m == 4
  {
    hide Match;
    i, m := 0, m0;
    while i < |buf| && m < 4
      invariant i <= |buf| && m <= 4
      invariant i + HeaderLen(m, buf[i..]) == HeaderLen(m0, buf)
      invariant MatchAll(m, buf[i..]) == MatchAll(m0, buf)
    {
      assert buf[i..][1..] == buf[i + 1..];
      m := Match(m, buf[i]);
      i := i + 1;
    }
  }
}
