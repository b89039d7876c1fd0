/** The captcha's PNG encoder (encode_png, chunk of src/utils/captcha.c) against
    readers for stored deflate blocks, zlib streams and PNG files. */
module Png {
  import opened Options
  import opened Ascii
  import opened Bits
  import opened Crc32

  // ---- Numbers -----------------------------------------------------------------------------

  function U16(lo: int, hi: int): int { lo + 256 * hi }

  function U32(a: int, b: int, c: int, d: int): int { ((a * 256 + b) * 256 + c) * 256 + d }

  /** be32: most significant byte first. */
  function Be32(v: nat): (r: seq<Byte>)
    requires v < 0x1_0000_0000
    ensures |r| == 4 && U32(r[0], r[1], r[2], r[3]) == v
  {
    var high, low := v / 0x1_0000, v % 0x1_0000;
    [high / 256, high % 256, low / 256, low % 256]
  }

  // ---- Stored blocks: section 3.2.4 of RFC 1951 --------------------------------------------------

  const MAX_STORED: nat := 65535

  /** A stored block: the final flag, the length, its complement, the data. */
  function StoredBlock(last: bool, d: seq<Byte>): seq<Byte>
    requires |d| <= MAX_STORED
  {
    [if last then 1 else 0, |d| % 256, |d| / 256, 255 - |d| % 256, 255 - |d| / 256] + d
  }

  function Stored(raw: seq<Byte>): (r: seq<Byte>)
    decreases |raw|
  {
    if |raw| <= MAX_STORED then StoredBlock(true, raw)
    else StoredBlock(false, raw[..MAX_STORED]) + Stored(raw[MAX_STORED..])
  }

  /** The data of stored blocks up to the final one, and what follows it. */
  function Inflate(s: seq<Byte>): Option<(seq<Byte>, seq<Byte>)>
    decreases |s|
  {
    if |s| < 5 || s[0] / 2 % 4 != 0 then None
    else
      var n, nn := U16(s[1], s[2]), U16(s[3], s[4]);
      if n + nn != 65535 || |s| < 5 + n then None
      else if s[0] % 2 == 1 then Some((s[5..5 + n], s[5 + n..]))
      else
        match Inflate(s[5 + n..])
        case None => None
        case Some((more, rest)) => Some((s[5..5 + n] + more, rest))
  }

  lemma BlockShape(last: bool, d: seq<Byte>, rest: seq<Byte>)
    requires |d| <= MAX_STORED
    ensures var s := StoredBlock(last, d) + rest;
            && |s| >= 5 + |d| && s[0] / 2 % 4 == 0 && (s[0] % 2 == 1 <==> last)
            && U16(s[1], s[2]) == |d| && U16(s[3], s[4]) == MAX_STORED - |d|
            && s[5..5 + |d|] == d && s[5 + |d|..] == rest
  {
    var h := [if last then 1 else 0, |d| % 256, |d| / 256, 255 - |d| % 256, 255 - |d| / 256];
    var s := StoredBlock(last, d) + rest;
    assert forall i :: 0 <= i < 5 ==> s[i] == h[i];
  }

  /** Inflating the stored blocks gives the data back and stops right after them. */
  lemma {:induction false} StoredInflates(raw: seq<Byte>, rest: seq<Byte>)
    ensures Inflate(Stored(raw) + rest) == Some((raw, rest))
    decreases |raw|
  {
    hide StoredBlock;
    if |raw| <= MAX_STORED {
      BlockShape(true, raw, rest);
    } else {
      var d, more := raw[..MAX_STORED], raw[MAX_STORED..];
      StoredInflates(more, rest);
      BlockShape(false, d, Stored(more) + rest);
      Assoc(StoredBlock(false, d), Stored(more), rest);
      assert d + more == raw;
    }
  }

  lemma {:induction false} StoredLength(raw: seq<Byte>)
    ensures |Stored(raw)| <= |raw| + (|raw| / MAX_STORED + 1) * 5
    decreases |raw|
  {
    if |raw| > MAX_STORED {
      StoredLength(raw[MAX_STORED..]);
      assert |raw| / MAX_STORED == (|raw| - MAX_STORED) / MAX_STORED + 1;
    }
  }

  // ---- Adler-32: section 8.2 of RFC 1950 ------------------------------------------------------------

  const ADLER: nat := 65521

  /** One plus the sum of the bytes. */
  function SumA(d: seq<Byte>): nat { if d == [] then 1 else SumA(d[..|d| - 1]) + d[|d| - 1] as int }

  /** The sum of those sums over all non-empty prefixes. */
  function SumB(d: seq<Byte>): nat { if d == [] then 0 else SumB(d[..|d| - 1]) + SumA(d) }

  function Adler(d: seq<Byte>): (r: nat)
    ensures r < 0x1_0000_0000
  {
    SumB(d) % 65521 * 65536 + SumA(d) % 65521
  }

  /** Reducing at every byte gives the same remainder. */
  lemma ModAdd(x: nat, y: nat)
    ensures (x % ADLER + y) % ADLER == (x + y) % ADLER
  {}

  // ---- The zlib stream ------------------------------------------------------------------------------------

  function Zlib(raw: seq<Byte>): seq<Byte> { [0x78, 0x01] + (Stored(raw) + Be32(Adler(raw))) }

  /** A zlib stream: a deflate header whose check holds, the blocks, the right Adler-32. */
  function ReadZlib(s: seq<Byte>): Option<seq<Byte>> {
    if |s| < 2 || !HeaderOk(s[0], s[1]) then None
    else
      match Inflate(s[2..])
      case None => None
      case Some((raw, rest)) => if rest == Be32(Adler(raw)) then Some(raw) else None
  }

  predicate HeaderOk(a: nat, b: nat) { a % 16 == 8 && (256 * a + b) % 31 == 0 && b / 32 % 2 == 0 }

  lemma ZlibHeader()
    ensures HeaderOk(0x78, 0x01)
  {}

  lemma ZlibReads(raw: seq<Byte>)
    ensures ReadZlib(Zlib(raw)) == Some(raw)
  {
    hide Stored, Be32, Adler, Inflate, HeaderOk;
    ZlibHeader();
    assert Zlib(raw)[2..] == Stored(raw) + Be32(Adler(raw));
    StoredInflates(raw, Be32(Adler(raw)));
  }

  // ---- Chunks ------------------------------------------------------------------------------------------------

  function CrcNumber(bytes: seq<Byte>): (r: nat)
    ensures r < 0x1_0000_0000
  {
    Number(Crc(bytes))
  }

  function Chunk(kind: seq<Byte>, data: seq<Byte>): seq<Byte>
    requires |kind| == 4 && |data| < 0x1_0000_0000
  {
    Be32(|data|) + (kind + (data + Be32(CrcNumber(kind + data))))
  }

  datatype ChunkRead = ChunkRead(kind: seq<Byte>, data: seq<Byte>, rest: seq<Byte>)

  /** The first chunk, if it is whole and its CRC is right. */
  function ReadChunk(s: seq<Byte>): Option<ChunkRead> {
    if |s| < 12 then None
    else
      var n := U32(s[0], s[1], s[2], s[3]);
      if |s| < 12 + n then None
      else
        var kind, data, crc := s[4..8], s[8..8 + n], s[8 + n..12 + n];
        if crc == Be32(CrcNumber(kind + data)) then Some(ChunkRead(kind, data, s[12 + n..])) else None
  }

  lemma ChunkReads(kind: seq<Byte>, data: seq<Byte>, rest: seq<Byte>)
    requires |kind| == 4 && |data| < 0x1_0000_0000
    ensures ReadChunk(Chunk(kind, data) + rest) == Some(ChunkRead(kind, data, rest))
  {
    hide Be32, CrcNumber;
    var n, crc := |data|, Be32(CrcNumber(kind + data));
    var len := Be32(n);
    var s := Chunk(kind, data) + rest;
    assert s == len + (kind + (data + (crc + rest)));
    assert forall i :: 0 <= i < 4 ==> s[i] == len[i];
    assert s[4..8] == kind;
    assert s[8..8 + n] == data;
    assert s[8 + n..12 + n] == crc && s[12 + n..] == rest;
  }

  // ---- Rows ---------------------------------------------------------------------------------------------------

  /** Each of the h rows of w grays with its filter byte (none) in front. */
  function Rows(gray: seq<Byte>, w: nat, h: nat): (r: seq<Byte>)
    requires |gray| == w * h
    ensures |r| == w * h + h
    decreases h
  {
    if h == 0 then []
    else
      OneRowLess(w, h);
      [0] + (gray[..w] + Rows(gray[w..], w, h - 1))
  }

  lemma OneRowLess(w: nat, h: nat)
    requires h > 0
    ensures w * h == w * (h - 1) + w && w * (h - 1) >= 0
  {}

  function Unfilter(raw: seq<Byte>, w: nat): Option<seq<Byte>>
    decreases |raw|
  {
    if raw == [] then Some([])
    else if |raw| < w + 1 || raw[0] != 0 then None
    else
      match Unfilter(raw[w + 1..], w)
      case None => None
      case Some(more) => Some(raw[1..w + 1] + more)
  }

  lemma {:induction false} RowsUnfilter(gray: seq<Byte>, w: nat, h: nat)
    requires |gray| == w * h
    ensures Unfilter(Rows(gray, w, h), w) == Some(gray)
    decreases h
  {
    if h > 0 {
      OneRowLess(w, h);
      var row, more := gray[..w], Rows(gray[w..], w, h - 1);
      RowsUnfilter(gray[w..], w, h - 1);
      FirstRow(row, more, w);
      assert row + gray[w..] == gray;
    } else {
      assert gray == [];
    }
  }

  lemma FirstRow(row: seq<Byte>, more: seq<Byte>, w: nat)
    requires |row| == w
    ensures Unfilter([0] + (row + more), w)
            == match Unfilter(more, w) case None => None case Some(g) => Some(row + g)
  {
    var raw := [0] + (row + more);
    assert raw[0] == 0 && raw[1..w + 1] == row && raw[w + 1..] == more;
  }

  // ---- The file -----------------------------------------------------------------------------------------------------

  const SIGNATURE: seq<Byte> := [0x89, 80, 78, 71, 13, 10, 0x1A, 10]
  const IHDR: seq<Byte> := [73, 72, 68, 82]
  const IDAT: seq<Byte> := [73, 68, 65, 84]
  const IEND: seq<Byte> := [73, 69, 78, 68]
  const GRAY_8: seq<Byte> := [8, 0, 0, 0, 0]   // 8 bits, grayscale, deflate, no interlace

  function HeaderData(w: nat, h: nat): seq<Byte>
    requires w < 0x1_0000_0000 && h < 0x1_0000_0000
  {
    Be32(w) + Be32(h) + GRAY_8
  }

  function PngFile(gray: seq<Byte>, w: nat, h: nat): seq<Byte>
    requires w < 0x1_0000_0000 && h < 0x1_0000_0000 && |gray| == w * h
    requires |Zlib(Rows(gray, w, h))| < 0x1_0000_0000
  {
    SIGNATURE + (Chunk(IHDR, HeaderData(w, h)) + (Chunk(IDAT, Zlib(Rows(gray, w, h))) + Chunk(IEND, [])))
  }

  datatype Image = Image(width: nat, height: nat, gray: seq<Byte>)

  function ReadHeader(d: seq<Byte>): Option<(nat, nat)> {
    if |d| != 13 || d[8..] != [8, 0, 0, 0, 0] then None
    else
      var w, h := U32(d[0], d[1], d[2], d[3]), U32(d[4], d[5], d[6], d[7]);
      if w < 1 || h < 1 then None else Some((w, h))
  }

  function ReadPixels(w: nat, h: nat, z: seq<Byte>): Option<Image> {
    match ReadZlib(z)
    case None => None
    case Some(raw) =>
      match Unfilter(raw, w)
      case None => None
      case Some(gray) => if |gray| == w * h then Some(Image(w, h, gray)) else None
  }

  /** A reader for 8-bit grayscale files with one data chunk: every check of the format is made.
      The signature and the names IHDR, IDAT and IEND are the format's own bytes. */
  function ReadPng(s: seq<Byte>): Option<Image> {
    if !([0x89, 80, 78, 71, 13, 10, 0x1A, 10] <= s) then None
    else
      var a := ReadChunk(s[8..]);
      if a.None? || a.value.kind != [73, 72, 68, 82] || ReadHeader(a.value.data).None? then None
      else
        var (w, h) := ReadHeader(a.value.data).value;
        var b := ReadChunk(a.value.rest);
        if b.None? || b.value.kind != [73, 68, 65, 84] then None
        else if ReadChunk(b.value.rest) != Some(ChunkRead([73, 69, 78, 68], [], [])) then None
        else ReadPixels(w, h, b.value.data)
  }

  lemma HeaderReads(w: nat, h: nat)
    requires 0 < w < 0x1_0000_0000 && 0 < h < 0x1_0000_0000
    ensures ReadHeader(HeaderData(w, h)) == Some((w, h))
  {
    hide Be32;
    var d, a, b := HeaderData(w, h), Be32(w), Be32(h);
    assert forall i :: 0 <= i < 4 ==> d[i] == a[i] && d[4 + i] == b[i];
    assert d[8..] == GRAY_8;
  }

  lemma PixelsRead(gray: seq<Byte>, w: nat, h: nat)
    requires |gray| == w * h
    ensures ReadPixels(w, h, Zlib(Rows(gray, w, h))) == Some(Image(w, h, gray))
  {
    hide Zlib, ReadZlib, Rows, Unfilter;
    ZlibReads(Rows(gray, w, h));
    RowsUnfilter(gray, w, h);
  }

  /** PNG encoding is right: a reader that checks everything gets the image back. */
  lemma PngReads(gray: seq<Byte>, w: nat, h: nat)
    requires 0 < w < 0x1_0000_0000 && 0 < h < 0x1_0000_0000 && |gray| == w * h
    requires |Zlib(Rows(gray, w, h))| < 0x1_0000_0000
    ensures ReadPng(PngFile(gray, w, h)) == Some(Image(w, h, gray))
  {
    hide Chunk, ReadChunk, Zlib, Rows, HeaderData, ReadHeader, ReadPixels;
    var z := Zlib(Rows(gray, w, h));
    var tail := Chunk(IDAT, z) + Chunk(IEND, []);
    var s := PngFile(gray, w, h);
    HeaderSize(w, h);
    assert s[|SIGNATURE|..] == Chunk(IHDR, HeaderData(w, h)) + tail;
    ChunkReads(IHDR, HeaderData(w, h), tail);
    HeaderReads(w, h);
    ChunkReads(IDAT, z, Chunk(IEND, []));
    assert Chunk(IEND, []) + [] == Chunk(IEND, []);
    ChunkReads(IEND, [], []);
    PixelsRead(gray, w, h);
  }

  lemma HeaderSize(w: nat, h: nat)
    requires w < 0x1_0000_0000 && h < 0x1_0000_0000
    ensures |HeaderData(w, h)| == 13
  {}

  // ---- The encoder as it runs -------------------------------------------------------------------------------------------

  /** The running sums, reduced at every byte. */
  method AdlerOf(raw: seq<Byte>) returns (a: nat, b: nat)
    ensures a == SumA(raw) % ADLER && b == SumB(raw) % ADLER
  {
    a, b := 1, 0;
    for i := 0 to |raw|
      invariant a == SumA(raw[..i]) % ADLER && b == SumB(raw[..i]) % ADLER
    {
      assert raw[..i + 1][..i] == raw[..i];
      ModAdd(SumA(raw[..i]), raw[i]);
      a := (a + raw[i] as int) % ADLER;
      ModSum(SumB(raw[..i]), SumA(raw[..i + 1]));
      b := (b + a) % ADLER;
    }
    assert raw[..|raw|] == raw;
  }

  lemma ModSum(x: nat, y: nat)
    ensures (x % ADLER + y % ADLER) % ADLER == (x + y) % ADLER
  {
    ModAdd(x, y % ADLER);
    ModAdd(y, x);
  }

  method PutRows(gray: seq<Byte>, w: nat, h: nat) returns (raw: seq<Byte>)
    requires |gray| == w * h
    ensures raw == Rows(gray, w, h)
  {
    hide Rows;
    raw := [];
    var at: nat := 0;
    assert gray[0..] == gray && [] + Rows(gray, w, h) == Rows(gray, w, h);
    for y := 0 to h
      invariant at <= |gray| && |gray[at..]| == w * (h - y)
      invariant raw + Rows(gray[at..], w, h - y) == Rows(gray, w, h)
    {
      RowNext(gray[at..], w, h - y, raw);
      assert gray[at..][..w] == gray[at..at + w] && gray[at..][w..] == gray[at + w..];
      raw := raw + ([0] + gray[at..at + w]);
      at := at + w;
    }
    NoRows(gray[at..], w);
    assert raw + [] == raw;
  }

  lemma NoRows(g: seq<Byte>, w: nat)
    requires |g| == w * 0
    ensures Rows(g, w, 0) == []
  {}

  lemma RowNext(g: seq<Byte>, w: nat, h: nat, raw: seq<Byte>)
    requires h > 0 && |g| == w * h
    ensures |g| >= w && |g| - w == w * (h - 1)
    ensures raw + Rows(g, w, h) == raw + ([0] + g[..w]) + Rows(g[w..], w, h - 1)
  {
    OneRowLess(w, h);
    var more := Rows(g[w..], w, h - 1);
    Assoc([0], g[..w], more);
    Assoc(raw, [0] + g[..w], more);
  }

  /** The zlib stream, block by block. */
  method PutZlib(raw: seq<Byte>) returns (z: seq<Byte>)
    requires raw != []
    ensures z == Zlib(raw)
  {
    hide StoredBlock, Be32, Adler;
    z := [0x78, 0x01];
    ghost var head, done := z, [];
    var off: nat := 0;
    assert raw[0..] == raw && [] + Stored(raw) == Stored(raw);
    while off < |raw|
      invariant off <= |raw| && z == head + done
      invariant off < |raw| ==> done + Stored(raw[off..]) == Stored(raw)
      invariant off == |raw| ==> done == Stored(raw)
    {
      var n := if |raw| - off > MAX_STORED then MAX_STORED else |raw| - off;
      var last := off + n == |raw|;
      ghost var block := StoredBlock(last, raw[off..off + n]);
      BlockNext(raw, off, n, done);
      Assoc(head, done, block);
      z := z + StoredBlock(last, raw[off..off + n]);
      done := done + block;
      off := off + n;
    }
    var a, b := AdlerOf(raw);
    AdlerIs(raw, a, b);
    Assoc(head, done, Be32(b * 65536 + a));
    z := z + Be32(b * 65536 + a);
  }

  lemma AdlerIs(raw: seq<Byte>, a: nat, b: nat)
    requires a == SumA(raw) % ADLER && b == SumB(raw) % ADLER
    ensures b * 65536 + a == Adler(raw) && b * 65536 + a < 0x1_0000_0000
  {}

  lemma StoredNext(r: seq<Byte>)
    ensures Stored(r) == if |r| <= MAX_STORED then StoredBlock(true, r)
                         else StoredBlock(false, r[..MAX_STORED]) + Stored(r[MAX_STORED..])
  {
    hide StoredBlock;
  }

  lemma BlockNext(raw: seq<Byte>, off: nat, n: nat, done: seq<Byte>)
    requires off < |raw| && n == if |raw| - off > MAX_STORED then MAX_STORED else |raw| - off
    requires done + Stored(raw[off..]) == Stored(raw)
    ensures var block := StoredBlock(off + n == |raw|, raw[off..off + n]);
            if off + n == |raw| then done + block == Stored(raw)
            else done + block + Stored(raw[off + n..]) == Stored(raw)
  {
    hide StoredBlock, Stored;
    var r := raw[off..];
    assert r[..n] == raw[off..off + n] && r[n..] == raw[off + n..];
    StoredNext(r);
    if off + n == |raw| {
      assert r == raw[off..off + n];
      assert Stored(r) == StoredBlock(true, raw[off..off + n]);
    } else {
      assert Stored(r) == StoredBlock(false, raw[off..off + n]) + Stored(raw[off + n..]);
      Assoc(done, StoredBlock(false, raw[off..off + n]), Stored(raw[off + n..]));
    }
  }

  /** Appends a chunk; the CRC comes from the shared table. */
  method PutChunk(t: CrcTable, png: seq<Byte>, kind: seq<Byte>, data: seq<Byte>) returns (r: seq<Byte>)
    requires t.Valid() && |kind| == 4 && |data| < 0x1_0000_0000
    modifies t, t.table
    ensures t.Valid()
    ensures r == png + Chunk(kind, data)
  {
    hide Be32, Crc, Number;
    var crc := t.Crc32Of(kind + data, 0);
    r := png + Be32(|data|);
    r := r + kind;
    r := r + data;
    r := r + Be32(Number(crc));
    Chain(png, Be32(|data|), kind, data, Be32(Number(crc)));
  }

  lemma Chain(p: seq<Byte>, a: seq<Byte>, b: seq<Byte>, c: seq<Byte>, d: seq<Byte>)
    ensures p + a + b + c + d == p + (a + (b + (c + d)))
  {}

  /** The size encode_png allocates. */
  function Capacity(rawLen: nat): nat {
    var zLen := 2 + rawLen + (rawLen / MAX_STORED + 1) * 5 + 4;
    8 + 25 + 12 + zLen + 12
  }

  method EncodePng(t: CrcTable, gray: seq<Byte>, w: nat, h: nat) returns (png: seq<Byte>)
    requires t.Valid() && 0 < w < 0x1_0000_0000 && 0 < h < 0x1_0000_0000 && |gray| == w * h
    requires |Zlib(Rows(gray, w, h))| < 0x1_0000_0000
    modifies t, t.table
    ensures t.Valid()
    ensures png == PngFile(gray, w, h) && ReadPng(png) == Some(Image(w, h, gray))
    ensures |png| <= Capacity(w * h + h)
  {
    hide Rows, Zlib, Chunk, ReadPng, HeaderData;
    var raw := PutRows(gray, w, h);
    var z := PutZlib(raw);
    HeaderSize(w, h);
    png := PutChunk(t, SIGNATURE, IHDR, HeaderData(w, h));
    png := PutChunk(t, png, IDAT, z);
    png := PutChunk(t, png, IEND, []);
    var a, b, c := Chunk(IHDR, HeaderData(w, h)), Chunk(IDAT, z), Chunk(IEND, []);
    assert png == SIGNATURE + (a + (b + c));
    PngReads(gray, w, h);
    FileSize(raw, a, b, c, w, h);
  }

  lemma FileSize(raw: seq<Byte>, a: seq<Byte>, b: seq<Byte>, c: seq<Byte>, w: nat, h: nat)
    requires w < 0x1_0000_0000 && h < 0x1_0000_0000 && |HeaderData(w, h)| == 13 && |Zlib(raw)| < 0x1_0000_0000
    requires a == Chunk(IHDR, HeaderData(w, h)) && b == Chunk(IDAT, Zlib(raw)) && c == Chunk(IEND, [])
    ensures 8 + |a| + |b| + |c| <= Capacity(|raw|)
  {
    StoredLength(raw);
  }
}
