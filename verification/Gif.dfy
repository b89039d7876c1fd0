/** The captcha's GIF encoder (gif_byte, gif_code, encode_gif of
    src/utils/captcha.c) against a standard GIF reader. */
module Gif {
  import opened Options
  import opened Ascii
  import opened Bits

  const CLEAR: nat := 16
  const END: nat := 17
  const MIN_CODE_SIZE: Byte := 4

  // ---- A standard reader --------------------------------------------------------------------

  // Its numbers are those of the format for 16 colors: codes 16 and 17 clear and end, strings
  // start at 18, codes at five bits.

  /** Data sub-blocks up to the empty one: their bytes, and what follows. */
  function Unblock(s: seq<Byte>): Option<(seq<Byte>, seq<Byte>)>
    decreases |s|
  {
    if s == [] || s[0] >= |s| then None
    else if s[0] == 0 then Some(([], s[1..]))
    else
      match Unblock(s[1 + s[0]..])
      case None => None
      case Some((data, rest)) => Some((s[1..1 + s[0]] + data, rest))
  }

  /** The LZW decoder's state: the strings added since the last clear code, the
      string of the previous code (none right after a clear), the code width. */
  datatype Lzw = Lzw(table: seq<seq<nat>>, prev: seq<nat>, width: nat)

  const FRESH: Lzw := Lzw([], [], 5)

  /** The string a code stands for: [] if it stands for none. */
  function Entry(st: Lzw, code: nat): seq<nat> {
    if code < 16 then [code]
    else if code < 18 then []
    else if code - 18 < |st.table| then st.table[code - 18]
    else if code - 18 == |st.table| && st.prev != [] then st.prev + [st.prev[0]]
    else []
  }

  /** Every code but the first after a clear adds a string; the width grows when
      the table fills the codes it can name. */
  function Learn(st: Lzw, entry: seq<nat>): Lzw
    requires entry != []
  {
    var table := if st.prev == [] then st.table else st.table + [st.prev + [entry[0]]];
    var width := if 18 + |table| == Pow2(st.width) && st.width < 12 then st.width + 1 else st.width;
    Lzw(table, entry, width)
  }

  /** The pixels of an LZW stream: GIF89a, Appendix F. */
  function Decode(bits: seq<bool>, st: Lzw): Option<seq<nat>>
    decreases |bits|
  {
    if st.width == 0 || |bits| < st.width then None
    else
      var code, rest := BitsValue(bits[..st.width]), bits[st.width..];
      if code == 16 then Decode(rest, FRESH)
      else if code == 17 then Some([])
      else
        var entry := Entry(st, code);
        if entry == [] then None
        else
          match Decode(rest, Learn(st, entry))
          case None => None
          case Some(more) => Some(entry + more)
  }

  // ---- The code stream ---------------------------------------------------------------------------

  const RUN: nat := 12     // pixels between clear codes
  const CODE_BITS: nat := 5

  function CodeBits(codes: seq<nat>): (r: seq<bool>)
    ensures |r| == CODE_BITS * |codes|
  {
    if codes == [] then [] else LowBits(codes[0], CODE_BITS) + CodeBits(codes[1..])
  }

  /** The codes from pixel i on: a clear every RUN pixels, an end at the end. */
  function Codes(px: seq<nat>, i: nat): seq<nat>
    requires i <= |px|
    decreases |px| - i
  {
    if i == |px| then [END]
    else (if i % RUN == 0 then [CLEAR] else []) + [px[i]] + Codes(px, i + 1)
  }

  predicate Pixels(px: seq<nat>) { forall i :: 0 <= i < |px| ==> px[i] < 16 }

  /** Where a decoder is before pixel i: it has added a string for every pixel
      since the clear but the first, so at most ten are in the table. */
  predicate InRun(st: Lzw, i: nat) {
    i % RUN != 0 ==> st.width == CODE_BITS && st.prev != [] && |st.table| == i % RUN - 1
  }

  lemma ReadsCode(code: nat, rest: seq<bool>, st: Lzw)
    requires st.width == CODE_BITS && code < 32
    ensures var bits := LowBits(code, CODE_BITS) + rest;
            BitsValue(bits[..st.width]) == code && bits[st.width..] == rest && |bits| >= st.width
  {
    Pow2Of8();
    var bits := LowBits(code, CODE_BITS) + rest;
    assert bits[..CODE_BITS] == LowBits(code, CODE_BITS);
    ValueOfBits(code, CODE_BITS);
  }

  lemma ReadsClear(rest: seq<bool>, st: Lzw)
    requires st.width == CODE_BITS
    ensures Decode(LowBits(CLEAR, CODE_BITS) + rest, st) == Decode(rest, FRESH)
  {
    hide LowBits, BitsValue;
    ReadsCode(CLEAR, rest, st);
  }

  lemma ReadsEnd(rest: seq<bool>, st: Lzw)
    requires st.width == CODE_BITS
    ensures Decode(LowBits(END, CODE_BITS) + rest, st) == Some([])
  {
    hide LowBits, BitsValue;
    ReadsCode(END, rest, st);
  }

  lemma ReadsPixel(p: nat, rest: seq<bool>, st: Lzw)
    requires st.width == CODE_BITS && p < 16
    ensures Decode(LowBits(p, CODE_BITS) + rest, st)
            == match Decode(rest, Learn(st, [p])) case None => None case Some(more) => Some([p] + more)
  {
    hide LowBits, BitsValue, Learn;
    ReadsCode(p, rest, st);
  }

  /** A pixel code keeps the decoder in its run, the width unchanged. */
  lemma PixelLearns(st: Lzw, i: nat, p: nat)
    requires st.width == CODE_BITS
    requires if i % RUN == 0 then st == FRESH else InRun(st, i)
    ensures InRun(Learn(st, [p]), i + 1) && Learn(st, [p]).width == CODE_BITS
  {
    Pow2Of8();
    assert (i + 1) % RUN == if i % RUN == RUN - 1 then 0 else i % RUN + 1;
  }

  /** Decoding the codes, whatever padding follows, gives the pixels in order,
      and no code ever widens: every step is read at CODE_BITS. */
  lemma {:induction false} CodesDecode(px: seq<nat>, i: nat, st: Lzw, pad: seq<bool>)
    requires i <= |px| && Pixels(px) && st.width == CODE_BITS && InRun(st, i)
    ensures Decode(CodeBits(Codes(px, i)) + pad, st) == Some(px[i..])
    decreases |px| - i
  {
    hide Decode, LowBits, Learn, InRun, CodeBits;
    if i == |px| {
      assert [END] + [] == Codes(px, i);
      OneCode(END, [], pad);
      ReadsEnd(CodeBits([]) + pad, st);
    } else {
      var rest := CodeBits(Codes(px, i + 1)) + pad;
      var st' := if i % RUN == 0 then FRESH else st;
      var tail := [px[i]] + Codes(px, i + 1);
      if i % RUN == 0 {
        assert Codes(px, i) == [CLEAR] + tail;
        OneCode(CLEAR, tail, pad);
        ReadsClear(CodeBits(tail) + pad, st);
      } else {
        assert Codes(px, i) == tail;
      }
      OneCode(px[i], Codes(px, i + 1), pad);
      ReadsPixel(px[i], rest, st');
      PixelLearns(st', i, px[i]);
      CodesDecode(px, i + 1, Learn(st', [px[i]]), pad);
      assert [px[i]] + px[i + 1..] == px[i..];
    }
  }

  lemma OneCode(c: nat, codes: seq<nat>, pad: seq<bool>)
    ensures CodeBits([c] + codes) + pad == LowBits(c, CODE_BITS) + (CodeBits(codes) + pad)
  {
    hide LowBits;
    assert ([c] + codes)[1..] == codes;
    Assoc(LowBits(c, CODE_BITS), CodeBits(codes), pad);
  }

  // ---- Sub-blocks -------------------------------------------------------------------------------------

  const BLOCK: nat := 255

  /** Data as full sub-blocks and one shorter, as many as it takes. */
  function Blocks(data: seq<Byte>): (r: seq<Byte>)
    decreases |data|
  {
    if data == [] then []
    else if |data| <= BLOCK then [|data|] + data
    else [BLOCK] + (data[..BLOCK] + Blocks(data[BLOCK..]))
  }

  lemma OneBlock(chunk: seq<Byte>, rest: seq<Byte>)
    requires 0 < |chunk| <= BLOCK && rest != []
    ensures Unblock([|chunk|] + (chunk + rest))
            == match Unblock(rest) case None => None case Some((d, r)) => Some((chunk + d, r))
  {
    var s := [|chunk|] + (chunk + rest);
    assert s[0] < |s|;
    assert s[1..1 + s[0]] == chunk && s[1 + s[0]..] == rest;
  }

  /** Unpacking the sub-blocks gives the data, up to the empty block. */
  lemma {:induction false} BlocksUnpack(data: seq<Byte>, rest: seq<Byte>)
    ensures Unblock(Blocks(data) + ([0] + rest)) == Some((data, rest))
    decreases |data|
  {
    hide Unblock;
    var tail := [0] + rest;
    if data == [] {
      assert [] + tail == tail;
      EmptyBlock(rest);
    } else if |data| <= BLOCK {
      Assoc([|data|], data, tail);
      OneBlock(data, tail);
      EmptyBlock(rest);
      assert data + [] == data;
    } else {
      var chunk, more := data[..BLOCK], Blocks(data[BLOCK..]);
      BlocksUnpack(data[BLOCK..], rest);
      OneBlock(chunk, more + tail);
      Assoc([BLOCK], chunk + more, tail);
      Assoc(chunk, more, tail);
      assert chunk + data[BLOCK..] == data;
    }
  }

  lemma EmptyBlock(rest: seq<Byte>)
    ensures Unblock([0] + rest) == Some(([], rest))
  {
    assert ([0] + rest)[1..] == rest;
  }

  lemma {:induction false} BlocksLength(data: seq<Byte>)
    ensures |Blocks(data)| <= |data| + |data| / BLOCK + 1
    decreases |data|
  {
    if |data| > BLOCK { BlocksLength(data[BLOCK..]); }
  }

  /** A full block in front. */
  lemma {:induction false} BlocksAppend(full: seq<Byte>, data: seq<Byte>)
    requires |full| % BLOCK == 0
    ensures Blocks(full + data) == Blocks(full) + Blocks(data)
    decreases |full|
  {
    if full == [] {
      assert full + data == data;
    } else {
      var chunk := full[..BLOCK];
      assert (full + data)[..BLOCK] == chunk && (full + data)[BLOCK..] == full[BLOCK..] + data;
      BlocksAppend(full[BLOCK..], data);
      FirstBlock(full, chunk);
      FirstBlock(full + data, chunk);
      Assoc(chunk, Blocks(full[BLOCK..]), Blocks(data));
      Assoc([BLOCK], chunk + Blocks(full[BLOCK..]), Blocks(data));
    }
  }

  lemma FirstBlock(data: seq<Byte>, chunk: seq<Byte>)
    requires |data| >= BLOCK && data[..BLOCK] == chunk
    ensures Blocks(data) == [BLOCK] + (chunk + Blocks(data[BLOCK..]))
  {
    if |data| == BLOCK {
      assert chunk == data && data[BLOCK..] == [];
      assert chunk + [] == chunk;
    }
  }

  // ---- The writer ------------------------------------------------------------------------------------------

  /** Full sub-blocks are out, the rest of the data waits in `block`. */
  ghost predicate Packed(out: seq<Byte>, start: seq<Byte>, block: seq<Byte>, data: seq<Byte>) {
    && |block| == |data| % BLOCK && block == data[|data| - |block|..]
    && out == start + Blocks(data[..|data| - |block|])
  }

  lemma PackedNext(out: seq<Byte>, start: seq<Byte>, block: seq<Byte>, data: seq<Byte>, b: Byte)
    requires Packed(out, start, block, data)
    ensures var more := block + [b];
            if |more| == BLOCK then Packed(out + ([BLOCK] + more), start, [], data + [b])
            else Packed(out, start, more, data + [b])
  {
    hide Blocks;
    var full, more, all := data[..|data| - |block|], block + [b], data + [b];
    NextFull(|data|, |block|);
    FullAnd(data, block, b);
    if |more| == BLOCK {
      BlocksAppend(full, more);
      OnlyBlock(more);
      assert all[..|all|] == all;
      Assoc(start, Blocks(full), [BLOCK] + more);
    }
  }

  lemma NextFull(n: nat, k: nat)
    requires k == n % BLOCK
    ensures (n - k) % BLOCK == 0 && (n + 1) % BLOCK == if k + 1 == BLOCK then 0 else k + 1
  {}

  lemma FullAnd(data: seq<Byte>, block: seq<Byte>, b: Byte)
    requires |block| <= |data| && block == data[|data| - |block|..]
    ensures var full, more, all := data[..|data| - |block|], block + [b], data + [b];
            all == full + more && all[..|all| - |more|] == full && all[|all| - |more|..] == more
  {}

  /** The last sub-block, when there is one, completes the data. */
  lemma PackedLast(out: seq<Byte>, start: seq<Byte>, block: seq<Byte>, data: seq<Byte>)
    requires Packed(out, start, block, data)
    ensures |block| < BLOCK
    ensures start + Blocks(data) == if |block| > 0 then out + ([|block|] + block) else out
  {
    hide Blocks;
    var full := data[..|data| - |block|];
    LastBlock(data, block);
    Assoc(start, Blocks(full), Blocks(block));
  }

  class GifWriter {
    var out: seq<Byte>
    var block: seq<Byte>
    var bits: nat
    var nbits: nat
    ghost var start: seq<Byte>   // what `out` held before the image data
    ghost var data: seq<Byte>    // the image data given to PutByte

    /** Full sub-blocks are out, the rest waits in `block`; fewer than eight
        bits wait in `bits`, with none set above them. */
    ghost predicate Valid()
      reads this
    {
      Packed(out, start, block, data) && nbits < 8 && bits < Pow2(nbits)
    }

    /** All bits written so far. */
    ghost function Written(): seq<bool>
      reads this
    {
      ByteBits(data) + LowBits(bits, nbits)
    }

    constructor (header: seq<Byte>)
      ensures Valid() && out == header && start == header && data == [] && bits == 0 && nbits == 0
    {
      out, block, bits, nbits := header, [], 0, 0;
      start, data := header, [];
    }

    method PutByte(b: Byte)
      requires Packed(out, start, block, data)
      modifies this`out, this`block, this`data
      ensures Packed(out, start, block, data) && data == old(data) + [b]
    {
      hide Packed;
      PackedNext(out, start, block, data, b);
      block := block + [b];
      data := data + [b];
      if |block| == BLOCK {
        out := out + ([BLOCK] + block);
        block := [];
      }
    }

    method PutCode(code: nat)
      requires Valid() && code < 32
      modifies this`out, this`block, this`data, this`bits, this`nbits
      ensures Valid() && Written() == old(Written()) + LowBits(code, CODE_BITS)
    {
      hide LowBits, ByteBits, Packed, Pow2;
      BitsAbove(bits, nbits, code, CODE_BITS);
      Assoc(ByteBits(data), LowBits(bits, nbits), LowBits(code, CODE_BITS));
      ghost var all := old(Written()) + LowBits(code, CODE_BITS);
      CodeFits(bits, nbits, code);
      bits := bits + code * Pow2(nbits);
      nbits := nbits + CODE_BITS;
      while nbits >= 8
        invariant nbits < 13 && bits < Pow2(nbits)
        invariant Packed(out, start, block, data) && Written() == all
      {
        LowByte(bits, nbits - 8);
        ByteBitsAppend(data, [bits % 256]);
        OneByte(bits % 256);
        Assoc(ByteBits(data), LowBits(bits % 256, 8), LowBits(bits / 256, nbits - 8));
        Shift(bits, nbits);
        PutByte(bits % 256);
        bits := bits / 256;
        nbits := nbits - 8;
      }
    }
  }

  lemma OnlyBlock(block: seq<Byte>)
    requires |block| == BLOCK
    ensures Blocks(block) == [BLOCK] + block
  {}

  lemma OneByte(b: Byte)
    ensures ByteBits([b]) == LowBits(b, 8)
  {
    assert [b][1..] == [];
    assert LowBits(b, 8) + [] == LowBits(b, 8);
  }

  lemma CodeFits(bits: nat, nbits: nat, code: nat)
    requires bits < Pow2(nbits) && code < 32
    ensures bits + code * Pow2(nbits) < Pow2(nbits + CODE_BITS)
  {
    var p := Pow2(nbits);
    assert Pow2(nbits + 5) == 32 * p by {
      assert Pow2(nbits + 1) == 2 * p && Pow2(nbits + 2) == 4 * p && Pow2(nbits + 3) == 8 * p;
      assert Pow2(nbits + 4) == 16 * p;
    }
    assert code * p <= 31 * p;
  }

  lemma Shift(bits: nat, nbits: nat)
    requires nbits >= 8 && bits < Pow2(nbits)
    ensures bits / 256 < Pow2(nbits - 8)
  {
    var p := Pow2(nbits - 8);
    assert Pow2(nbits) == 256 * p by {
      assert Pow2(nbits - 7) == 2 * p && Pow2(nbits - 6) == 4 * p && Pow2(nbits - 5) == 8 * p;
      assert Pow2(nbits - 4) == 16 * p && Pow2(nbits - 3) == 32 * p && Pow2(nbits - 2) == 64 * p;
      assert Pow2(nbits - 1) == 128 * p;
    }
  }

  // ---- The whole file -----------------------------------------------------------------------------------------

  datatype Image = Image(width: nat, height: nat, palette: seq<Byte>, colors: seq<nat>)

  function U16(lo: int, hi: int): int { lo + 256 * hi }

  function Le16(v: nat): (r: seq<Byte>)
    requires v < 65536
    ensures |r| == 2 && U16(r[0], r[1]) == v
  {
    [v % 256, v / 256]
  }

  /** Sixteen grays, three equal bytes each. */
  function Palette(n: nat): (r: seq<Byte>)
    requires n <= 16
    ensures |r| == 3 * n
    ensures forall i :: 0 <= i < 3 * n ==> r[i] == i / 3 * 17
  {
    if n == 0 then [] else Palette(n - 1) + [(n - 1) * 17, (n - 1) * 17, (n - 1) * 17]
  }

  const SIGNATURE: seq<Byte> := [71, 73, 70, 56, 55, 97]    // GIF87a
  const TABLE_OF_16: Byte := 0xB3
  const IMAGE: Byte := 0x2C
  const TRAILER: Byte := 0x3B
  const HEADER_LEN: nat := 72

  /** Screen descriptor, color table, image descriptor, LZW minimum code size. */
  function Header(w: nat, h: nat): (r: seq<Byte>)
    requires w < 65536 && h < 65536
    ensures |r| == HEADER_LEN
  {
    SIGNATURE + Le16(w) + Le16(h) + [TABLE_OF_16, 0, 0] + Palette(16)
    + [IMAGE, 0, 0, 0, 0] + Le16(w) + Le16(h) + [0] + [MIN_CODE_SIZE]
  }

  predicate HeaderOk(s: seq<Byte>) {
    && |s| >= 72 && s[..6] == [71, 73, 70, 56, 55, 97] && s[10] == 0xB3 && s[61] == 0x2C
    && s[66..70] == s[6..10] && s[70] == 0
  }

  /** A reader for files with one image that covers the screen and a 16-entry color table. */
  function ReadGif(s: seq<Byte>): Option<Image> {
    if !HeaderOk(s) then None
    else
      match Unblock(s[72..])
      case None => None
      case Some((data, rest)) =>
        if rest != [0x3B] then None
        else
          var size: int := s[71];
          match Decode(ByteBits(data), Lzw([], [], size + 1))
          case None => None
          case Some(px) => Some(Image(U16(s[6], s[7]), U16(s[8], s[9]), s[13..61], px))
  }

  lemma HeaderReads(w: nat, h: nat, rest: seq<Byte>)
    requires w < 65536 && h < 65536
    ensures var s := Header(w, h) + rest;
            && HeaderOk(s) && s[71] == MIN_CODE_SIZE && U16(s[6], s[7]) == w && U16(s[8], s[9]) == h
            && s[13..61] == Palette(16) && s[HEADER_LEN..] == rest
  {
    hide Palette;
    var a := SIGNATURE + Le16(w) + Le16(h) + [TABLE_OF_16, 0, 0];
    var b := [IMAGE, 0, 0, 0, 0] + Le16(w) + Le16(h) + [0] + [MIN_CODE_SIZE];
    var s := Header(w, h) + rest;
    assert |a| == 13 && |b| == 11;
    assert s == a + (Palette(16) + (b + rest));
    assert forall i :: 0 <= i < 13 ==> s[i] == a[i];
    assert forall i :: 61 <= i < 72 ==> s[i] == b[i - 61];
    assert a[6..10] == b[5..9];
    assert s[6..10] == a[6..10];
    assert s[66..70] == b[5..9];
  }

  lemma FileReads(w: nat, h: nat, data: seq<Byte>, px: seq<nat>, pad: seq<bool>)
    requires w < 65536 && h < 65536 && Pixels(px)
    requires ByteBits(data) == CodeBits(Codes(px, 0)) + pad
    ensures ReadGif(Header(w, h) + (Blocks(data) + [0, TRAILER])) == Some(Image(w, h, Palette(16), px))
  {
    hide Palette, Header, Blocks, Decode, Unblock, CodeBits, ByteBits;
    var rest := Blocks(data) + [0, TRAILER];
    HeaderReads(w, h, rest);
    assert [0] + [TRAILER] == [0, TRAILER];
    BlocksUnpack(data, [TRAILER]);
    CodesDecode(px, 0, FRESH, pad);
    assert px[0..] == px;
  }

  lemma CeilNext(i: nat)
    ensures (i + 12) / 12 == (i + 11) / 12 + if i % 12 == 0 then 1 else 0
  {}

  lemma {:induction false} CodesLength(px: seq<nat>, i: nat)
    requires i <= |px|
    ensures |Codes(px, i)| == 1 + |px| - i + ((|px| + 11) / 12 - (i + 11) / 12)
    decreases |px| - i
  {
    if i < |px| {
      CodesLength(px, i + 1);
      CeilNext(i);
    }
  }

  /** The size encode_gif allocates for an image of this many pixels. */
  function Capacity(pixels: nat): nat {
    var codes := pixels + pixels / RUN + 3;
    var data := codes * CODE_BITS / 8 + 2;
    13 + 48 + 10 + 1 + data + data / 255 + 2 + 2
  }

  lemma WithinCapacity(n: nat, codes: nat, d: nat)
    requires codes == 1 + n + (n + 11) / 12 && 8 * d <= 5 * codes + 7
    ensures HEADER_LEN + (d + d / BLOCK + 1) + 2 <= Capacity(n)
  {
    var c := n + n / RUN + 3;
    assert codes <= c - 1;
    assert d <= c * 5 / 8 + 2;
  }

  function Shades(gray: seq<Byte>): (r: seq<nat>)
    ensures |r| == |gray| && Pixels(r)
    ensures forall i :: 0 <= i < |gray| ==> r[i] == gray[i] / 16
  {
    seq(|gray|, i requires 0 <= i < |gray| => gray[i] / 16)
  }

  lemma {:induction false} CodeBitsAppend(a: seq<nat>, b: seq<nat>)
    ensures CodeBits(a + b) == CodeBits(a) + CodeBits(b)
  {
    hide LowBits;
    if a == [] {
      assert a + b == b;
    } else {
      assert (a + b)[0] == a[0] && (a + b)[1..] == a[1..] + b;
      CodeBitsAppend(a[1..], b);
      Assoc(LowBits(a[0], CODE_BITS), CodeBits(a[1..]), CodeBits(b));
    }
  }

  lemma CodeBitsSnoc(a: seq<nat>, c: nat)
    ensures CodeBits(a + [c]) == CodeBits(a) + LowBits(c, CODE_BITS)
  {
    hide LowBits;
    CodeBitsAppend(a, [c]);
    assert [c][1..] == [];
    assert CodeBits([c]) == LowBits(c, CODE_BITS) + CodeBits([]);
  }

  /** The codes of a whole image, written one by one. */
  method PutImage(g: GifWriter, gray: seq<Byte>)
    requires g.Valid() && g.data == [] && g.nbits == 0
    modifies g
    ensures g.Valid() && g.Written() == CodeBits(Codes(Shades(gray), 0)) && g.start == old(g.start)
  {
    hide LowBits, ByteBits, CodeBits, Pow2, Packed;
    ghost var px, done := Shades(gray), [];
    NothingWritten(g);
    for i := 0 to |gray|
      invariant g.Valid() && g.start == old(g.start)
      invariant g.Written() == CodeBits(done) && done + Codes(px, i) == Codes(px, 0)
    {
      hide g.Valid, g.Written, Codes;
      CodesNext(px, i);
      if i % RUN == 0 {
        g.PutCode(CLEAR);
        CodeBitsSnoc(done, CLEAR);
        Assoc(done, [CLEAR], [px[i]] + Codes(px, i + 1));
        done := done + [CLEAR];
      }
      g.PutCode(gray[i] / 16);
      CodeBitsSnoc(done, px[i]);
      Assoc(done, [px[i]], Codes(px, i + 1));
      done := done + [px[i]];
    }
    g.PutCode(END);
    CodeBitsSnoc(done, END);
  }

  lemma CodesNext(px: seq<nat>, i: nat)
    requires i < |px|
    ensures Codes(px, i) == (if i % RUN == 0 then [CLEAR] + ([px[i]] + Codes(px, i + 1)) else [px[i]] + Codes(px, i + 1))
  {}

  lemma NothingWritten(g: GifWriter)
    requires g.data == [] && g.nbits == 0
    ensures g.Written() == CodeBits([])
  {}

  /** The last bits, padded with zeros to a byte. */
  method PadBits(g: GifWriter) returns (ghost pad: seq<bool>)
    requires g.Valid()
    modifies g`out, g`block, g`data
    ensures ByteBits(g.data) == old(g.Written()) + pad && |pad| < 8
    ensures Packed(g.out, g.start, g.block, g.data)
  {
    hide LowBits, ByteBits, Packed, Pow2;
    pad := [];
    if g.nbits > 0 {
      SmallBits(g.bits, g.nbits);
      pad := LowBits(0, 8 - g.nbits);
      BitsAbove(g.bits, g.nbits, 0, 8 - g.nbits);
      ByteBitsAppend(g.data, [g.bits]);
      OneByte(g.bits);
      Assoc(ByteBits(g.data), LowBits(g.bits, g.nbits), pad);
      g.PutByte(g.bits);
    } else {
      NoBits(g.bits, ByteBits(g.data));
    }
  }

  /** The last bits and the last sub-block, then the end of the data and of the file. */
  method Finish(g: GifWriter) returns (ghost pad: seq<bool>)
    requires g.Valid()
    modifies g`out, g`block, g`data
    ensures ByteBits(g.data) == old(g.Written()) + pad && |pad| < 8
    ensures g.out == g.start + (Blocks(g.data) + [0, TRAILER])
  {
    hide ByteBits, Blocks, Packed, LowBits, Pow2;
    pad := PadBits(g);
    ghost var data := g.data;
    PackedLast(g.out, g.start, g.block, g.data);
    if |g.block| > 0 { g.out := g.out + ([|g.block|] + g.block); }
    assert g.out == g.start + Blocks(data);
    g.out := g.out + [0];
    g.out := g.out + [TRAILER];
    Assoc(g.start + Blocks(data), [0], [TRAILER]);
    assert [0] + [TRAILER] == [0, TRAILER];
    Assoc(g.start, Blocks(data), [0, TRAILER]);
  }

  lemma LastBlock(data: seq<Byte>, block: seq<Byte>)
    requires |block| == |data| % BLOCK && block == data[|data| - |block|..]
    ensures var full := data[..|data| - |block|];
            Blocks(data) == Blocks(full) + Blocks(block)
            && Blocks(full) + (if block == [] then [] else [|block|] + block) == Blocks(data)
  {
    hide Blocks;
    var full := data[..|data| - |block|];
    assert data == full + block;
    BlocksAppend(full, block);
    ShortBlock(block);
  }

  lemma SmallBits(bits: nat, nbits: nat)
    requires nbits < 8 && bits < Pow2(nbits)
    ensures bits < 256
  {
    if nbits > 0 { SmallBits(bits / 2, nbits - 1); }
    Grows(nbits);
  }

  lemma {:induction false} Grows(n: nat)
    requires n < 8
    ensures Pow2(n) <= 128
  {
    assert Pow2(0) == 1 && Pow2(1) == 2 && Pow2(2) == 4 && Pow2(3) == 8;
    assert Pow2(4) == 16 && Pow2(5) == 32 && Pow2(6) == 64 && Pow2(7) == 128;
  }

  lemma NoBits(v: nat, b: seq<bool>)
    ensures b + LowBits(v, 0) + [] == b
  {}

  lemma ShortBlock(block: seq<Byte>)
    requires |block| < BLOCK
    ensures Blocks(block) == if block == [] then [] else [|block|] + block
  {}

  /** The GIF round trip: the reader above gets the size, the palette and, pixel by
      pixel, the top four bits of every gray; and the buffer never overflows. */
  method EncodeGif(gray: seq<Byte>, w: nat, h: nat) returns (out: seq<Byte>)
    requires w < 65536 && h < 65536 && |gray| == w * h
    ensures ReadGif(out) == Some(Image(w, h, Palette(16), Shades(gray)))
    ensures |out| <= Capacity(|gray|)
  {
    hide ReadGif, Palette, Blocks, Codes, CodeBits, ByteBits, Capacity, Shades, Header, Packed, LowBits, Pow2;
    var g := new GifWriter(Header(w, h));
    PutImage(g, gray);
    var pad := Finish(g);
    ghost var px := Shades(gray);
    FileReads(w, h, g.data, px, pad);
    CodesLength(px, 0);
    BlocksLength(g.data);
    WithinCapacity(|gray|, |Codes(px, 0)|, |g.data|);
    out := g.out;
  }
}
