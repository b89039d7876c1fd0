/** Bytes, and the bits of small numbers, least significant first. */
module Bits {
  type Byte = b: int | 0 <= b < 256

  function Pow2(n: nat): (r: nat)
    ensures r > 0
  {
    if n == 0 then 1 else 2 * Pow2(n - 1)
  }

  /** The n low bits of v. */
  function LowBits(v: nat, n: nat): (r: seq<bool>)
    ensures |r| == n
    decreases n
  {
    if n == 0 then [] else [v % 2 == 1] + LowBits(v / 2, n - 1)
  }

  /** The number a run of bits writes. */
  function BitsValue(b: seq<bool>): nat {
    if b == [] then 0 else (if b[0] then 1 else 0) + 2 * BitsValue(b[1..])
  }

  function ByteBits(bs: seq<Byte>): (r: seq<bool>)
    ensures |r| == 8 * |bs|
  {
    if bs == [] then [] else LowBits(bs[0], 8) + ByteBits(bs[1..])
  }

  lemma {:induction false} ValueOfBits(v: nat, n: nat)
    requires v < Pow2(n)
    ensures BitsValue(LowBits(v, n)) == v
  {
    if n > 0 {
      ValueOfBits(v / 2, n - 1);
      assert LowBits(v, n)[1..] == LowBits(v / 2, n - 1);
    }
  }

  /** Bits added above the n bits of v. */
  lemma {:induction false} BitsAbove(v: nat, n: nat, c: nat, k: nat)
    requires v < Pow2(n)
    ensures LowBits(v + c * Pow2(n), n + k) == LowBits(v, n) + LowBits(c, k)
    decreases n
  {
    if n == 0 {
      assert LowBits(v, 0) + LowBits(c, k) == LowBits(c, k);
      assert c * Pow2(0) == c;
    } else {
      var p := Pow2(n - 1);
      HalfOf(v, c, p);
      BitsAbove(v / 2, n - 1, c, k);
      assert v + c * Pow2(n) == v + 2 * (c * p);
    }
  }

  lemma HalfOf(v: nat, c: nat, p: nat)
    ensures c * (2 * p) == 2 * (c * p)
    ensures (v + 2 * (c * p)) / 2 == v / 2 + c * p && (v + 2 * (c * p)) % 2 == v % 2
  {}

  lemma Pow2Of8()
    ensures Pow2(5) == 32 && Pow2(8) == 256
  {}

  /** The lowest byte of a number, and the rest. */
  lemma LowByte(v: nat, k: nat)
    ensures LowBits(v, 8 + k) == LowBits(v % 256, 8) + LowBits(v / 256, k)
  {
    Pow2Of8();
    BitsAbove(v % 256, 8, v / 256, k);
    assert v == v % 256 + v / 256 * 256;
  }

  lemma {:induction false} ByteBitsAppend(a: seq<Byte>, b: seq<Byte>)
    ensures ByteBits(a + b) == ByteBits(a) + ByteBits(b)
  {
    if a == [] {
      assert a + b == b;
    } else {
      assert (a + b)[0] == a[0] && (a + b)[1..] == a[1..] + b;
      ByteBitsAppend(a[1..], b);
    }
  }
}
