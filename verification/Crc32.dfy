/** The table-driven CRC-32 of src/utils/captcha.c against the bit-by-bit one
    (section 3.4 of RFC 2083). */
module Crc32 {
  import opened Bits

  const POLY: bv32 := 0xEDB88320

  // ---- Words: the few laws of exclusive or and shifting that the proof uses -----------------

  function Xor(a: bv32, b: bv32): bv32 { a ^ b }

  function Half(a: bv32): bv32 { a >> 1 }

  function Not(a: bv32): bv32 { !a }

  predicate Odd(a: bv32) { a & 1 != 0 }

  lemma OddXor(a: bv32, b: bv32)
    ensures Odd(Xor(a, b)) == (Odd(a) != Odd(b))
  {}

  lemma HalfXor(a: bv32, b: bv32)
    ensures Half(Xor(a, b)) == Xor(Half(a), Half(b))
  {}

  lemma XorAssoc(a: bv32, b: bv32, c: bv32)
    ensures Xor(Xor(a, b), c) == Xor(a, Xor(b, c))
  {}

  lemma XorSwap(a: bv32, b: bv32, c: bv32, d: bv32)
    ensures Xor(Xor(a, b), Xor(c, d)) == Xor(Xor(a, c), Xor(b, d))
  {
    hide Xor;
    XorAssoc(a, b, Xor(c, d));
    XorAssoc(b, c, d);
    XorComm(b, c);
    XorAssoc(c, b, d);
    XorAssoc(a, c, Xor(b, d));
  }

  lemma XorComm(a: bv32, b: bv32)
    ensures Xor(a, b) == Xor(b, a)
  {}

  lemma XorZero(a: bv32)
    ensures Xor(a, 0) == a && Xor(0, a) == a && Xor(a, a) == 0
  {}

  // ---- The definition: one message bit at a time ---------------------------------------------

  function Mask(bit: bool): bv32 { if bit then 0xEDB88320 else 0 }

  /** The register takes in one message bit. */
  function FeedBit(c: bv32, bit: bool): bv32 { Xor(Mask(Odd(c) != bit), Half(c)) }

  /** The n low bits of b, lowest first. */
  function FeedBits(c: bv32, b: bv32, n: nat): bv32
    decreases n
  {
    if n == 0 then c else FeedBits(FeedBit(c, Odd(b)), Half(b), n - 1)
  }

  function Widen(b: Byte): bv32 { (b as bv8) as bv32 }

  function Feed(c: bv32, bytes: seq<Byte>): bv32
    decreases |bytes|
  {
    if bytes == [] then c else Feed(FeedBits(c, Widen(bytes[0]), 8), bytes[1..])
  }

  const ALL_ONES: bv32 := 0xFFFFFFFF

  /** The CRC of a buffer: the register starts and ends complemented. */
  function Crc(bytes: seq<Byte>): bv32 { Not(Feed(ALL_ONES, bytes)) }

  // ---- The table ---------------------------------------------------------------------------------

  /** A step of the loop that fills the table. */
  function Step(c: bv32): bv32 { if Odd(c) then Xor(POLY, Half(c)) else Half(c) }

  function Steps(c: bv32, n: nat): bv32
    decreases n
  {
    if n == 0 then c else Steps(Step(c), n - 1)
  }

  lemma StepIs(c: bv32)
    ensures Step(c) == Xor(Mask(Odd(c)), Half(c))
  {
    hide Xor, Half, Odd;
    XorZero(Half(c));
  }

  lemma MaskXor(p: bool, q: bool)
    ensures Mask(p != q) == Xor(Mask(p), Mask(q))
  {
    hide Xor;
    XorZero(POLY);
    XorZero(0);
  }

  lemma StepLinear(a: bv32, b: bv32)
    ensures Step(Xor(a, b)) == Xor(Step(a), Step(b))
  {
    hide Xor, Half, Odd, Step, Mask;
    StepIs(Xor(a, b));
    StepIs(a);
    StepIs(b);
    HalfXor(a, b);
    OddXor(a, b);
    MaskXor(Odd(a), Odd(b));
    XorSwap(Mask(Odd(a)), Mask(Odd(b)), Half(a), Half(b));
  }

  lemma {:induction false} StepsLinear(a: bv32, b: bv32, n: nat)
    ensures Steps(Xor(a, b), n) == Xor(Steps(a, n), Steps(b, n))
    decreases n
  {
    hide Step, Xor;
    if n > 0 {
      StepLinear(a, b);
      StepsLinear(Step(a), Step(b), n - 1);
    }
  }

  /** One step of the register with the message folded in takes in its lowest bit. */
  lemma StepFeeds(c: bv32, b: bv32)
    ensures Step(Xor(c, b)) == Xor(FeedBit(c, Odd(b)), Half(b))
  {
    hide Xor, Half, Odd, Step, Mask;
    StepIs(Xor(c, b));
    HalfXor(c, b);
    OddXor(c, b);
    XorAssoc(Mask(Odd(c) != Odd(b)), Half(c), Half(b));
  }

  function Shr(b: bv32, n: nat): bv32
    decreases n
  {
    if n == 0 then b else Shr(Half(b), n - 1)
  }

  lemma {:induction false} StepsFeed(c: bv32, b: bv32, n: nat)
    ensures Steps(Xor(c, b), n) == Xor(FeedBits(c, b, n), Shr(b, n))
    decreases n
  {
    hide Step, FeedBit, Xor, Half, Odd;
    if n > 0 {
      StepFeeds(c, b);
      StepsFeed(FeedBit(c, Odd(b)), Half(b), n - 1);
    }
  }

  function Half4(x: bv32): bv32 { Half(Half(Half(Half(x)))) }

  lemma Shr4(x: bv32, n: nat)
    ensures Shr(x, n + 4) == Shr(Half4(x), n)
  {
    hide Half;
    var a := Half(x);
    var b := Half(a);
    assert Shr(x, n + 4) == Shr(a, n + 3) && Shr(a, n + 3) == Shr(b, n + 2);
    assert Shr(b, n + 2) == Shr(Half(b), n + 1);
  }

  lemma ByteIsGone(b: Byte)
    ensures Shr(Widen(b), 8) == 0
  {
    hide Half4;
    var x := Widen(b);
    Shr4(x, 4);
    Shr4(Half4(x), 0);
    SmallShift(b as bv8);
  }

  lemma SmallShift(b: bv8)
    ensures Half4(Half4(b as bv32)) == 0
  {}

  lemma EvenStep(c: bv32)
    requires !Odd(c)
    ensures Step(c) == Half(c)
  {
    hide Odd, Half, Xor;
  }

  predicate FourZeros(c: bv32) { !Odd(c) && !Odd(Half(c)) && !Odd(Half(Half(c))) && !Odd(Half(Half(Half(c)))) }

  lemma Steps4(c: bv32, n: nat)
    requires FourZeros(c)
    ensures Steps(c, n + 4) == Steps(Half4(c), n)
  {
    hide Step, Half, Odd;
    var a := Half(c);
    var b := Half(a);
    EvenStep(c);
    EvenStep(a);
    EvenStep(b);
    EvenStep(Half(b));
    assert Steps(c, n + 4) == Steps(a, n + 3) && Steps(a, n + 3) == Steps(b, n + 2);
    assert Steps(b, n + 2) == Steps(Half(b), n + 1);
  }

  function LowByteOf(x: bv32): bv32 { x & 0xFF }

  function HighBytesOf(x: bv32): bv32 { x & 0xFFFFFF00 }

  function Shift8(x: bv32): bv32 { x >> 8 }

  lemma HighZeros(x: bv32)
    ensures var c := HighBytesOf(x);
            FourZeros(c) && FourZeros(Half4(c)) && Half4(Half4(c)) == Shift8(x)
  {
    hide Shift8;
    EvenShifts(x & 0xFFFFFF00);
    HighShift(x);
  }

  lemma EvenShifts(c: bv32)
    requires c & 0xFF == 0
    ensures c & 1 == 0 && (c >> 1) & 1 == 0 && (c >> 1 >> 1) & 1 == 0 && (c >> 1 >> 1 >> 1) & 1 == 0
    ensures var d := c >> 1 >> 1 >> 1 >> 1;
            d & 1 == 0 && (d >> 1) & 1 == 0 && (d >> 1 >> 1) & 1 == 0 && (d >> 1 >> 1 >> 1) & 1 == 0
  {}

  lemma HighShift(x: bv32)
    ensures (x & 0xFFFFFF00) & 0xFF == 0
    ensures (x & 0xFFFFFF00) >> 1 >> 1 >> 1 >> 1 >> 1 >> 1 >> 1 >> 1 == Shift8(x)
  {}

  /** With eight zero bits below, eight steps just shift. */
  lemma HighSteps(x: bv32)
    ensures Steps(HighBytesOf(x), 8) == Shift8(x)
  {
    hide FourZeros, Half4, HighBytesOf, Shift8, Step;
    var c := HighBytesOf(x);
    HighZeros(x);
    Steps4(c, 4);
    Steps4(Half4(c), 0);
  }

  lemma SplitWord(x: bv32)
    ensures x == Xor(LowByteOf(x), HighBytesOf(x))
  {}

  lemma ByteBelow(c: bv32, b: bv8)
    ensures Shift8(Xor(c, b as bv32)) == Shift8(c)
  {}

  /** One table look-up does the work of eight bits. */
  lemma LookUp(c: bv32, b: Byte)
    ensures Xor(Steps(LowByteOf(Xor(c, Widen(b))), 8), Shift8(c)) == FeedBits(c, Widen(b), 8)
  {
    hide Steps, FeedBits, Shr, Xor, LowByteOf, HighBytesOf, Shift8;
    var x := Xor(c, Widen(b));
    SplitWord(x);
    StepsLinear(LowByteOf(x), HighBytesOf(x), 8);
    HighSteps(x);
    ByteBelow(c, b as bv8);
    StepsFeed(c, Widen(b), 8);
    ByteIsGone(b);
    XorZero(FeedBits(c, Widen(b), 8));
  }

  // ---- The code --------------------------------------------------------------------------------------

  function Word(i: int): bv32
    requires 0 <= i < 256
  {
    i as bv32
  }

  class CrcTable {
    const table: array<bv32>
    var ready: bool

    ghost predicate Valid()
      reads this, table
    {
      && table.Length == 256
      && (ready ==> forall i :: 0 <= i < 256 ==> table[i] == Steps(Word(i), 8))
    }

    constructor ()
      ensures Valid() && fresh(table)
    {
      table := new bv32[256];
      ready := false;
    }

    method Fill()
      requires Valid()
      modifies this, table
      ensures Valid() && ready
    {
      hide Word, Odd, Xor, Half;
      for i := 0 to 256
        invariant forall k :: 0 <= k < i ==> table[k] == Steps(Word(k), 8)
      {
        var c := Word(i);
        for k := 0 to 8
          invariant Steps(c, 8 - k) == Steps(Word(i), 8)
        {
          c := if Odd(c) then Xor(POLY, Half(c)) else Half(c);
        }
        table[i] := c;
      }
      ready := true;
    }

    /** crc32_of: the table is filled on the first call. */
    method Crc32Of(p: seq<Byte>, crc0: bv32) returns (crc: bv32)
      requires Valid()
      modifies this, table
      ensures Valid() && ready
      ensures crc == Not(Feed(Not(crc0), p))
      ensures crc0 == 0 ==> crc == Crc(p)
    {
      hide Steps, FeedBits, Xor, Shift8, LowByteOf, Word, Widen, Not;
      if !ready { Fill(); }
      crc := Not(crc0);
      ghost var c0 := crc;
      for i := 0 to |p|
        invariant Valid() && ready
        invariant Feed(crc, p[i..]) == Feed(c0, p)
      {
        assert p[i..][1..] == p[i + 1..];
        var x := LowByteOf(Xor(crc, Widen(p[i])));
        LookUp(crc, p[i]);
        IndexRange(Xor(crc, Widen(p[i])));
        WordBack(x);
        crc := Xor(table[x as int], Shift8(crc));
      }
      assert p[|p|..] == [];
      crc := Not(crc);
      Complement();
    }
  }

  lemma Complement()
    ensures Not(0) == ALL_ONES
  {}

  function Number(c: bv32): (r: nat)
    ensures r < 0x1_0000_0000
  {
    c as int
  }

  lemma IndexRange(y: bv32)
    ensures 0 <= LowByteOf(y) as int < 256
  {}

  lemma WordBack(x: bv32)
    requires 0 <= x as int < 256
    ensures Word(x as int) == x
  {}
}
