/**
 The reflected CRC-32 of lib/go/qdp.go and lib/c/qdp.c, and its algebra. The reference
 definition divides bit by bit; the two implementations step through a table of 256 words.
 */
module Crc32 {
  import opened Bytes

  const POLYNOMIAL: bv32 := 0xEDB88320
  const ALL_ONES: bv32 := 0xFFFFFFFF
  const RESIDUE: bv32 := 0x2144DF1C

  // ---------- Reference: one message bit at a time ----------

  function Xor(a: bv32, b: bv32): bv32 { a ^ b }

  predicate Odd(c: bv32) { c & 1 != 0 }

  function Half(c: bv32): bv32 { c >> 1 }

  function Tap(c: bv32): bv32 { if Odd(c) then POLYNOMIAL else 0 }

  /** Shift one bit out of the register, subtracting the polynomial if the bit was set. */
  function Shift(c: bv32): bv32 { Xor(Half(c), Tap(c)) }

  function Word(bit: bool): bv32 { if bit then 1 else 0 }

  function Feed(c: bv32, bit: bool): bv32 { Shift(Xor(c, Word(bit))) }

  /** The register after dividing the message bits, least significant bit of each byte first. */
  function Divide(c: bv32, bits: seq<bool>): bv32
    decreases |bits|
  {
    if bits == [] then c else Divide(Feed(c, bits[0]), bits[1..])
  }

  function LowBits(w: bv32, n: nat): (bits: seq<bool>)
    ensures |bits| == n
    decreases n
  {
    if n == 0 then [] else [Odd(w)] + LowBits(w >> 1, n - 1)
  }

  function BitsOfByte(b: byte): (bits: seq<bool>)
    ensures |bits| == 8
  {
    LowBits(ToBits(b) as bv32, 8)
  }

  function BitsOf(data: seq<byte>): (bits: seq<bool>)
    ensures |bits| == 8 * |data|
  {
    if data == [] then [] else BitsOfByte(data[0]) + BitsOf(data[1..])
  }

  /** The checksum: bit-by-bit division from an all-ones register, complemented at the end. */
  function Checksum(data: seq<byte>): bv32 {
    Xor(Divide(ALL_ONES, BitsOf(data)), ALL_ONES)
  }

  // ---------- Exclusive-or laws ----------

  lemma XorAssoc(a: bv32, b: bv32, c: bv32)
    ensures Xor(Xor(a, b), c) == Xor(a, Xor(b, c))
  {
    assert Xor(Xor(a, b), c) == Xor(a ^ b, c);
    assert Xor(a, Xor(b, c)) == Xor(a, b ^ c);
  }

  lemma XorPairs(a: bv32, b: bv32, c: bv32, d: bv32)
    ensures Xor(Xor(a, b), Xor(c, d)) == Xor(Xor(a, c), Xor(b, d))
  {
    assert Xor(Xor(a, b), Xor(c, d)) == Xor(a ^ b, c ^ d);
    assert Xor(Xor(a, c), Xor(b, d)) == Xor(a ^ c, b ^ d);
  }

  lemma XorComm(a: bv32, b: bv32)
    ensures Xor(a, b) == Xor(b, a)
  {}

  lemma XorSelf(a: bv32)
    ensures Xor(a, a) == 0 && Xor(a, 0) == a
  {}

  lemma XorCancel(a: bv32, b: bv32)
    ensures Xor(Xor(a, b), b) == a
  {
    assert Xor(Xor(a, b), b) == Xor(a ^ b, b);
  }

  // ---------- The register is linear and loses nothing ----------

  lemma HalfLinear(a: bv32, b: bv32)
    ensures Half(Xor(a, b)) == Xor(Half(a), Half(b))
  {
    assert Half(Xor(a, b)) == Half(a ^ b);
    assert Xor(Half(a), Half(b)) == Xor(a >> 1, b >> 1);
  }

  lemma OddLinear(a: bv32, b: bv32)
    ensures Odd(Xor(a, b)) == (Odd(a) != Odd(b))
  {}

  lemma TapLinear(a: bv32, b: bv32)
    ensures Tap(Xor(a, b)) == Xor(Tap(a), Tap(b))
  {
    OddLinear(a, b);
    hide Odd;
    XorSelf(POLYNOMIAL);
    XorComm(0, POLYNOMIAL);
  }

  lemma ShiftLinear(a: bv32, b: bv32)
    ensures Shift(Xor(a, b)) == Xor(Shift(a), Shift(b))
  {
    hide Half, Tap, Xor;
    HalfLinear(a, b);
    TapLinear(a, b);
    XorPairs(Half(a), Half(b), Tap(a), Tap(b));
  }

  lemma ShiftInjective(a: bv32, b: bv32)
    requires Shift(a) == Shift(b)
    ensures a == b
  {}

  function XorBits(a: seq<bool>, b: seq<bool>): (d: seq<bool>)
    requires |a| == |b|
    ensures |d| == |a|
    ensures forall i :: 0 <= i < |a| ==> d[i] == (a[i] != b[i])
  {
    seq(|a|, i requires 0 <= i < |a| => a[i] != b[i])
  }

  lemma FeedLinear(x: bv32, y: bv32, a: bool, b: bool)
    ensures Feed(Xor(x, y), a != b) == Xor(Feed(x, a), Feed(y, b))
  {
    assert Word(a != b) == Xor(Word(a), Word(b));
    hide Shift, Xor;
    XorPairs(x, y, Word(a), Word(b));
    ShiftLinear(Xor(x, Word(a)), Xor(y, Word(b)));
  }

  /** Running two messages and comparing registers is running their difference. */
  lemma {:induction false} DivideLinear(x: bv32, y: bv32, a: seq<bool>, b: seq<bool>)
    requires |a| == |b|
    ensures Divide(Xor(x, y), XorBits(a, b)) == Xor(Divide(x, a), Divide(y, b))
    decreases |a|
  {
    hide Feed, Xor;
    if a != [] {
      FeedLinear(x, y, a[0], b[0]);
      assert XorBits(a, b)[1..] == XorBits(a[1..], b[1..]);
      DivideLinear(Feed(x, a[0]), Feed(y, b[0]), a[1..], b[1..]);
    }
  }

  lemma {:induction false} DivideConcat(c: bv32, a: seq<bool>, b: seq<bool>)
    ensures Divide(c, a + b) == Divide(Divide(c, a), b)
    decreases |a|
  {
    hide Feed;
    if a == [] {
      assert a + b == b;
    } else {
      assert (a + b)[1..] == a[1..] + b;
      DivideConcat(Feed(c, a[0]), a[1..], b);
    }
  }

  lemma FeedInjective(x: bv32, y: bv32, bit: bool)
    requires Feed(x, bit) == Feed(y, bit)
    ensures x == y
  {
    hide Shift, Xor;
    ShiftInjective(Xor(x, Word(bit)), Xor(y, Word(bit)));
    XorCancel(x, Word(bit));
    XorCancel(y, Word(bit));
  }

  lemma {:induction false} DivideInjective(x: bv32, y: bv32, bits: seq<bool>)
    requires Divide(x, bits) == Divide(y, bits)
    ensures x == y
    decreases |bits|
  {
    hide Feed;
    if bits != [] {
      DivideInjective(Feed(x, bits[0]), Feed(y, bits[0]), bits[1..]);
      FeedInjective(x, y, bits[0]);
    }
  }

  lemma {:induction false} BitsOfConcat(a: seq<byte>, b: seq<byte>)
    ensures BitsOf(a + b) == BitsOf(a) + BitsOf(b)
    decreases |a|
  {
    hide BitsOfByte;
    if a == [] {
      assert a + b == b;
    } else {
      assert (a + b)[1..] == a[1..] + b;
      BitsOfConcat(a[1..], b);
    }
  }

  // ---------- The table-driven step is eight bit steps ----------

  function Shifts(c: bv32, n: nat): bv32
    decreases n
  {
    if n == 0 then c else Shifts(Shift(c), n - 1)
  }

  function ShiftRight(w: bv32, n: nat): bv32
    decreases n
  {
    if n == 0 then w else ShiftRight(w >> 1, n - 1)
  }

  lemma SplitLowBit(w: bv32)
    ensures Xor(Word(Odd(w)), w & 0xFFFFFFFE) == w
    ensures Shift(w & 0xFFFFFFFE) == w >> 1
  {}

  lemma FeedAll(c: bv32, w: bv32)
    ensures Shift(Xor(c, w)) == Xor(Feed(c, Odd(w)), w >> 1)
  {
    SplitLowBit(w);
    hide Shift, Xor, Word, Odd;
    XorAssoc(c, Word(Odd(w)), w & 0xFFFFFFFE);
    ShiftLinear(Xor(c, Word(Odd(w))), w & 0xFFFFFFFE);
  }

  /** Xoring a whole word in first and feeding its bits one by one come to the same. */
  lemma {:induction false} ShiftsFeedBits(c: bv32, w: bv32, n: nat)
    ensures Shifts(Xor(c, w), n) == Xor(Divide(c, LowBits(w, n)), ShiftRight(w, n))
    decreases n
  {
    hide Feed, Shift, Xor, Odd;
    if n > 0 {
      FeedAll(c, w);
      ShiftsFeedBits(Feed(c, Odd(w)), w >> 1, n - 1);
      assert LowBits(w, n)[1..] == LowBits(w >> 1, n - 1);
    }
  }

  lemma ByteFits(x: bv8)
    ensures ShiftRight(x as bv32, 8) == 0
  {
    var w := x as bv32;
    assert ShiftRight(w, 8) == ShiftRight(w >> 1 >> 1 >> 1 >> 1, 4);
    assert w >> 1 >> 1 >> 1 >> 1 >> 1 >> 1 >> 1 >> 1 == 0;
  }

  lemma DivideByte(c: bv32, b: byte)
    ensures Divide(c, BitsOfByte(b)) == Shifts(Xor(c, ToBits(b) as bv32), 8)
  {
    hide Shifts, Divide, LowBits, ShiftRight, Xor;
    ShiftsFeedBits(c, ToBits(b) as bv32, 8);
    ByteFits(ToBits(b));
    XorSelf(Divide(c, BitsOfByte(b)));
  }

  lemma {:induction false} ShiftsLinear(a: bv32, b: bv32, n: nat)
    ensures Shifts(Xor(a, b), n) == Xor(Shifts(a, n), Shifts(b, n))
    decreases n
  {
    hide Shift, Xor;
    if n > 0 {
      ShiftLinear(a, b);
      ShiftsLinear(Shift(a), Shift(b), n - 1);
    }
  }

  lemma ShiftEven(c: bv32)
    requires !Odd(c)
    ensures Shift(c) == c >> 1
  {
    XorSelf(Half(c));
  }

  predicate LowZeros(w: bv32, n: nat)
    decreases n
  {
    n == 0 || (!Odd(w) && LowZeros(w >> 1, n - 1))
  }

  lemma {:induction false} ShiftsEven(w: bv32, n: nat)
    requires LowZeros(w, n)
    ensures Shifts(w, n) == ShiftRight(w, n)
    decreases n
  {
    hide Shift, Odd;
    if n > 0 {
      ShiftEven(w);
      ShiftsEven(w >> 1, n - 1);
    }
  }

  function TableEntry(index: bv8): bv32 {
    Shifts(index as bv32, 8)
  }

  function HighPart(w: bv32): bv32 { w & 0xFFFFFF00 }

  function LowPart(w: bv32): bv32 { w & 0xFF }

  function Drop8(w: bv32): bv32 { w >> 8 }

  lemma SplitLowByte(w: bv32)
    ensures Xor(HighPart(w), LowPart(w)) == w
  {}

  lemma HighPartEven(w: bv32)
    ensures !Odd(HighPart(w)) && !Odd(HighPart(w) >> 1) && !Odd(HighPart(w) >> 2) && !Odd(HighPart(w) >> 3)
    ensures !Odd(HighPart(w) >> 4) && !Odd(HighPart(w) >> 5) && !Odd(HighPart(w) >> 6) && !Odd(HighPart(w) >> 7)
  {}

  lemma HighPartDrop(w: bv32)
    ensures Drop8(HighPart(w)) == Drop8(w)
  {}

  lemma ShiftRightByte(w: bv32)
    ensures ShiftRight(w, 8) == Drop8(w)
  {
    assert ShiftRight(w, 8) == ShiftRight(w >> 4, 4);
  }

  lemma LowZerosByte(h: bv32)
    requires !Odd(h) && !Odd(h >> 1) && !Odd(h >> 2) && !Odd(h >> 3)
    requires !Odd(h >> 4) && !Odd(h >> 5) && !Odd(h >> 6) && !Odd(h >> 7)
    ensures LowZeros(h, 8)
  {
    hide Odd;
    assert LowZeros(h >> 4, 4);
  }

  lemma HighPartZeros(w: bv32)
    ensures LowZeros(HighPart(w), 8)
  {
    HighPartEven(w);
    hide Odd, HighPart, LowZeros;
    LowZerosByte(HighPart(w));
  }

  lemma ShiftsOfHigh(w: bv32)
    ensures Shifts(HighPart(w), 8) == Drop8(w)
  {
    hide Odd, HighPart, ShiftRight, Shifts, LowZeros, Drop8;
    HighPartZeros(w);
    ShiftsEven(HighPart(w), 8);
    ShiftRightByte(HighPart(w));
    HighPartDrop(w);
  }

  /** The table index for a register and the next byte. */
  function TableIndex(c: bv32, x: bv8): bv8 { ((c & 0xFF) as bv8) ^ x }

  lemma IndexOf(c: bv32, x: bv8)
    ensures Drop8(Xor(c, x as bv32)) == Drop8(c)
    ensures LowPart(Xor(c, x as bv32)) == TableIndex(c, x) as bv32
  {}

  lemma ShiftsSplit(w: bv32)
    ensures Shifts(w, 8) == Xor(Drop8(w), Shifts(LowPart(w), 8))
  {
    hide Shifts, Xor, LowPart, HighPart, Drop8;
    SplitLowByte(w);
    ShiftsLinear(HighPart(w), LowPart(w), 8);
    ShiftsOfHigh(w);
  }

  /** One table lookup advances the register over one byte. */
  lemma TableStep(c: bv32, b: byte)
    ensures Xor(Drop8(c), TableEntry(TableIndex(c, ToBits(b)))) == Divide(c, BitsOfByte(b))
  {
    hide Shifts, Divide, Xor, BitsOfByte, HighPart, LowPart, ToBits, Drop8, TableIndex;
    IndexOf(c, ToBits(b));
    ShiftsSplit(Xor(c, ToBits(b) as bv32));
    DivideByte(c, b);
  }
}
