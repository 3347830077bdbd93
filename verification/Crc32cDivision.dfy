/** The checksum is CRC-32C: the remainder of polynomial division by the generator of section 12.1
    of RFC 3720, x^32 + 0x1EDC6F41. */
module Crc32cDivision {
  import opened Wrappers
  import opened Polynomials
  import opened ShiftRegister
  import opened Crc32c

  /** The generator below its leading term. */
  const GENERATOR := 0x1EDC6F41

  function Generator(): (g: seq<bool>)
    ensures |g| == 32
  {
    Coefficients(GENERATOR, 32)
  }

  /** The bits of a byte, least significant first, which is the order in which they are sent. */
  function ByteBits(b: bv8): (r: seq<bool>)
    ensures |r| == 8
  {
    [b & 0x01 != 0, b & 0x02 != 0, b & 0x04 != 0, b & 0x08 != 0,
     b & 0x10 != 0, b & 0x20 != 0, b & 0x40 != 0, b & 0x80 != 0]
  }

  function BitString(data: seq<bv8>): (r: seq<bool>)
    ensures |r| == 8 * |data|
  {
    if data == [] then [] else ByteBits(data[0]) + BitString(data[1..])
  }

  predicate Low(x: bv32) { x & 1 != 0 }
  function Shr(x: bv32): bv32 { x >> 1 }

  /** The n low bits of a register, least significant first. */
  function BitsUp(x: bv32, n: nat): (r: seq<bool>)
    ensures |r| == n
  {
    if n == 0 then [] else [Low(x)] + BitsUp(Shr(x), n - 1)
  }

  // ----- bits of registers

  lemma XorParity(x: bv32, y: bv32)
    ensures Low(Xor(x, y)) <==> (Low(x) != Low(y))
  {
  }

  lemma XorHalf(x: bv32, y: bv32)
    ensures Shr(Xor(x, y)) == Xor(Shr(x), Shr(y))
  {
  }

  lemma {:induction false} BitsOfXor(x: bv32, y: bv32, n: nat)
    ensures BitsUp(Xor(x, y), n) == Plus(BitsUp(x, n), BitsUp(y, n))
    decreases n
  {
    hide Xor, Low, Shr;
    if n > 0 {
      XorParity(x, y);
      XorHalf(x, y);
      BitsOfXor(Shr(x), Shr(y), n - 1);
    }
  }

  predicate FitsIn(x: bv32, n: nat) {
    if n == 0 then x == 0 else FitsIn(Shr(x), n - 1)
  }

  lemma FitsAbove(x: bv32, h: bv32, n: nat)
    requires h == Shr(x) && FitsIn(h, n)
    ensures FitsIn(x, n + 1)
  {
  }

  function Shr8(x: bv32): bv32 { x >> 8 }

  lemma EightShifts(x: bv32)
    ensures Shr(Shr(Shr(Shr(Shr(Shr(Shr(Shr(x)))))))) == Shr8(x)
  {
  }

  lemma FitsEightAbove(x: bv32, n: nat)
    requires FitsIn(Shr8(x), n)
    ensures FitsIn(x, n + 8)
  {
    hide Shr, Shr8, FitsIn;
    EightShifts(x);
    var x1 := Shr(x); var x2 := Shr(x1); var x3 := Shr(x2); var x4 := Shr(x3);
    var x5 := Shr(x4); var x6 := Shr(x5); var x7 := Shr(x6);
    FitsAbove(x7, Shr(x7), n);
    FitsAbove(x6, x7, n + 1);
    FitsAbove(x5, x6, n + 2);
    FitsAbove(x4, x5, n + 3);
    FitsAbove(x3, x4, n + 4);
    FitsAbove(x2, x3, n + 5);
    FitsAbove(x1, x2, n + 6);
    FitsAbove(x, x1, n + 7);
  }

  lemma NothingLeft(x: bv32)
    ensures FitsIn(Shr8(Shr8(Shr8(Shr8(x)))), 0)
  {
  }

  lemma RegisterFits(x: bv32)
    ensures FitsIn(x, 32)
  {
    hide Shr8, FitsIn;
    NothingLeft(x);
    FitsEightAbove(Shr8(Shr8(Shr8(x))), 0);
    FitsEightAbove(Shr8(Shr8(x)), 8);
    FitsEightAbove(Shr8(x), 16);
    FitsEightAbove(x, 24);
  }

  lemma {:induction false} HighBitIsClear(x: bv32, n: nat)
    requires FitsIn(x, n)
    ensures BitsUp(x, n + 1) == BitsUp(x, n) + [false]
    decreases n
  {
    hide Shr, Low;
    if n > 0 {
      HighBitIsClear(Shr(x), n - 1);
    } else {
      ZeroIsEven(x);
    }
  }

  lemma ZeroIsEven(x: bv32)
    requires x == 0
    ensures !Low(x)
  {
  }

  lemma BitsOfHalf(x: bv32)
    ensures BitsUp(Shr(x), 32) == BitsUp(x, 32)[1..] + [false]
  {
    hide Shr, Low;
    RegisterFits(x);
    assert FitsIn(Shr(x), 31);
    HighBitIsClear(Shr(x), 31);
    assert BitsUp(x, 32)[1..] == BitsUp(Shr(x), 31);
  }

  // ----- the constant of the code is the generator, backwards

  lemma ConstantStep(x: bv32, h: bv32, bit: bool, n: nat)
    requires n > 0 && h == Shr(x) && bit == Low(x)
    ensures BitsUp(x, n) == [bit] + BitsUp(h, n - 1)
  {
  }

  lemma FourInFront(a: bool, b: bool, c: bool, d: bool, rest: seq<bool>)
    ensures [a] + ([b] + ([c] + ([d] + rest))) == [a, b, c, d] + rest
  {
  }

  lemma EightInFront(a: bool, b: bool, c: bool, d: bool, e: bool, f: bool, g: bool, h: bool, rest: seq<bool>)
    ensures [a] + ([b] + ([c] + ([d] + ([e] + ([f] + ([g] + ([h] + rest))))))) == [a, b, c, d, e, f, g, h] + rest
  {
    FourInFront(e, f, g, h, rest);
    FourInFront(a, b, c, d, [e, f, g, h] + rest);
    Assoc([a, b, c, d], [e, f, g, h], rest);
    assert [a, b, c, d] + [e, f, g, h] == [a, b, c, d, e, f, g, h];
  }

  lemma EightBehind(front: seq<bool>, a: bool, b: bool, c: bool, d: bool, e: bool, f: bool, g: bool, h: bool)
    ensures front + [a] + [b] + [c] + [d] + [e] + [f] + [g] + [h] == front + [a, b, c, d, e, f, g, h]
  {
  }

  lemma ConstantBits0()
    ensures BitsUp(0x82F63B78, 32) == [false, false, false, true, true, true, true, false] + BitsUp(0x82F63B, 24)
  {
    hide BitsUp;
    ConstantStep(0x82F63B78, 0x417B1DBC, false, 32);
    ConstantStep(0x417B1DBC, 0x20BD8EDE, false, 31);
    ConstantStep(0x20BD8EDE, 0x105EC76F, false, 30);
    ConstantStep(0x105EC76F, 0x82F63B7, true, 29);
    ConstantStep(0x82F63B7, 0x417B1DB, true, 28);
    ConstantStep(0x417B1DB, 0x20BD8ED, true, 27);
    ConstantStep(0x20BD8ED, 0x105EC76, true, 26);
    ConstantStep(0x105EC76, 0x82F63B, false, 25);
    EightInFront(false, false, false, true, true, true, true, false, BitsUp(0x82F63B, 24));
  }

  lemma ConstantBits1()
    ensures BitsUp(0x82F63B, 24) == [true, true, false, true, true, true, false, false] + BitsUp(0x82F6, 16)
  {
    hide BitsUp;
    ConstantStep(0x82F63B, 0x417B1D, true, 24);
    ConstantStep(0x417B1D, 0x20BD8E, true, 23);
    ConstantStep(0x20BD8E, 0x105EC7, false, 22);
    ConstantStep(0x105EC7, 0x82F63, true, 21);
    ConstantStep(0x82F63, 0x417B1, true, 20);
    ConstantStep(0x417B1, 0x20BD8, true, 19);
    ConstantStep(0x20BD8, 0x105EC, false, 18);
    ConstantStep(0x105EC, 0x82F6, false, 17);
    EightInFront(true, true, false, true, true, true, false, false, BitsUp(0x82F6, 16));
  }

  lemma ConstantBits2()
    ensures BitsUp(0x82F6, 16) == [false, true, true, false, true, true, true, true] + BitsUp(0x82, 8)
  {
    hide BitsUp;
    ConstantStep(0x82F6, 0x417B, false, 16);
    ConstantStep(0x417B, 0x20BD, true, 15);
    ConstantStep(0x20BD, 0x105E, true, 14);
    ConstantStep(0x105E, 0x82F, false, 13);
    ConstantStep(0x82F, 0x417, true, 12);
    ConstantStep(0x417, 0x20B, true, 11);
    ConstantStep(0x20B, 0x105, true, 10);
    ConstantStep(0x105, 0x82, true, 9);
    EightInFront(false, true, true, false, true, true, true, true, BitsUp(0x82, 8));
  }

  lemma ConstantBits3()
    ensures BitsUp(0x82, 8) == [false, true, false, false, false, false, false, true] + BitsUp(0x0, 0)
  {
    hide BitsUp;
    ConstantStep(0x82, 0x41, false, 8);
    ConstantStep(0x41, 0x20, true, 7);
    ConstantStep(0x20, 0x10, false, 6);
    ConstantStep(0x10, 0x8, false, 5);
    ConstantStep(0x8, 0x4, false, 4);
    ConstantStep(0x4, 0x2, false, 3);
    ConstantStep(0x2, 0x1, false, 2);
    ConstantStep(0x1, 0x0, true, 1);
    EightInFront(false, true, false, false, false, false, false, true, BitsUp(0x0, 0));
  }

  lemma CoefficientStep(number: nat, half: nat, bit: bool, n: nat)
    requires n > 0 && number == 2 * half + (if bit then 1 else 0)
    ensures Coefficients(number, n) == Coefficients(half, n - 1) + [bit]
  {
  }

  lemma GeneratorBits0()
    ensures Coefficients(0x1E, 8) == Coefficients(0x0, 0) + [false, false, false, true, true, true, true, false]
  {
    hide Coefficients;
    CoefficientStep(0x0, 0x0, false, 1);
    CoefficientStep(0x0, 0x0, false, 2);
    CoefficientStep(0x0, 0x0, false, 3);
    CoefficientStep(0x1, 0x0, true, 4);
    CoefficientStep(0x3, 0x1, true, 5);
    CoefficientStep(0x7, 0x3, true, 6);
    CoefficientStep(0xF, 0x7, true, 7);
    CoefficientStep(0x1E, 0xF, false, 8);
    EightBehind(Coefficients(0x0, 0), false, false, false, true, true, true, true, false);
  }

  lemma GeneratorBits1()
    ensures Coefficients(0x1EDC, 16) == Coefficients(0x1E, 8) + [true, true, false, true, true, true, false, false]
  {
    hide Coefficients;
    CoefficientStep(0x3D, 0x1E, true, 9);
    CoefficientStep(0x7B, 0x3D, true, 10);
    CoefficientStep(0xF6, 0x7B, false, 11);
    CoefficientStep(0x1ED, 0xF6, true, 12);
    CoefficientStep(0x3DB, 0x1ED, true, 13);
    CoefficientStep(0x7B7, 0x3DB, true, 14);
    CoefficientStep(0xF6E, 0x7B7, false, 15);
    CoefficientStep(0x1EDC, 0xF6E, false, 16);
    EightBehind(Coefficients(0x1E, 8), true, true, false, true, true, true, false, false);
  }

  lemma GeneratorBits2()
    ensures Coefficients(0x1EDC6F, 24) == Coefficients(0x1EDC, 16) + [false, true, true, false, true, true, true, true]
  {
    hide Coefficients;
    CoefficientStep(0x3DB8, 0x1EDC, false, 17);
    CoefficientStep(0x7B71, 0x3DB8, true, 18);
    CoefficientStep(0xF6E3, 0x7B71, true, 19);
    CoefficientStep(0x1EDC6, 0xF6E3, false, 20);
    CoefficientStep(0x3DB8D, 0x1EDC6, true, 21);
    CoefficientStep(0x7B71B, 0x3DB8D, true, 22);
    CoefficientStep(0xF6E37, 0x7B71B, true, 23);
    CoefficientStep(0x1EDC6F, 0xF6E37, true, 24);
    EightBehind(Coefficients(0x1EDC, 16), false, true, true, false, true, true, true, true);
  }

  lemma GeneratorBits3()
    ensures Coefficients(0x1EDC6F41, 32)
         == Coefficients(0x1EDC6F, 24) + [false, true, false, false, false, false, false, true]
  {
    hide Coefficients;
    CoefficientStep(0x3DB8DE, 0x1EDC6F, false, 25);
    CoefficientStep(0x7B71BD, 0x3DB8DE, true, 26);
    CoefficientStep(0xF6E37A, 0x7B71BD, false, 27);
    CoefficientStep(0x1EDC6F4, 0xF6E37A, false, 28);
    CoefficientStep(0x3DB8DE8, 0x1EDC6F4, false, 29);
    CoefficientStep(0x7B71BD0, 0x3DB8DE8, false, 30);
    CoefficientStep(0xF6E37A0, 0x7B71BD0, false, 31);
    CoefficientStep(0x1EDC6F41, 0xF6E37A0, true, 32);
    EightBehind(Coefficients(0x1EDC6F, 24), false, true, false, false, false, false, false, true);
  }

  lemma ConstantIsGenerator()
    ensures BitsUp(0x82F63B78, 32) == Generator()
  {
    hide BitsUp, Coefficients;
    ConstantBits0();
    ConstantBits1();
    ConstantBits2();
    ConstantBits3();
    GeneratorBits0();
    GeneratorBits1();
    GeneratorBits2();
    GeneratorBits3();
    NoBits();
  }

  lemma NoBits()
    ensures BitsUp(0, 0) == Coefficients(0, 0) == []
  {
  }

  // ----- turns divide

  lemma TurnIsXor(c: bv32)
    ensures Turn(c) == if Low(c) then Xor(Shr(c), 0x82F63B78) else Shr(c)
  {
  }

  lemma BitIsAdded(c: bv32, bit: bool)
    ensures Low(Xor(c, Bit(bit))) <==> Low(c) != bit
    ensures Shr(Xor(c, Bit(bit))) == Shr(c)
  {
  }

  lemma TurnFeeds(c: bv32, bit: bool)
    ensures BitsUp(Turn(Xor(c, Bit(bit))), 32) == Feed(BitsUp(c, 32), bit, Generator())
  {
    hide Low, Shr, Xor, Bit, Turn, Generator;
    var c1 := Xor(c, Bit(bit));
    BitIsAdded(c, bit);
    TurnIsXor(c1);
    BitsOfHalf(c);
    BitsOfXor(Shr(c), 0x82F63B78, 32);
    ConstantIsGenerator();
    assert BitsUp(c, 32)[0] == Low(c);
  }

  lemma {:induction false} BitsAreDivided(c: bv32, bits: seq<bool>)
    ensures BitsUp(AddBits(c, bits, CRC), 32) == FeedAll(BitsUp(c, 32), bits, Generator())
    decreases |bits|
  {
    hide Turn, Generator, BitsUp, Feed;
    if bits != [] {
      TurnFeeds(c, bits[0]);
      BitsAreDivided(AddBit(c, bits[0], CRC), bits[1..]);
    }
  }

  // ----- bytes

  lemma LowHalfBits(b: bv8)
    ensures Odd(b) == (b & 0x01 != 0)
    ensures Half(b) & 0x01 != 0 <==> b & 0x02 != 0
    ensures Half(b) & 0x02 != 0 <==> b & 0x04 != 0
    ensures Half(b) & 0x04 != 0 <==> b & 0x08 != 0
  {
  }

  lemma HighHalfBits(b: bv8)
    ensures Half(b) & 0x08 != 0 <==> b & 0x10 != 0
    ensures Half(b) & 0x10 != 0 <==> b & 0x20 != 0
    ensures Half(b) & 0x20 != 0 <==> b & 0x40 != 0
    ensures Half(b) & 0x40 != 0 <==> b & 0x80 != 0
    ensures Half(b) & 0x80 == 0
  {
  }

  lemma HalfByte(b: bv8)
    ensures ByteBits(b)[0] == Odd(b) && ByteBits(Half(b)) == ByteBits(b)[1..] + [false]
  {
    hide Half, Odd;
    LowHalfBits(b);
    HighHalfBits(b);
  }

  lemma {:induction false} SameBits(b: bv8, n: nat)
    requires n <= 8
    ensures BitsOf(b, n, CRC) == ByteBits(b)[..n]
    decreases n
  {
    hide Half, Odd, ByteBits;
    if n > 0 {
      SameBits(Half(b), n - 1);
      HalfByte(b);
      assert ByteBits(b)[..n] == [ByteBits(b)[0]] + ByteBits(b)[1..][..n - 1];
    }
  }

  lemma {:induction false} SameMessage(data: seq<bv8>)
    ensures MessageBits(data, CRC) == BitString(data)
  {
    if data != [] {
      SameBits(data[0], 8);
      SameMessage(data[1..]);
    }
  }

  /** Main result: the bits of the message in the order they are sent, followed by 32 zeros, with
      the complement of the initial value added to the first 32 coefficients, leave a remainder
      that is the complement of the checksum, least significant bit first. */
  lemma ChecksumIsRemainder(data: seq<bv8>, initial: bv32)
    ensures BitsUp(!Checksum(data, initial), 32)
         == Remainder(Plus(BitString(data) + Zeros(32), BitsUp(!initial, 32) + Zeros(8 * |data|)), Generator())
  {
    hide Generator, Remainder, AddBits, BitString, MessageBits;
    var c := AddBytes(!initial, data, CRC);
    BytesSplit();
    BytesFeedBits(!initial, data, CRC);
    SameMessage(data);
    BitsAreDivided(!initial, BitString(data));
    RegisterDivides(BitsUp(!initial, 32), BitString(data), Generator());
    FlipFlip(c);
  }
}
