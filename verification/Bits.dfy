/** The bits of a byte, counted from the least significant. */
module Bits {
  import opened Messages

  /** b & (1 << j) != 0 */
  predicate Bit(b: nat, j: nat)
    decreases j
  {
    if j == 0 then b % 2 == 1 else Bit(b / 2, j - 1)
  }

  function Pow2(n: nat): nat {
    if n == 0 then 1 else 2 * Pow2(n - 1)
  }

  function BitsNum(bits: seq<bool>): (r: nat)
    ensures r < Pow2(|bits|)
  {
    if bits == [] then 0 else (if bits[0] then 1 else 0) + 2 * BitsNum(bits[1..])
  }

  lemma {:induction false} BitOfBits(bits: seq<bool>, j: nat)
    requires j < |bits|
    ensures Bit(BitsNum(bits), j) == bits[j]
    decreases j
  {
    var later := BitsNum(bits[1..]);
    assert BitsNum(bits) / 2 == later && (BitsNum(bits) % 2 == 1 <==> bits[0]);
    if j > 0 {
      BitOfBits(bits[1..], j - 1);
    }
  }

  lemma ByteOfBits()
    ensures Pow2(8) == 256
  {
    assert Pow2(8) == 2 * Pow2(7) == 2 * (2 * Pow2(6));
    assert Pow2(6) == 2 * Pow2(5) == 2 * (2 * Pow2(4));
    assert Pow2(4) == 2 * Pow2(3) == 2 * (2 * Pow2(2));
  }

  function XorBits(a: nat, b: nat, n: nat): (r: nat)
    ensures r < Pow2(n)
    decreases n
  {
    if n == 0 then 0 else (a + b) % 2 + 2 * XorBits(a / 2, b / 2, n - 1)
  }

  /** Exclusive or of two bytes. */
  function Xor(a: byte, b: byte): byte {
    ByteOfBits();
    XorBits(a, b, 8)
  }

  lemma {:induction false} XorBitsTwice(a: nat, b: nat, n: nat)
    requires a < Pow2(n)
    ensures XorBits(XorBits(a, b, n), b, n) == a
    decreases n
  {
    if n > 0 {
      var x := XorBits(a, b, n);
      XorHalves(a, b, n);
      XorHalves(x, b, n);
      XorBitsTwice(a / 2, b / 2, n - 1);
      Parity(a, b, x);
      SameHalves(XorBits(x, b, n), a);
    }
  }

  lemma XorHalves(a: nat, b: nat, n: nat)
    requires n > 0
    ensures XorBits(a, b, n) % 2 == (a + b) % 2 && XorBits(a, b, n) / 2 == XorBits(a / 2, b / 2, n - 1)
  {
  }

  lemma Parity(a: nat, b: nat, x: nat)
    requires x % 2 == (a + b) % 2
    ensures (x + b) % 2 == a % 2
  {
  }

  lemma SameHalves(x: nat, y: nat)
    requires x / 2 == y / 2 && x % 2 == y % 2
    ensures x == y
  {
  }

  /** Exclusive or undoes itself. */
  lemma XorTwice(a: byte, b: byte)
    ensures Xor(Xor(a, b), b) == a
  {
    ByteOfBits();
    XorBitsTwice(a, b, 8);
  }

  lemma {:induction false} XorBitsAssoc(a: nat, b: nat, c: nat, n: nat)
    ensures XorBits(XorBits(a, b, n), c, n) == XorBits(a, XorBits(b, c, n), n)
    decreases n
  {
    if n > 0 {
      var x, y := XorBits(a, b, n), XorBits(b, c, n);
      XorHalves(a, b, n);
      XorHalves(b, c, n);
      XorHalves(x, c, n);
      XorHalves(a, y, n);
      XorBitsAssoc(a / 2, b / 2, c / 2, n - 1);
      ParityAssoc(a, b, c, x, y);
      SameHalves(XorBits(x, c, n), XorBits(a, y, n));
    }
  }

  lemma ParityAssoc(a: nat, b: nat, c: nat, x: nat, y: nat)
    requires x % 2 == (a + b) % 2 && y % 2 == (b + c) % 2
    ensures (x + c) % 2 == (a + y) % 2
  {
  }

  lemma XorAssoc(a: byte, b: byte, c: byte)
    ensures Xor(Xor(a, b), c) == Xor(a, Xor(b, c))
  {
    ByteOfBits();
    XorBitsAssoc(a, b, c, 8);
  }

  lemma {:induction false} XorBit(a: nat, b: nat, n: nat, j: nat)
    requires j < n
    ensures Bit(XorBits(a, b, n), j) <==> Bit(a, j) != Bit(b, j)
    decreases n
  {
    var x := XorBits(a, b, n);
    XorHalves(a, b, n);
    if j == 0 {
      OddSum(a, b);
    } else {
      XorBit(a / 2, b / 2, n - 1, j - 1);
      BitNext(x, j);
      BitNext(a, j);
      BitNext(b, j);
    }
  }

  /** Bit by bit, the result is set where exactly one of the two is. */
  lemma XorIsBitwise(a: byte, b: byte, j: nat)
    requires j < 8
    ensures Bit(Xor(a, b), j) <==> Bit(a, j) != Bit(b, j)
  {
    XorBit(a, b, 8, j);
  }

  lemma OddSum(a: nat, b: nat)
    ensures (a + b) % 2 == 1 <==> (a % 2 == 1) != (b % 2 == 1)
  {
  }

  lemma BitNext(x: nat, j: nat)
    requires j > 0
    ensures Bit(x, j) == Bit(x / 2, j - 1)
  {
  }
}
