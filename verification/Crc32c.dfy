/** The CRC-32C checksum of the command-line tools (Castagnoli polynomial, reflected), as an
    instance of `ShiftRegister`. */
module Crc32c {
  import opened ShiftRegister

  // ----- the code

  /** One turn of the inner loop. */
  function Turn(crc: bv32): bv32 {
    if crc & 1 != 0 then (crc >> 1) ^ 0x82F63B78 else crc >> 1
  }

  function Bit(b: bool): bv32 {
    if b then 1 else 0
  }

  function Xor(x: bv32, y: bv32): bv32 { x ^ y }
  function Wide(b: bv8): bv32 { b as bv32 }
  function Odd(b: bv8): bool { b & 1 != 0 }
  function Half(b: bv8): bv8 { b >> 1 }

  const CRC: Machine<bv32, bv8> := Machine(
    (x: bv32) => Turn(x), (x: bv32, y: bv32) => Xor(x, y), (b: bool) => Bit(b),
    (b: bv8) => Wide(b), (b: bv8) => Odd(b), (b: bv8) => Half(b), 0)

  function Flip(x: bv32): bv32 { !x }

  const FLIP: bv32 -> bv32 := (x: bv32) => Flip(x)

  function Checksum(data: seq<bv8>, initial: bv32): bv32 {
    Sum(initial, data, CRC, FLIP)
  }

  /** The inner loop. */
  method FeedByte(start: bv32, b: bv8) returns (crc: bv32)
    ensures crc == AddByte(start, b, CRC)
  {
    crc := start ^ (b as bv32);
    for bit := 0 to 8
      invariant Turns(crc, 8 - bit, CRC) == AddByte(start, b, CRC)
    {
      ghost var before := crc;
      if crc & 1 != 0 {
        crc := (crc >> 1) ^ 0x82F63B78;
      } else {
        crc := crc >> 1;
      }
      assert crc == CRC.turn(before);
    }
  }

  method Crc32cCompute(data: array<bv8>, initial: bv32) returns (r: bv32)
    ensures r == Checksum(data[..], initial)
  {
    var crc := !initial;
    assert data[..][0..] == data[..];
    for i := 0 to data.Length
      invariant AddBytes(crc, data[i..], CRC) == AddBytes(!initial, data[..], CRC)
    {
      assert data[i..][1..] == data[i + 1..];
      crc := FeedByte(crc, data[i]);
    }
    return !crc;
  }

  // ----- checksumming in pieces

  lemma FlipFlip(x: bv32)
    ensures Flip(Flip(x)) == x
  {
  }

  lemma FlipsBack()
    ensures forall x :: FlipsBackAt(FLIP, x)
  {
    forall x
      ensures FlipsBackAt(FLIP, x)
    {
      FlipFlip(x);
    }
  }

  /** The checksum of a concatenation continues the checksum of its first part. */
  lemma ChecksumContinues(a: seq<bv8>, b: seq<bv8>, initial: bv32)
    ensures Checksum(a + b, initial) == Checksum(b, Checksum(a, initial))
  {
    FlipsBack();
    SumContinues(initial, a, b, CRC, FLIP);
  }

  // ----- feeding bytes and feeding bits

  lemma XorZero(x: bv32, z: bv32)
    requires z == 0
    ensures x ^ z == x
  {
  }

  lemma OddTurn(x: bv32, z: bv32, rest: bv32)
    requires z >> 1 == (x >> 1) ^ rest && z & 1 == x & 1 && x & 1 != 0
    ensures Turn(z) == Turn(x) ^ rest
  {
  }

  lemma EvenTurn(x: bv32, z: bv32, rest: bv32)
    requires z >> 1 == (x >> 1) ^ rest && z & 1 == x & 1 && x & 1 == 0
    ensures Turn(z) == Turn(x) ^ rest
  {
  }

  lemma SameParityTurn(x: bv32, z: bv32, rest: bv32)
    requires z >> 1 == (x >> 1) ^ rest && z & 1 == x & 1
    ensures Turn(z) == Turn(x) ^ rest
  {
    if x & 1 != 0 {
      OddTurn(x, z, rest);
    } else {
      EvenTurn(x, z, rest);
    }
  }

  lemma ByteParts(c: bv32, b: bv8, w: bv32, low: bv32, rest: bv32, c1: bv32, c2: bv32)
    requires w == Wide(b) && rest == Wide(Half(b)) && low == Bit(Odd(b)) && c1 == Xor(c, w) && c2 == Xor(c, low)
    ensures c1 >> 1 == (c2 >> 1) ^ rest && c1 & 1 == c2 & 1
  {
  }

  lemma ByteSplits(c: bv32, b: bv8, w: bv32, low: bv32, rest: bv32, c1: bv32, c2: bv32)
    ensures SplitsAt(CRC, c, b, w, low, rest, c1, c2)
  {
    if w == Wide(b) && rest == Wide(Half(b)) && low == Bit(Odd(b)) && c1 == Xor(c, w) && c2 == Xor(c, low) {
      ByteParts(c, b, w, low, rest, c1, c2);
      SameParityTurn(c2, c1, rest);
    }
  }

  lemma SplitsForAll()
    ensures forall c, b, w, low, rest, c1, c2 :: SplitsAt(CRC, c, b, w, low, rest, c1, c2)
  {
    forall c, b, w, low, rest, c1, c2
      ensures SplitsAt(CRC, c, b, w, low, rest, c1, c2)
    {
      ByteSplits(c, b, w, low, rest, c1, c2);
    }
  }

  lemma NothingAdded(c: bv32, z: bv32)
    ensures AddsNothing(CRC, c, z)
  {
    if z == Wide(0) {
      XorZero(c, z);
    }
  }

  lemma ParityAndHalf(b: bv8, c: bv8)
    requires Odd(b) == Odd(c) && Half(b) == Half(c)
    ensures b == c
  {
  }

  lemma EightHalves(b: bv8)
    ensures Half(Half(Half(Half(Half(Half(Half(Half(b)))))))) == 0
  {
  }

  lemma FitsNext(b: bv8, h: bv8, n: nat)
    requires h == Half(b) && Fits(h, n, CRC)
    ensures Fits(b, n + 1, CRC)
  {
  }

  lemma ByteFits(b: bv8)
    ensures Fits(b, 8, CRC)
  {
    var b1 := Half(b); var b2 := Half(b1); var b3 := Half(b2); var b4 := Half(b3);
    var b5 := Half(b4); var b6 := Half(b5); var b7 := Half(b6); var b8 := Half(b7);
    EightHalves(b);
    FitsNext(b7, b8, 0);
    FitsNext(b6, b7, 1);
    FitsNext(b5, b6, 2);
    FitsNext(b4, b5, 3);
    FitsNext(b3, b4, 4);
    FitsNext(b2, b3, 5);
    FitsNext(b1, b2, 6);
    FitsNext(b, b1, 7);
  }

  lemma BytesSplit()
    ensures Splits(CRC)
  {
    SplitsForAll();
    forall c, z
      ensures AddsNothing(CRC, c, z)
    {
      NothingAdded(c, z);
    }
    forall b, c
      ensures ParityAndHalfAt(CRC, b, c)
    {
      if Odd(b) == Odd(c) && Half(b) == Half(c) {
        ParityAndHalf(b, c);
      }
    }
    forall b
      ensures Fits(b, 8, CRC)
    {
      ByteFits(b);
    }
  }

  // ----- how far registers are apart

  function AtLeast(x: bv32, y: bv32, t: bv32): bool { x ^ y >= t }
  function HalvesAtLeast(x: bv32, y: bv32, t: bv32): bool { (x >> 1) ^ (y >> 1) >= t >> 1 }
  function Live(t: bv32): bool { t != 0 }
  function Lower(t: bv32): bv32 { t >> 1 }

  /** Registers are apart at level t when their exclusive or is at least t. */
  const GAUGE: Gauge<bv32, bv32> := Gauge(
    (x: bv32, y: bv32, t: bv32) => AtLeast(x, y, t), (x: bv32, y: bv32, t: bv32) => HalvesAtLeast(x, y, t),
    (t: bv32) => Live(t), (t: bv32) => Lower(t), 0x8000_0000)

  lemma ShiftDropsLowBit(x: bv32, a: bv32, x1: bv32)
    requires (a == 0 || a == 1) && x1 == x ^ a
    ensures x1 >> 1 == x >> 1
  {
  }

  lemma ShiftOfXor(x: bv32, y: bv32)
    ensures (x >> 1) ^ (y >> 1) == (x ^ y) >> 1
  {
  }

  lemma HalfStaysLarge(d: bv32, t: bv32)
    requires d >= t
    ensures d >> 1 >= t >> 1
  {
  }

  lemma EvenTurnsTogether(x: bv32, y: bv32)
    requires x & 1 == 0 && y & 1 == 0
    ensures Turn(x) ^ Turn(y) == (x >> 1) ^ (y >> 1)
  {
  }

  lemma OddTurnsTogether(x: bv32, y: bv32)
    requires x & 1 != 0 && y & 1 != 0
    ensures Turn(x) ^ Turn(y) == (x >> 1) ^ (y >> 1)
  {
  }

  lemma SameParityTurns(x: bv32, y: bv32)
    requires x & 1 == y & 1
    ensures Turn(x) ^ Turn(y) == (x >> 1) ^ (y >> 1)
  {
    if x & 1 == 0 {
      EvenTurnsTogether(x, y);
    } else {
      OddTurnsTogether(x, y);
    }
  }

  lemma OtherParityTurns(x: bv32, y: bv32)
    requires x & 1 != y & 1
    ensures Turn(x) ^ Turn(y) >= 0x8000_0000
  {
  }

  lemma HalvesStayApart(x: bv32, y: bv32, t: bv32)
    requires x ^ y >= t
    ensures (x >> 1) ^ (y >> 1) >= t >> 1
  {
    ShiftOfXor(x, y);
    HalfStaysLarge(x ^ y, t);
  }

  lemma Near(x: bv32, y: bv32, t: bv32)
    ensures NearAt(GAUGE, x, y, t)
  {
    if AtLeast(x, y, t) {
      HalvesStayApart(x, y, t);
    }
  }

  // The premise and the conclusion of a law are met one at a time: together they are too
  // much for the solver.

  ghost predicate AddPremise(x: bv32, y: bv32, a: bv32, b: bv32, x1: bv32, y1: bv32) {
    && (a == CRC.bit(true) || a == CRC.bit(false)) && (b == CRC.bit(true) || b == CRC.bit(false))
    && x1 == CRC.add(x, a) && y1 == CRC.add(y, b)
  }

  lemma AddedBitsAreLow(x: bv32, y: bv32, a: bv32, b: bv32, x1: bv32, y1: bv32)
    requires AddPremise(x, y, a, b, x1, y1)
    ensures x1 >> 1 == x >> 1 && y1 >> 1 == y >> 1
  {
    ShiftDropsLowBit(x, a, x1);
    ShiftDropsLowBit(y, b, y1);
  }

  lemma NearByHalves(x: bv32, y: bv32, a: bv32, b: bv32, x1: bv32, y1: bv32, t: bv32)
    requires x1 >> 1 == x >> 1 && y1 >> 1 == y >> 1
    ensures StaysNearAt(CRC, GAUGE, x, y, a, b, x1, y1, t)
  {
  }

  lemma NearByPremise(x: bv32, y: bv32, a: bv32, b: bv32, x1: bv32, y1: bv32, t: bv32)
    requires !AddPremise(x, y, a, b, x1, y1)
    ensures StaysNearAt(CRC, GAUGE, x, y, a, b, x1, y1, t)
  {
  }

  lemma StaysNear(x: bv32, y: bv32, a: bv32, b: bv32, x1: bv32, y1: bv32, t: bv32)
    ensures StaysNearAt(CRC, GAUGE, x, y, a, b, x1, y1, t)
  {
    if AddPremise(x, y, a, b, x1, y1) {
      AddedBitsAreLow(x, y, a, b, x1, y1);
      NearByHalves(x, y, a, b, x1, y1, t);
    } else {
      NearByPremise(x, y, a, b, x1, y1, t);
    }
  }

  lemma SameParityDrops(x: bv32, y: bv32, t: bv32)
    requires x & 1 == y & 1 && HalvesAtLeast(x, y, t)
    ensures AtLeast(Turn(x), Turn(y), Lower(t))
  {
    SameParityTurns(x, y);
  }

  lemma OtherParityDrops(x: bv32, y: bv32, t: bv32)
    requires x & 1 != y & 1
    ensures AtLeast(Turn(x), Turn(y), Lower(t))
  {
  }

  lemma TurnsDrop(x: bv32, y: bv32, t: bv32)
    requires HalvesAtLeast(x, y, t)
    ensures AtLeast(Turn(x), Turn(y), Lower(t))
  {
    if x & 1 == y & 1 {
      SameParityDrops(x, y, t);
    } else {
      OtherParityDrops(x, y, t);
    }
  }

  lemma Drops(x: bv32, y: bv32, t: bv32)
    ensures DropsAt(CRC, GAUGE, x, y, t)
  {
    if HalvesAtLeast(x, y, t) {
      TurnsDrop(x, y, t);
    }
  }

  lemma EqualIsNowhereApart(x: bv32)
    ensures x ^ x == 0
  {
  }

  lemma Differs(x: bv32, y: bv32, t: bv32)
    ensures DiffersAt(GAUGE, x, y, t)
  {
    EqualIsNowhereApart(x);
  }

  lemma OneBitFlipsParity(x: bv32, a: bv32, b: bv32, x1: bv32, y1: bv32)
    requires ((a == 0 && b == 1) || (a == 1 && b == 0)) && x1 == x ^ a && y1 == x ^ b
    ensures x1 & 1 != y1 & 1
  {
  }

  lemma OtherParityIsTop(x1: bv32, y1: bv32)
    requires x1 & 1 != y1 & 1
    ensures AtLeast(Turn(x1), Turn(y1), 0x8000_0000)
  {
  }

  lemma DifferentBitsStart(x: bv32, a: bv32, b: bv32, x1: bv32, y1: bv32)
    requires ((a == 0 && b == 1) || (a == 1 && b == 0)) && x1 == x ^ a && y1 == x ^ b
    ensures AtLeast(Turn(x1), Turn(y1), 0x8000_0000)
  {
    OneBitFlipsParity(x, a, b, x1, y1);
    OtherParityIsTop(x1, y1);
  }

  ghost predicate StartPremise(x: bv32, a: bv32, b: bv32, x1: bv32, y1: bv32) {
    && ((a == CRC.bit(true) && b == CRC.bit(false)) || (a == CRC.bit(false) && b == CRC.bit(true)))
    && x1 == CRC.add(x, a) && y1 == CRC.add(x, b)
  }

  lemma StartConclusion(x: bv32, a: bv32, b: bv32, x1: bv32, y1: bv32)
    requires StartPremise(x, a, b, x1, y1)
    ensures AtLeast(Turn(x1), Turn(y1), 0x8000_0000)
  {
    DifferentBitsStart(x, a, b, x1, y1);
  }

  lemma StartsByPremise(x: bv32, a: bv32, b: bv32, x1: bv32, y1: bv32)
    requires !StartPremise(x, a, b, x1, y1)
    ensures StartsAt(CRC, GAUGE, x, a, b, x1, y1)
  {
  }

  lemma StartsByConclusion(x: bv32, a: bv32, b: bv32, x1: bv32, y1: bv32)
    requires AtLeast(Turn(x1), Turn(y1), 0x8000_0000)
    ensures StartsAt(CRC, GAUGE, x, a, b, x1, y1)
  {
  }

  lemma Starts(x: bv32, a: bv32, b: bv32, x1: bv32, y1: bv32)
    ensures StartsAt(CRC, GAUGE, x, a, b, x1, y1)
  {
    if StartPremise(x, a, b, x1, y1) {
      StartConclusion(x, a, b, x1, y1);
      StartsByConclusion(x, a, b, x1, y1);
    } else {
      StartsByPremise(x, a, b, x1, y1);
    }
  }

  lemma XorIsInjective(x: bv32, y: bv32, a: bv32)
    requires x ^ a == y ^ a
    ensures x == y
  {
  }

  lemma ShiftAndParity(x: bv32, y: bv32)
    requires x & 1 == y & 1 && (x >> 1) ^ (y >> 1) == 0
    ensures x == y
  {
  }

  lemma XorOfEqual(x: bv32, y: bv32)
    requires x == y
    ensures x ^ y == 0
  {
  }

  lemma TurnIsInjective(x: bv32, y: bv32)
    requires Turn(x) == Turn(y)
    ensures x == y
  {
    XorOfEqual(Turn(x), Turn(y));
    if x & 1 == y & 1 {
      SameParityTurns(x, y);
      ShiftAndParity(x, y);
    } else {
      OtherParityTurns(x, y);
    }
  }

  lemma Keeps(x: bv32, y: bv32, a: bv32, x1: bv32, y1: bv32)
    ensures KeepsAt(CRC, x, y, a, x1, y1)
  {
    if x1 == Xor(x, a) && y1 == Xor(y, a) && Turn(x1) == Turn(y1) {
      TurnIsInjective(x1, y1);
      XorIsInjective(x, y, a);
    }
  }

  lemma GaugeMeasures()
    ensures Measures(CRC, GAUGE)
  {
    forall x, y, t
      ensures NearAt(GAUGE, x, y, t)
    {
      Near(x, y, t);
    }
    forall x, y, a, b, x1, y1, t
      ensures StaysNearAt(CRC, GAUGE, x, y, a, b, x1, y1, t)
    {
      StaysNear(x, y, a, b, x1, y1, t);
    }
    forall x, y, t
      ensures DropsAt(CRC, GAUGE, x, y, t)
    {
      Drops(x, y, t);
    }
    forall x, y, t
      ensures DiffersAt(GAUGE, x, y, t)
    {
      Differs(x, y, t);
    }
    forall x, a, b, x1, y1
      ensures StartsAt(CRC, GAUGE, x, a, b, x1, y1)
    {
      Starts(x, a, b, x1, y1);
    }
    forall x, y, a, x1, y1
      ensures KeepsAt(CRC, x, y, a, x1, y1)
    {
      Keeps(x, y, a, x1, y1);
    }
  }

  lemma RoomAbove(t: bv32, h: bv32, n: nat)
    requires t != 0 && h == Lower(t) && Room(h, n, GAUGE)
    ensures Room(t, n + 1, GAUGE)
  {
  }

  /** Room for eight more levels. */
  lemma RoomEightAbove(t: bv32, h: bv32, n: nat)
    requires t >> 7 != 0 && h == t >> 8 && Room(h, n, GAUGE)
    ensures Room(t, n + 8, GAUGE)
  {
    RoomAbove(t >> 7, h, n);
    RoomAbove(t >> 6, t >> 7, n + 1);
    RoomAbove(t >> 5, t >> 6, n + 2);
    RoomAbove(t >> 4, t >> 5, n + 3);
    RoomAbove(t >> 3, t >> 4, n + 4);
    RoomAbove(t >> 2, t >> 3, n + 5);
    RoomAbove(t >> 1, t >> 2, n + 6);
    RoomAbove(t, t >> 1, n + 7);
  }

  lemma TopHasRoom()
    ensures Room(0x8000_0000, 31, GAUGE)
  {
    RoomAbove(2, 1, 0);
    RoomAbove(4, 2, 1);
    RoomAbove(8, 4, 2);
    RoomAbove(0x10, 8, 3);
    RoomAbove(0x20, 0x10, 4);
    RoomAbove(0x40, 0x20, 5);
    RoomAbove(0x80, 0x40, 6);
    RoomEightAbove(0x8000, 0x80, 7);
    RoomEightAbove(0x80_0000, 0x8000, 15);
    RoomEightAbove(0x8000_0000, 0x80_0000, 23);
  }

  // ----- error detection

  /** Messages whose bits differ only inside a window of 32 consecutive bits, at any offset,
      have different checksums. */
  lemma BurstsAreDetected(p: seq<bv8>, q: seq<bv8>, before: seq<bool>, xs: seq<bool>, ys: seq<bool>, behind: seq<bool>,
                          initial: bv32)
    requires MessageBits(p, CRC) == before + xs + behind && MessageBits(q, CRC) == before + ys + behind
    requires |xs| == |ys| <= 32 && p != q
    ensures Checksum(p, initial) != Checksum(q, initial)
  {
    BytesSplit();
    GaugeMeasures();
    TopHasRoom();
    FlipsBack();
    SumsSeparate(initial, p, q, before, xs, ys, behind, 31, CRC, GAUGE, FLIP);
  }

  /** In particular when they differ only inside four consecutive bytes. */
  lemma FourByteChangesAreDetected(before: seq<bv8>, xs: seq<bv8>, ys: seq<bv8>, behind: seq<bv8>, initial: bv32)
    requires |xs| == |ys| <= 4 && xs != ys
    ensures Checksum(before + xs + behind, initial) != Checksum(before + ys + behind, initial)
  {
    BytesSplit();
    GaugeMeasures();
    TopHasRoom();
    FlipsBack();
    ByteWindowsSeparate(initial, before, xs, ys, behind, 31, CRC, GAUGE, FLIP);
  }
}
