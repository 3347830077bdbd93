/** A register that takes message bits and turns, for any register and byte type. The checksum
    code is one instance; the theorems are proved here, where no bit pattern is in sight. */
module ShiftRegister {

  /** One turn, exclusive or, a bit as a register; and how a byte becomes a register, gives
      its lowest bit, and is shifted, until it is `zero`. */
  datatype Machine<!R, !B> = Machine(
    turn: R -> R, add: (R, R) -> R, bit: bool -> R, widen: B -> R, odd: B -> bool, half: B -> B, zero: B)

  function Turns<R, B>(c: R, n: nat, m: Machine<R, B>): R
    decreases n
  {
    if n == 0 then c else Turns(m.turn(c), n - 1, m)
  }

  function AddByte<R, B>(c: R, b: B, m: Machine<R, B>): R {
    Turns(m.add(c, m.widen(b)), 8, m)
  }

  function AddBytes<R, B>(c: R, data: seq<B>, m: Machine<R, B>): R
    decreases |data|
  {
    if data == [] then c else AddBytes(AddByte(c, data[0], m), data[1..], m)
  }

  lemma {:induction false} AddConcatenation<R, B>(c: R, a: seq<B>, b: seq<B>, m: Machine<R, B>)
    ensures AddBytes(c, a + b, m) == AddBytes(AddBytes(c, a, m), b, m)
    decreases |a|
  {
    if a == [] {
      assert a + b == b;
    } else {
      assert (a + b)[1..] == a[1..] + b;
      AddConcatenation(AddByte(c, a[0], m), a[1..], b, m);
    }
  }

  /** A checksum flips the register before and after. */
  function Sum<R, B>(c: R, data: seq<B>, m: Machine<R, B>, flip: R -> R): R {
    flip(AddBytes(flip(c), data, m))
  }

  ghost predicate FlipsBackAt<R>(flip: R -> R, x: R) {
    flip(flip(x)) == x
  }

  lemma SumContinues<R(!new), B>(c: R, a: seq<B>, b: seq<B>, m: Machine<R, B>, flip: R -> R)
    requires forall x :: FlipsBackAt(flip, x)
    ensures Sum(c, a + b, m, flip) == Sum(Sum(c, a, m, flip), b, m, flip)
  {
    AddConcatenation(flip(c), a, b, m);
    assert FlipsBackAt(flip, AddBytes(flip(c), a, m));
  }

  // ----- bit by bit

  /** The classical form: feed one message bit, then turn. */
  function AddBit<R, B>(c: R, bit: bool, m: Machine<R, B>): R {
    m.turn(m.add(c, m.bit(bit)))
  }

  function AddBits<R, B>(c: R, bits: seq<bool>, m: Machine<R, B>): R
    decreases |bits|
  {
    if bits == [] then c else AddBits(AddBit(c, bits[0], m), bits[1..], m)
  }

  lemma {:induction false} AddBitsConcatenation<R, B>(c: R, a: seq<bool>, b: seq<bool>, m: Machine<R, B>)
    ensures AddBits(c, a + b, m) == AddBits(AddBits(c, a, m), b, m)
    decreases |a|
  {
    if a == [] {
      assert a + b == b;
    } else {
      assert (a + b)[1..] == a[1..] + b;
      AddBitsConcatenation(AddBit(c, a[0], m), a[1..], b, m);
    }
  }

  /** The n lowest bits of a byte, least significant first. */
  function BitsOf<R, B>(b: B, n: nat, m: Machine<R, B>): (r: seq<bool>)
    ensures |r| == n
    decreases n
  {
    if n == 0 then [] else [m.odd(b)] + BitsOf(m.half(b), n - 1, m)
  }

  function MessageBits<R, B>(data: seq<B>, m: Machine<R, B>): (r: seq<bool>)
    ensures |r| == 8 * |data|
  {
    if data == [] then [] else BitsOf(data[0], 8, m) + MessageBits(data[1..], m)
  }

  lemma {:induction false} MessageBitsConcatenation<R, B>(a: seq<B>, b: seq<B>, m: Machine<R, B>)
    ensures MessageBits(a + b, m) == MessageBits(a, m) + MessageBits(b, m)
    decreases |a|
  {
    if a == [] {
      assert a + b == b;
    } else {
      assert (a + b)[1..] == a[1..] + b;
      MessageBitsConcatenation(a[1..], b, m);
    }
  }

  /** A byte added before a turn may be added as its lowest bit, and the rest after the turn.
      (The laws name every intermediate value, to keep the proofs for an instance small.) */
  ghost predicate SplitsAt<R, B>(m: Machine<R, B>, c: R, b: B, whole: R, low: R, rest: R, c1: R, c2: R) {
    && whole == m.widen(b) && low == m.bit(m.odd(b)) && rest == m.widen(m.half(b))
    && c1 == m.add(c, whole) && c2 == m.add(c, low)
    ==> m.turn(c1) == m.add(m.turn(c2), rest)
  }

  ghost predicate AddsNothing<R, B>(m: Machine<R, B>, c: R, z: R) {
    z == m.widen(m.zero) ==> m.add(c, z) == c
  }

  ghost predicate ParityAndHalfAt<R, B>(m: Machine<R, B>, b: B, c: B) {
    m.odd(b) == m.odd(c) && m.half(b) == m.half(c) ==> b == c
  }

  /** After n halvings nothing of the byte is left. */
  ghost predicate Fits<R, B>(b: B, n: nat, m: Machine<R, B>)
    decreases n
  {
    if n == 0 then b == m.zero else Fits(m.half(b), n - 1, m)
  }

  ghost predicate Splits<R(!new), B(!new)>(m: Machine<R, B>) {
    && (forall c, b, whole, low, rest, c1, c2 :: SplitsAt(m, c, b, whole, low, rest, c1, c2))
    && (forall c, z :: AddsNothing(m, c, z))
    && (forall b, c :: ParityAndHalfAt(m, b, c))
    && (forall b :: Fits(b, 8, m))
  }

  lemma {:induction false} TurnsFeedBits<R(!new), B(!new)>(c: R, b: B, n: nat, m: Machine<R, B>)
    requires Splits(m) && Fits(b, n, m)
    ensures Turns(m.add(c, m.widen(b)), n, m) == AddBits(c, BitsOf(b, n, m), m)
    decreases n
  {
    if n == 0 {
      assert AddsNothing(m, c, m.widen(b));
    } else {
      var whole, low, rest := m.widen(b), m.bit(m.odd(b)), m.widen(m.half(b));
      assert SplitsAt(m, c, b, whole, low, rest, m.add(c, whole), m.add(c, low));
      TurnsFeedBits(AddBit(c, m.odd(b), m), m.half(b), n - 1, m);
      assert BitsOf(b, n, m)[1..] == BitsOf(m.half(b), n - 1, m);
    }
  }

  lemma {:induction false} BitsTellBytes<R(!new), B(!new)>(b: B, c: B, n: nat, m: Machine<R, B>)
    requires Splits(m) && Fits(b, n, m) && Fits(c, n, m) && b != c
    ensures BitsOf(b, n, m) != BitsOf(c, n, m)
    decreases n
  {
    if n > 0 {
      assert ParityAndHalfAt(m, b, c);
      assert BitsOf(b, n, m)[1..] == BitsOf(m.half(b), n - 1, m);
      assert BitsOf(c, n, m)[1..] == BitsOf(m.half(c), n - 1, m);
      assert BitsOf(b, n, m)[0] == m.odd(b) && BitsOf(c, n, m)[0] == m.odd(c);
      if m.half(b) != m.half(c) {
        BitsTellBytes(m.half(b), m.half(c), n - 1, m);
      }
    }
  }

  lemma FirstBits<R(!new), B(!new)>(xs: seq<B>, m: Machine<R, B>)
    requires xs != []
    ensures var p := MessageBits(xs, m);
      |p| >= 8 && p[..8] == BitsOf(xs[0], 8, m) && p[8..] == MessageBits(xs[1..], m)
  {
  }

  lemma {:induction false} BitsTellMessages<R(!new), B(!new)>(xs: seq<B>, ys: seq<B>, m: Machine<R, B>)
    requires Splits(m) && |xs| == |ys| && xs != ys
    ensures MessageBits(xs, m) != MessageBits(ys, m)
  {
    hide MessageBits, BitsOf;
    FirstBits(xs, m);
    FirstBits(ys, m);
    if xs[0] != ys[0] {
      BitsTellBytes(xs[0], ys[0], 8, m);
    } else {
      assert xs == [xs[0]] + xs[1..] && ys == [ys[0]] + ys[1..];
      BitsTellMessages(xs[1..], ys[1..], m);
    }
  }

  /** Adding bytes and turning eight times is feeding the bits of the message. */
  lemma {:induction false} BytesFeedBits<R(!new), B(!new)>(c: R, data: seq<B>, m: Machine<R, B>)
    requires Splits(m)
    ensures AddBytes(c, data, m) == AddBits(c, MessageBits(data, m), m)
    decreases |data|
  {
    if data != [] {
      TurnsFeedBits(c, data[0], 8, m);
      BytesFeedBits(AddByte(c, data[0], m), data[1..], m);
      AddBitsConcatenation(c, BitsOf(data[0], 8, m), MessageBits(data[1..], m), m);
    }
  }

  // ----- differences

  /** A gauge says how far two registers are apart: `apart(x, y, l)`, at level l or more;
      `near` is the same when the lowest bits do not matter. */
  datatype Gauge<!R, !L> = Gauge(
    apart: (R, R, L) -> bool, near: (R, R, L) -> bool, live: L -> bool, lower: L -> L, top: L)

  ghost predicate NearAt<R, L>(g: Gauge<R, L>, x: R, y: R, l: L) {
    g.apart(x, y, l) ==> g.near(x, y, l)
  }

  ghost predicate StaysNearAt<R, B, L>(m: Machine<R, B>, g: Gauge<R, L>, x: R, y: R, a: R, b: R, x1: R, y1: R, l: L) {
    && (a == m.bit(true) || a == m.bit(false)) && (b == m.bit(true) || b == m.bit(false))
    && x1 == m.add(x, a) && y1 == m.add(y, b) && g.near(x, y, l)
    ==> g.near(x1, y1, l)
  }

  ghost predicate DropsAt<R, B, L>(m: Machine<R, B>, g: Gauge<R, L>, x: R, y: R, l: L) {
    g.near(x, y, l) ==> g.apart(m.turn(x), m.turn(y), g.lower(l))
  }

  ghost predicate DiffersAt<R, L>(g: Gauge<R, L>, x: R, y: R, l: L) {
    g.live(l) && g.apart(x, y, l) ==> x != y
  }

  ghost predicate StartsAt<R, B, L>(m: Machine<R, B>, g: Gauge<R, L>, x: R, a: R, b: R, x1: R, y1: R) {
    && ((a == m.bit(true) && b == m.bit(false)) || (a == m.bit(false) && b == m.bit(true)))
    && x1 == m.add(x, a) && y1 == m.add(x, b)
    ==> g.apart(m.turn(x1), m.turn(y1), g.top)
  }

  ghost predicate KeepsAt<R, B>(m: Machine<R, B>, x: R, y: R, a: R, x1: R, y1: R) {
    x != y && x1 == m.add(x, a) && y1 == m.add(y, a) ==> m.turn(x1) != m.turn(y1)
  }

  /** Different bits put two equal registers apart at the top level; every turn lowers the
      level by at most one; equal bits never make different registers equal. */
  ghost predicate Measures<R(!new), B, L(!new)>(m: Machine<R, B>, g: Gauge<R, L>) {
    && (forall x, y, l :: NearAt(g, x, y, l))
    && (forall x, y, a, b, x1, y1, l :: StaysNearAt(m, g, x, y, a, b, x1, y1, l))
    && (forall x, y, l :: DropsAt(m, g, x, y, l))
    && (forall x, y, l :: DiffersAt(g, x, y, l))
    && (forall x, a, b, x1, y1 :: StartsAt(m, g, x, a, b, x1, y1))
    && (forall x, y, a, x1, y1 :: KeepsAt(m, x, y, a, x1, y1))
  }

  /** There are n live levels below l. */
  predicate Room<R, L>(l: L, n: nat, g: Gauge<R, L>)
    decreases n
  {
    g.live(l) && (n > 0 ==> Room(g.lower(l), n - 1, g))
  }

  lemma {:induction false} LessRoom<R, L>(l: L, n: nat, k: nat, g: Gauge<R, L>)
    requires Room(l, n, g) && k <= n
    ensures Room(l, k, g)
    decreases n
  {
    if k > 0 {
      LessRoom(g.lower(l), n - 1, k - 1, g);
    }
  }

  lemma {:induction false} DifferenceSurvives<R(!new), B, L(!new)>(x: R, y: R, xs: seq<bool>, ys: seq<bool>, l: L,
                                                                m: Machine<R, B>, g: Gauge<R, L>)
    requires Measures(m, g) && |xs| == |ys| && Room(l, |xs|, g) && g.apart(x, y, l)
    ensures AddBits(x, xs, m) != AddBits(y, ys, m)
    decreases |xs|
  {
    if xs == [] {
      assert DiffersAt(g, x, y, l);
    } else {
      var a, b := m.bit(xs[0]), m.bit(ys[0]);
      assert NearAt(g, x, y, l);
      assert StaysNearAt(m, g, x, y, a, b, m.add(x, a), m.add(y, b), l);
      assert DropsAt(m, g, m.add(x, a), m.add(y, b), l);
      DifferenceSurvives(AddBit(x, xs[0], m), AddBit(y, ys[0], m), xs[1..], ys[1..], g.lower(l), m, g);
    }
  }

  lemma {:induction false} EqualBitsKeep<R(!new), B, L(!new)>(x: R, y: R, bits: seq<bool>, m: Machine<R, B>,
        g: Gauge<R, L>)
    requires Measures(m, g) && x != y
    ensures AddBits(x, bits, m) != AddBits(y, bits, m)
    decreases |bits|
  {
    if bits != [] {
      var a := m.bit(bits[0]);
      assert KeepsAt(m, x, y, a, m.add(x, a), m.add(y, a));
      EqualBitsKeep(AddBit(x, bits[0], m), AddBit(y, bits[0], m), bits[1..], m, g);
    }
  }

  lemma {:induction false} BurstSeparates<R(!new), B, L(!new)>(c: R, xs: seq<bool>, ys: seq<bool>, n: nat,
                                                            m: Machine<R, B>, g: Gauge<R, L>)
    requires Measures(m, g) && Room(g.top, n, g)
    requires |xs| == |ys| <= n + 1 && xs != ys
    ensures AddBits(c, xs, m) != AddBits(c, ys, m)
    decreases |xs|
  {
    if xs[0] == ys[0] {
      assert xs == [xs[0]] + xs[1..] && ys == [ys[0]] + ys[1..];
      BurstSeparates(AddBit(c, xs[0], m), xs[1..], ys[1..], n, m, g);
    } else {
      var a, b := m.bit(xs[0]), m.bit(ys[0]);
      assert StartsAt(m, g, c, a, b, m.add(c, a), m.add(c, b));
      LessRoom(g.top, n, |xs| - 1, g);
      DifferenceSurvives(AddBit(c, xs[0], m), AddBit(c, ys[0], m), xs[1..], ys[1..], g.top, m, g);
    }
  }

  /** Bit strings that differ only inside a window of n + 1 consecutive bits leave different registers. */
  lemma WindowSeparates<R(!new), B, L(!new)>(c: R, before: seq<bool>, xs: seq<bool>, ys: seq<bool>, behind: seq<bool>,
                                          n: nat, m: Machine<R, B>, g: Gauge<R, L>)
    requires Measures(m, g) && Room(g.top, n, g)
    requires |xs| == |ys| <= n + 1 && xs != ys
    ensures AddBits(c, before + xs + behind, m) != AddBits(c, before + ys + behind, m)
  {
    var c1 := AddBits(c, before, m);
    BurstSeparates(c1, xs, ys, n, m, g);
    EqualBitsKeep(AddBits(c1, xs, m), AddBits(c1, ys, m), behind, m, g);
    AddBitsConcatenation(c, before, xs, m);
    AddBitsConcatenation(c, before, ys, m);
    AddBitsConcatenation(c, before + xs, behind, m);
    AddBitsConcatenation(c, before + ys, behind, m);
  }

  /** Different messages whose bits differ only inside a window of n + 1 bits leave different registers. */
  lemma MessagesSeparate<R(!new), B(!new), L(!new)>(c: R, p: seq<B>, q: seq<B>, before: seq<bool>, xs: seq<bool>,
                                                  ys: seq<bool>, behind: seq<bool>, n: nat, m: Machine<R, B>,
                                                        g: Gauge<R, L>)
    requires Splits(m) && Measures(m, g) && Room(g.top, n, g)
    requires MessageBits(p, m) == before + xs + behind && MessageBits(q, m) == before + ys + behind
    requires |xs| == |ys| <= n + 1 && p != q
    ensures AddBytes(c, p, m) != AddBytes(c, q, m)
  {
    assert |p| == |q|;
    BitsTellMessages(p, q, m);
    BytesFeedBits(c, p, m);
    BytesFeedBits(c, q, m);
    WindowSeparates(c, before, xs, ys, behind, n, m, g);
  }

  lemma SumsSeparate<R(!new), B(!new), L(!new)>(c: R, p: seq<B>, q: seq<B>, before: seq<bool>, xs: seq<bool>,
                                              ys: seq<bool>, behind: seq<bool>, n: nat, m: Machine<R, B>, g: Gauge<R, L>,
                                              flip: R -> R)
    requires Splits(m) && Measures(m, g) && Room(g.top, n, g) && forall x :: FlipsBackAt(flip, x)
    requires MessageBits(p, m) == before + xs + behind && MessageBits(q, m) == before + ys + behind
    requires |xs| == |ys| <= n + 1 && p != q
    ensures Sum(c, p, m, flip) != Sum(c, q, m, flip)
  {
    MessagesSeparate(flip(c), p, q, before, xs, ys, behind, n, m, g);
    assert FlipsBackAt(flip, AddBytes(flip(c), p, m)) && FlipsBackAt(flip, AddBytes(flip(c), q, m));
  }

  /** In particular messages that differ only inside n / 8 consecutive bytes. */
  lemma ByteWindowsSeparate<R(!new), B(!new), L(!new)>(c: R, before: seq<B>, xs: seq<B>, ys: seq<B>, behind: seq<B>,
                                                     n: nat, m: Machine<R, B>, g: Gauge<R, L>, flip: R -> R)
    requires Splits(m) && Measures(m, g) && Room(g.top, n, g) && forall x :: FlipsBackAt(flip, x)
    requires 8 * |xs| == 8 * |ys| <= n + 1 && xs != ys
    ensures Sum(c, before + xs + behind, m, flip) != Sum(c, before + ys + behind, m, flip)
  {
    MessageBitsConcatenation(before, xs, m);
    MessageBitsConcatenation(before, ys, m);
    MessageBitsConcatenation(before + xs, behind, m);
    MessageBitsConcatenation(before + ys, behind, m);
    assert (before + xs)[|before|..] == xs && (before + ys)[|before|..] == ys;
    assert (before + xs + behind)[..|before + xs|] == before + xs;
    assert (before + ys + behind)[..|before + ys|] == before + ys;
    SumsSeparate(c, before + xs + behind, before + ys + behind, MessageBits(before, m), MessageBits(xs, m),
                 MessageBits(ys, m), MessageBits(behind, m), n, m, g, flip);
  }
}
