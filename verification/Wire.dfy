/** Little-endian numbers, readers over byte strings and buffers filled at a running offset:
    what the codecs of the Go driver are built from. */
module Wire {
  import opened Wrappers
  import opened Messages

  // ----- numbers

  function Pow256(w: nat): (r: nat)
    ensures r > 0
  {
    if w == 0 then 1 else 256 * Pow256(w - 1)
  }

  /** The low `w` bytes of `v`, least significant first. */
  function LE(v: nat, w: nat): (r: seq<byte>)
    ensures |r| == w
    decreases w
  {
    if w == 0 then [] else [v % 256] + LE(v / 256, w - 1)
  }

  function Num(b: seq<byte>): nat {
    if b == [] then 0 else b[0] + 256 * Num(b[1..])
  }

  lemma DivMod256(x: byte, y: nat)
    ensures (x + 256 * y) % 256 == x && (x + 256 * y) / 256 == y
  {
  }

  lemma LowByteFirst(x: byte, y: nat, w: nat)
    ensures LE(x + 256 * y, w + 1) == [x] + LE(y, w)
  {
    DivMod256(x, y);
  }

  /** The least significant byte comes first. */
  lemma LittleEndian(a: byte, b: byte, c: byte, d: byte)
    ensures LE(a + 0x100 * b + 0x1_0000 * c + 0x100_0000 * d, 4) == [a, b, c, d]
  {
    hide LE;
    var n1, n2 := b + 0x100 * c + 0x1_0000 * d, c + 0x100 * d;
    LowByteFirst(d, 0, 0);
    LowByteFirst(c, d, 1);
    LowByteFirst(b, n2, 2);
    LowByteFirst(a, n1, 3);
    assert n1 == b + 256 * n2 && a + 0x100 * b + 0x1_0000 * c + 0x100_0000 * d == a + 256 * n1;
  }

  lemma Widths()
    ensures Pow256(2) == 0x1_0000 && Pow256(4) == 0x1_0000_0000 && Pow256(8) == UINT64_LIMIT
  {
    assert Pow256(2) == 256 * Pow256(1) == 256 * (256 * Pow256(0));
    assert Pow256(4) == 256 * Pow256(3) == 256 * (256 * Pow256(2));
    assert Pow256(8) == 256 * Pow256(7) == 256 * (256 * Pow256(6));
    assert Pow256(6) == 256 * Pow256(5) == 256 * (256 * Pow256(4));
  }

  lemma {:induction false} NumInvertsLE(v: nat, w: nat)
    requires v < Pow256(w)
    ensures Num(LE(v, w)) == v
    decreases w
  {
    if w > 0 {
      NumInvertsLE(v / 256, w - 1);
      assert LE(v, w)[1..] == LE(v / 256, w - 1);
    }
  }

  lemma {:induction false} LEInvertsNum(b: seq<byte>)
    ensures Num(b) < Pow256(|b|) && LE(Num(b), |b|) == b
  {
    if b != [] {
      var low, high := b[0], Num(b[1..]);
      LEInvertsNum(b[1..]);
      DivMod256(low, high);
      assert LE(low + 256 * high, |b|) == [low] + LE(high, |b| - 1);
      assert b == [low] + b[1..];
    }
  }

  /** Taking a byte string apart, one piece after the other. */
  lemma NextPart(e: seq<byte>, o: nat, part: seq<byte>, rest: seq<byte>)
    requires o <= |e| && e[o..] == part + rest
    ensures o + |part| <= |e| && e[o..o + |part|] == part && e[o + |part|..] == rest
  {
    assert e[o..][..|part|] == part && e[o..][|part|..] == rest;
  }

  /** Go's conversion of an unsigned number to the signed type of the same `limit`. */
  function Signed(v: nat, limit: nat): int {
    if v < limit / 2 then v else v - limit
  }

  function Unsigned(x: int, limit: nat): int {
    if x < 0 then x + limit else x
  }

  // ----- readers

  type Parsed<T> = Option<(T, seq<byte>)>

  function Take(n: nat, s: seq<byte>): Parsed<seq<byte>> {
    if n <= |s| then Some((s[..n], s[n..])) else None
  }

  function ReadNum(w: nat, s: seq<byte>): Parsed<nat> {
    if w <= |s| then Some((Num(s[..w]), s[w..])) else None
  }

  lemma TakeInverts(b: seq<byte>, rest: seq<byte>)
    ensures Take(|b|, b + rest) == Some((b, rest))
  {
    assert (b + rest)[..|b|] == b && (b + rest)[|b|..] == rest;
  }

  lemma SliceOfSlice(s: seq<byte>, o: nat, a: nat, b: nat)
    requires a <= b && o + b <= |s|
    ensures s[o..][a..b] == s[o + a..o + b]
  {
  }

  lemma RestOfRest(s: seq<byte>, o: nat, a: nat)
    requires o + a <= |s|
    ensures s[o..][a..] == s[o + a..]
  {
  }

  lemma TakeAt(n: nat, p: seq<byte>, o: nat)
    requires o <= |p|
    ensures Take(n, p[o..]) == if o + n > |p| then None else Some((p[o..o + n], p[o + n..]))
  {
    if o + n <= |p| {
      SliceOfSlice(p, o, 0, n);
      RestOfRest(p, o, n);
    }
  }

  lemma ReadNumInverts(v: nat, w: nat, rest: seq<byte>)
    requires v < Pow256(w)
    ensures ReadNum(w, LE(v, w) + rest) == Some((v, rest))
  {
    TakeInverts(LE(v, w), rest);
    NumInvertsLE(v, w);
  }

  lemma ReadNumBounded(w: nat, s: seq<byte>)
    ensures ReadNum(w, s).Some? ==> ReadNum(w, s).value.0 < Pow256(w)
  {
    if w <= |s| {
      LEInvertsNum(s[..w]);
    }
  }

  function ReadU32(s: seq<byte>): Parsed<nat> {
    ReadNum(4, s)
  }

  function WriteU32(x: nat): (r: seq<byte>)
    ensures |r| == 4
  {
    LE(x, 4)
  }

  predicate FitsU32(x: nat) {
    x < 0x1_0000_0000
  }

  lemma U32Codec()
    ensures Inverts(WriteU32, ReadU32, FitsU32) && Bounded(ReadU32, FitsU32)
  {
    Widths();
    forall x: nat, rest | FitsU32(x)
      ensures ReadU32(WriteU32(x) + rest) == Some((x, rest))
    {
      ReadNumInverts(x, 4, rest);
    }
    forall s: seq<byte>
      ensures ReadU32(s).Some? ==> FitsU32(ReadU32(s).value.0)
    {
      ReadNumBounded(4, s);
    }
  }

  function WriteU16(x: nat): (r: seq<byte>)
    ensures |r| == 2
  {
    LE(x, 2)
  }

  function ReadU16(s: seq<byte>): Parsed<nat> {
    ReadNum(2, s)
  }

  predicate FitsU16(x: nat) {
    x < 0x1_0000
  }

  lemma U16Codec()
    ensures Inverts(WriteU16, ReadU16, FitsU16) && Bounded(ReadU16, FitsU16)
  {
    Widths();
    forall x: nat, rest | FitsU16(x)
      ensures ReadU16(WriteU16(x) + rest) == Some((x, rest))
    {
      ReadNumInverts(x, 2, rest);
    }
    forall s: seq<byte>
      ensures ReadU16(s).Some? ==> FitsU16(ReadU16(s).value.0)
    {
      ReadNumBounded(2, s);
    }
  }

  /** A byte string behind its 32-bit length. */
  function WriteBlock(b: seq<byte>): seq<byte> {
    LE(|b|, 4) + b
  }

  function ReadBlock(s: seq<byte>): Parsed<seq<byte>> {
    var length := ReadNum(4, s);
    if length.None? then None else Take(length.value.0, length.value.1)
  }

  lemma ReadBlockInverts(b: seq<byte>, rest: seq<byte>)
    requires |b| < 0x1_0000_0000
    ensures ReadBlock(WriteBlock(b) + rest) == Some((b, rest))
  {
    Widths();
    Assoc(LE(|b|, 4), b, rest);
    ReadNumInverts(|b|, 4, b + rest);
    TakeInverts(b, rest);
  }

  lemma ReadBlockBounded(s: seq<byte>)
    ensures ReadBlock(s).Some? ==> |ReadBlock(s).value.0| < 0x1_0000_0000
  {
    Widths();
    ReadNumBounded(4, s);
  }

  // ----- lists

  ghost predicate Inverts<T(!new)>(write: T -> seq<byte>, read: seq<byte> -> Parsed<T>, fits: T -> bool) {
    forall x, rest :: fits(x) ==> read(write(x) + rest) == Some((x, rest))
  }

  ghost predicate Bounded<T>(read: seq<byte> -> Parsed<T>, fits: T -> bool) {
    forall s :: read(s).Some? ==> fits(read(s).value.0)
  }

  predicate AllFit<T>(fits: T -> bool, xs: seq<T>) {
    forall i :: 0 <= i < |xs| ==> fits(xs[i])
  }

  function WriteMany<T>(write: T -> seq<byte>, xs: seq<T>): seq<byte> {
    if xs == [] then [] else write(xs[0]) + WriteMany(write, xs[1..])
  }

  function ReadMany<T>(read: seq<byte> -> Parsed<T>, n: nat, s: seq<byte>): Parsed<seq<T>>
    decreases n
  {
    if n == 0 then Some(([], s))
    else
      var first := read(s);
      if first.None? then None
      else
        var others := ReadMany(read, n - 1, first.value.1);
        if others.None? then None else Some(([first.value.0] + others.value.0, others.value.1))
  }

  /** What was read before, and then `others`. */
  function Onto<T>(xs: seq<T>, others: Parsed<seq<T>>): Parsed<seq<T>> {
    if others.None? then None else Some((xs + others.value.0, others.value.1))
  }

  lemma OntoNothing<T>(others: Parsed<seq<T>>)
    ensures Onto([], others) == others
  {
    if others.Some? {
      assert [] + others.value.0 == others.value.0;
    }
  }

  lemma OntoStep<T>(read: seq<byte> -> Parsed<T>, xs: seq<T>, n: nat, s: seq<byte>)
    requires n > 0
    ensures Onto(xs, ReadMany(read, n, s)) ==
      if read(s).None? then None else Onto(xs + [read(s).value.0], ReadMany(read, n - 1, read(s).value.1))
  {
    if read(s).Some? {
      var x, others := read(s).value.0, ReadMany(read, n - 1, read(s).value.1);
      if others.Some? {
        assert xs + ([x] + others.value.0) == xs + [x] + others.value.0;
      }
    }
  }

  lemma {:induction false} ReadManyInverts<T(!new)>(write: T -> seq<byte>, read: seq<byte> -> Parsed<T>, fits: T -> bool,
                                              xs: seq<T>, rest: seq<byte>)
    requires Inverts(write, read, fits) && AllFit(fits, xs)
    ensures ReadMany(read, |xs|, WriteMany(write, xs) + rest) == Some((xs, rest))
    decreases |xs|
  {
    if xs == [] {
      assert [] + rest == rest;
    } else {
      var others := WriteMany(write, xs[1..]) + rest;
      assert WriteMany(write, xs) + rest == write(xs[0]) + others;
      assert read(write(xs[0]) + others) == Some((xs[0], others));
      ReadManyInverts(write, read, fits, xs[1..], rest);
      assert [xs[0]] + xs[1..] == xs;
    }
  }

  lemma {:induction false} ReadManyBounded<T>(read: seq<byte> -> Parsed<T>, fits: T -> bool, n: nat, s: seq<byte>)
    requires Bounded(read, fits) && ReadMany(read, n, s).Some?
    ensures |ReadMany(read, n, s).value.0| == n && AllFit(fits, ReadMany(read, n, s).value.0)
    decreases n
  {
    if n > 0 {
      ReadManyBounded(read, fits, n - 1, read(s).value.1);
    }
  }

  lemma ManyStep<T>(write: T -> seq<byte>, xs: seq<T>, i: nat, tail: seq<byte>)
    requires i < |xs|
    ensures WriteMany(write, xs[i..]) + tail == write(xs[i]) + (WriteMany(write, xs[i + 1..]) + tail)
    ensures |WriteMany(write, xs[i..])| == |write(xs[i])| + |WriteMany(write, xs[i + 1..])|
  {
    assert xs[i..][1..] == xs[i + 1..];
  }

  lemma {:induction false} U16sLength(xs: seq<nat>)
    ensures |WriteMany(WriteU16, xs)| == 2 * |xs|
  {
    if xs != [] {
      U16sLength(xs[1..]);
    }
  }

  // ----- buffers

  /** The buffer holds the first part of `goal`, and `rest` is what is still to be written. */
  ghost predicate Filling(buf: array<byte>, offset: nat, rest: seq<byte>, goal: seq<byte>)
    reads buf
  {
    offset <= buf.Length == |goal| && buf[..offset] + rest == goal
  }

  /** Go's copy, followed by the advance of the offset. */
  method Put(buf: array<byte>, offset: nat, data: seq<byte>, ghost rest: seq<byte>, ghost goal: seq<byte>)
    returns (after: nat)
    requires Filling(buf, offset, data + rest, goal)
    modifies buf
    ensures after == offset + |data| && Filling(buf, after, rest, goal)
  {
    ghost var done := buf[..offset];
    assert |done + (data + rest)| == buf.Length;
    forall i | 0 <= i < |data| {
      buf[offset + i] := data[i];
    }
    after := offset + |data|;
    assert buf[..after] == done + data;
    assert done + (data + rest) == done + data + rest;
  }

  /** binary.LittleEndian.PutUint16, 32 and 64, followed by the advance of the offset. */
  method PutNum(buf: array<byte>, offset: nat, v: nat, w: nat, ghost rest: seq<byte>, ghost goal: seq<byte>)
    returns (after: nat)
    requires Filling(buf, offset, LE(v, w) + rest, goal)
    modifies buf
    ensures after == offset + w && Filling(buf, after, rest, goal)
  {
    after := Put(buf, offset, LE(v, w), rest, goal);
  }

  lemma FilledUp(buf: array<byte>, offset: nat, goal: seq<byte>)
    requires Filling(buf, offset, [], goal)
    ensures offset == buf.Length && buf[..] == goal
  {
    assert buf[..offset] + [] == buf[..offset];
    assert buf[..buf.Length] == buf[..];
  }
}
