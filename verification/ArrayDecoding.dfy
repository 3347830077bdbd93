/** decodeArrayBinary and buildNestedArray of sbdriver_conformance.cpp: a binary array is
    read into a flat list of values and folded into nested lists. */
module ArrayDecoding {
  import opened Wrappers
  import opened Messages
  import opened Wire

  const SIZE_LIMIT := UINT64_LIMIT

  /** Floats stay the bits they are read as. */
  datatype Element =
    | Int32(int32: int)
    | Int64(int64: int)
    | Float32(bits32: nat)
    | Float64(bits64: nat)
    | Text(bytes: seq<byte>)
    | Boolean(flag: bool)

  datatype Json = Null | Leaf(element: Element) | Arr(items: seq<Json>)

  // ----- elements

  function ReadElement(kind: byte, s: seq<byte>): Parsed<Element> {
    if kind == 4 then
      var text := ReadBlock(s);
      if text.None? then None else Some((Text(text.value.0), text.value.1))
    else if kind > 5 then None
    else
      var number := ReadNum(Width(kind), s);
      if number.None? then None else Some((NumberElement(kind, number.value.0), number.value.1))
  }

  function Width(kind: byte): (w: nat)
    ensures w > 0
  {
    if kind == 0 || kind == 2 then 4 else if kind == 5 then 1 else 8
  }

  function NumberElement(kind: byte, n: nat): Element {
    if kind == 0 then Int32(Signed(n, 0x1_0000_0000))
    else if kind == 1 then Int64(Signed(n, UINT64_LIMIT))
    else if kind == 2 then Float32(n)
    else if kind == 3 then Float64(n)
    else Boolean(n != 0)
  }

  function ElementReader(kind: byte): seq<byte> -> Parsed<Element> {
    s => ReadElement(kind, s)
  }

  predicate FitsElement(kind: byte, e: Element) {
    match e
    case Int32(x) => kind == 0 && -0x8000_0000 <= x < 0x8000_0000
    case Int64(x) => kind == 1 && -0x8000_0000_0000_0000 <= x < 0x8000_0000_0000_0000
    case Float32(n) => kind == 2 && n < 0x1_0000_0000
    case Float64(n) => kind == 3 && n < UINT64_LIMIT
    case Text(b) => kind == 4 && |b| < 0x1_0000_0000
    case Boolean(_) => kind == 5
  }

  function ElementNumber(e: Element): nat {
    match e
    case Int32(x) => Magnitude(Unsigned(x, 0x1_0000_0000))
    case Int64(x) => Magnitude(Unsigned(x, UINT64_LIMIT))
    case Float32(n) => n
    case Float64(n) => n
    case Text(b) => |b|
    case Boolean(b) => if b then 1 else 0
  }

  function ElementWidth(e: Element): (w: nat)
    ensures w > 0
  {
    match e
    case Int32(_) => 4
    case Int64(_) => 8
    case Float32(_) => 4
    case Float64(_) => 8
    case Boolean(_) => 1
    case Text(_) => 4
  }

  function Magnitude(x: int): nat {
    if x < 0 then 0 else x
  }

  function WriteElement(e: Element): (r: seq<byte>)
    ensures |r| > 0
  {
    if e.Text? then WriteBlock(e.bytes) else LE(ElementNumber(e), ElementWidth(e))
  }

  function ElementWriter(): Element -> seq<byte> {
    e => WriteElement(e)
  }

  function ElementFits(kind: byte): Element -> bool {
    e => FitsElement(kind, e)
  }

  lemma ElementRoundTrip(kind: byte, e: Element, rest: seq<byte>)
    requires FitsElement(kind, e)
    ensures ReadElement(kind, WriteElement(e) + rest) == Some((e, rest))
  {
    if e.Text? {
      ReadBlockInverts(e.bytes, rest);
    } else {
      Widths();
      assert Pow256(1) == 256 * Pow256(0);
      ReadNumInverts(ElementNumber(e), Width(kind), rest);
    }
  }

  // ----- the number of values

  function Product(dims: seq<nat>): nat {
    if dims == [] then 1 else dims[0] * Product(dims[1..])
  }

  /** `total`, multiplied up in size_t. */
  function Total(dims: seq<nat>, total: nat): nat {
    if dims == [] then total
    else if dims[0] == 0 then 0
    else Total(dims[1..], total * dims[0] % SIZE_LIMIT)
  }

  method CountValues(dims: seq<nat>) returns (total: nat)
    ensures total == Total(dims, 1)
  {
    total := 1;
    var i := 0;
    assert dims[0..] == dims;
    while i < |dims|
      invariant i <= |dims|
      invariant Total(dims, 1) == Total(dims[i..], total)
    {
      assert dims[i..][1..] == dims[i + 1..];
      if dims[i] == 0 {
        total := 0;
        break;
      }
      total := total * dims[i] % SIZE_LIMIT;
      i := i + 1;
    }
  }

  lemma ModTimes(a: nat, b: nat)
    ensures a % SIZE_LIMIT * b % SIZE_LIMIT == a * b % SIZE_LIMIT
  {
    var q, r := a / SIZE_LIMIT, a % SIZE_LIMIT;
    TimesSum(SIZE_LIMIT, q, r, b);
    SameRemainder(r * b, q * b);
  }

  lemma TimesSum(m: nat, q: nat, r: nat, b: nat)
    ensures (m * q + r) * b == r * b + m * (q * b)
  {
  }

  lemma SameRemainder(x: nat, z: nat)
    ensures (x + SIZE_LIMIT * z) % SIZE_LIMIT == x % SIZE_LIMIT
  {
  }

  lemma AtLeastOnce(m: nat, k: nat)
    requires k > 0
    ensures m * k >= m
  {
    assert m * k == m * (k - 1) + m;
  }

  lemma TimesGrows(m: nat, k: nat, l: nat)
    requires k <= l
    ensures m * k <= m * l
  {
    assert m * l == m * k + m * (l - k);
  }

  lemma UniqueRemainder(q: int, r: int, p: int, t: int, m: int)
    requires 0 <= r < m && 0 <= t < m && m * q + r == m * p + t
    ensures q == p && r == t
  {
    assert m * (q - p) == m * q - m * p;
    assert m * (p - q) == m * p - m * q;
    if q > p {
      AtLeastOnce(m, q - p);
    } else if q < p {
      AtLeastOnce(m, p - q);
    }
  }

  /** The count is the product of the dimensions, modulo the size of size_t. */
  lemma {:induction false} TotalIsProduct(dims: seq<nat>, total: nat)
    requires total < SIZE_LIMIT
    ensures Total(dims, total) == total * Product(dims) % SIZE_LIMIT
  {
    if dims != [] {
      var d, inner := dims[0], Product(dims[1..]);
      if d == 0 {
        TimesZero(total, inner);
      } else {
        TotalIsProduct(dims[1..], total * d % SIZE_LIMIT);
        TimesBoth(total, d, inner);
      }
    }
  }

  lemma TimesZero(total: nat, inner: nat)
    ensures total * (0 * inner) == 0
  {
  }

  lemma TimesBoth(total: nat, d: nat, inner: nat)
    ensures total * d % SIZE_LIMIT * inner % SIZE_LIMIT == total * (d * inner) % SIZE_LIMIT
  {
    ModTimes(total * d, inner);
    assert total * d * inner == total * (d * inner);
  }

  // ----- the nesting

  /** The value at a flat offset; buildNestedArray puts null where the values have run out. */
  function Entry(values: seq<Element>, offset: nat): Json {
    if offset < |values| then Leaf(values[offset]) else Null
  }

  /** Row-major nesting: item i of the outermost list begins i blocks behind the start. */
  function Nested(values: seq<Element>, dims: seq<nat>, start: nat): Json
    decreases |dims|
  {
    if dims == [] then Entry(values, start) else Arr(Items(values, dims, start))
  }

  function Items(values: seq<Element>, dims: seq<nat>, start: nat): (r: seq<Json>)
    requires dims != []
    ensures |r| == dims[0]
    decreases |dims|, 0
  {
    seq(dims[0], i requires 0 <= i < dims[0] => Nested(values, dims[1..], start + i * Product(dims[1..])))
  }

  function Min(a: nat, b: nat): nat {
    if a < b then a else b
  }

  /** The cursor stops at the last value; `start` is where it would be with enough of them. */
  method BuildNestedArray(values: seq<Element>, dims: seq<nat>, dimIndex: nat, cursor: nat, ghost start: nat)
    returns (out: Json, after: nat)
    requires dimIndex <= |dims| && cursor == Min(start, |values|)
    ensures out == Nested(values, dims[dimIndex..], start)
    ensures after == Min(start + Product(dims[dimIndex..]), |values|)
    decreases |dims| - dimIndex
  {
    if dimIndex >= |dims| {
      if cursor >= |values| {
        return Null, cursor;
      }
      return Leaf(values[cursor]), cursor + 1;
    }
    ghost var inner := dims[dimIndex + 1..];
    assert dims[dimIndex..][1..] == inner;
    var arr: seq<Json> := [];
    after := cursor;
    var i := 0;
    assert 0 * Product(inner) == 0;
    while i < dims[dimIndex]
      invariant i <= dims[dimIndex] && |arr| == i
      invariant after == Min(start + i * Product(inner), |values|)
      invariant forall k :: 0 <= k < i ==> arr[k] == Nested(values, inner, start + k * Product(inner))
    {
      var item;
      item, after := BuildNestedArray(values, dims, dimIndex + 1, after, start + i * Product(inner));
      arr := arr + [item];
      NextBlock(i, Product(inner));
      i := i + 1;
    }
    assert arr == Items(values, dims[dimIndex..], start);
    out := Arr(arr);
  }

  lemma NextBlock(i: nat, block: nat)
    ensures (i + 1) * block == i * block + block
  {
  }

  // ----- indexing

  predicate InBounds(dims: seq<nat>, index: seq<nat>) {
    |dims| == |index| && forall i :: 0 <= i < |dims| ==> index[i] < dims[i]
  }

  /** The mixed-radix value of an index. */
  function Offset(dims: seq<nat>, index: seq<nat>): nat
    requires |dims| == |index|
  {
    if dims == [] then 0 else index[0] * Product(dims[1..]) + Offset(dims[1..], index[1..])
  }

  function Index(dims: seq<nat>, offset: nat): (r: seq<nat>)
    requires offset < Product(dims)
    decreases |dims|
  {
    if dims == [] then []
    else
      Divide(dims[0], Product(dims[1..]), offset);
      [offset / Product(dims[1..])] + Index(dims[1..], offset % Product(dims[1..]))
  }

  lemma Divide(d: nat, block: nat, offset: nat)
    requires offset < d * block
    ensures block > 0 && offset / block < d && offset / block * block + offset % block == offset
  {
    assert block == 0 ==> d * block == 0;
    var q := offset / block;
    assert offset == block * q + offset % block;
    if q >= d {
      TimesGrows(block, d, q);
    }
  }

  /** Every index is the index of exactly one offset below the product, and back. */
  lemma {:induction false} IndexOffset(dims: seq<nat>, offset: nat)
    requires offset < Product(dims)
    ensures InBounds(dims, Index(dims, offset)) && Offset(dims, Index(dims, offset)) == offset
    decreases |dims|
  {
    if dims != [] {
      var block := Product(dims[1..]);
      Divide(dims[0], block, offset);
      IndexOffset(dims[1..], offset % block);
      var index := Index(dims, offset);
      assert index[1..] == Index(dims[1..], offset % block);
      assert forall i :: 1 <= i < |dims| ==> index[i] == index[1..][i - 1] && dims[i] == dims[1..][i - 1];
    }
  }

  lemma OffsetBelow(i: nat, d: nat, block: nat, inner: nat)
    requires i < d && inner < block
    ensures i * block + inner < d * block
    ensures (i * block + inner) / block == i && (i * block + inner) % block == inner
  {
    assert d * block >= (i + 1) * block == i * block + block;
    var x := i * block + inner;
    assert block * (x / block) + x % block == block * i + inner;
    UniqueRemainder(x / block, x % block, i, inner, block);
  }

  lemma {:induction false} OffsetIndex(dims: seq<nat>, index: seq<nat>)
    requires InBounds(dims, index)
    ensures Offset(dims, index) < Product(dims) && Index(dims, Offset(dims, index)) == index
    decreases |dims|
  {
    if dims != [] {
      OffsetIndex(dims[1..], index[1..]);
      OffsetBelow(index[0], dims[0], Product(dims[1..]), Offset(dims[1..], index[1..]));
      assert [index[0]] + index[1..] == index;
    }
  }

  function At(j: Json, index: seq<nat>): Option<Json>
    decreases |index|
  {
    if index == [] then Some(j)
    else if j.Arr? && index[0] < |j.items| then At(j.items[index[0]], index[1..])
    else None
  }

  /** The entry at a multi-index is the value at its mixed-radix offset; there is no entry at
      any other index of that length. */
  lemma {:induction false} RowMajor(values: seq<Element>, dims: seq<nat>, start: nat, index: seq<nat>)
    requires |index| == |dims|
    ensures At(Nested(values, dims, start), index) ==
      if InBounds(dims, index) then Some(Entry(values, start + Offset(dims, index))) else None
    decreases |dims|
  {
    if dims != [] {
      var first := index[0];
      assert InBounds(dims, index) <==> first < dims[0] && InBounds(dims[1..], index[1..]) by {
        assert forall i :: 0 <= i < |dims| - 1 ==> index[1..][i] == index[i + 1] && dims[1..][i] == dims[i + 1];
        assert forall i :: 1 <= i < |dims| ==> index[i] == index[1..][i - 1] && dims[i] == dims[1..][i - 1];
      }
      if first < dims[0] {
        var item := start + first * Product(dims[1..]);
        assert Items(values, dims, start)[first] == Nested(values, dims[1..], item);
        RowMajor(values, dims[1..], item, index[1..]);
      }
    }
  }

  // ----- running out of values

  predicate NoNulls(j: Json) {
    match j
    case Null => false
    case Leaf(_) => true
    case Arr(items) => forall i :: 0 <= i < |items| ==> NoNulls(items[i])
  }

  lemma BlockEnds(i: nat, d: nat, block: nat)
    requires i < d
    ensures i * block + block <= d * block
    ensures i == d - 1 ==> i * block + block == d * block
  {
    var left := d - i - 1;
    assert d * block == (i + 1 + left) * block == (i + 1) * block + left * block;
    assert (i + 1) * block == i * block + block;
    assert left * block >= 0;
  }

  /** The nesting is free of nulls exactly when there are enough values. */
  lemma {:induction false} NullsMeanTooFew(values: seq<Element>, dims: seq<nat>, start: nat)
    ensures NoNulls(Nested(values, dims, start)) <==> Product(dims) == 0 || start + Product(dims) <= |values|
    decreases |dims|
  {
    if dims != [] {
      var d, block, items := dims[0], Product(dims[1..]), Items(values, dims, start);
      forall i | 0 <= i < d
        ensures NoNulls(items[i]) <==> block == 0 || start + i * block + block <= |values|
        ensures i * block + block <= d * block
      {
        NullsMeanTooFew(values, dims[1..], start + i * block);
        BlockEnds(i, d, block);
      }
      if d > 0 {
        BlockEnds(d - 1, d, block);
        if block > 0 && NoNulls(Nested(values, dims, start)) {
          assert NoNulls(items[d - 1]);
        }
      }
    }
  }

  // ----- the whole decoder

  function DecodedArray(data: seq<byte>): Option<Json> {
    if |data| < 2 || |data| < 2 + 4 * (data[1] as int) || data[0] > 5 then None
    else
      var dims := ReadMany(ReadU32, data[1], data[2..]);
      if dims.None? then None
      else
        var values := ReadMany(ElementReader(data[0]), Total(dims.value.0, 1), dims.value.1);
        if values.None? || values.value.1 != [] then None
        else Some(Nested(values.value.0, dims.value.0, 0))
  }

  /** readU8, readU32 and readU64 */
  method ReadNumber(data: seq<byte>, offset: nat, w: nat) returns (ok: bool, out: nat, after: nat)
    requires offset <= |data|
    ensures offset <= after <= |data|
    ensures ReadNum(w, data[offset..]) == if ok then Some((out, data[after..])) else None
  {
    TakeAt(w, data, offset);
    if offset + w > |data| {
      return false, 0, offset;
    }
    return true, Num(data[offset..offset + w]), offset + w;
  }

  method ReadBytes(data: seq<byte>, offset: nat, len: nat) returns (ok: bool, out: seq<byte>, after: nat)
    requires offset <= |data|
    ensures offset <= after <= |data|
    ensures Take(len, data[offset..]) == if ok then Some((out, data[after..])) else None
  {
    TakeAt(len, data, offset);
    if offset + len > |data| {
      return false, [], offset;
    }
    return true, data[offset..offset + len], offset + len;
  }

  method ReadOne(kind: byte, data: seq<byte>, offset: nat) returns (ok: bool, out: Element, after: nat)
    requires offset <= |data| && kind <= 5
    ensures offset <= after <= |data|
    ensures ReadElement(kind, data[offset..]) == if ok then Some((out, data[after..])) else None
  {
    var bits;
    out := Boolean(false);
    match kind {
      case 0 =>
        ok, bits, after := ReadNumber(data, offset, 4);
        out := Int32(Signed(bits, 0x1_0000_0000));
      case 1 =>
        ok, bits, after := ReadNumber(data, offset, 8);
        out := Int64(Signed(bits, UINT64_LIMIT));
      case 2 =>
        ok, bits, after := ReadNumber(data, offset, 4);
        out := Float32(bits);
      case 3 =>
        ok, bits, after := ReadNumber(data, offset, 8);
        out := Float64(bits);
      case 4 =>
        var bytes;
        ok, bits, after := ReadNumber(data, offset, 4);
        if ok {
          ok, bytes, after := ReadBytes(data, after, bits);
          out := Text(bytes);
        }
      case _ =>
        ok, bits, after := ReadNumber(data, offset, 1);
        out := Boolean(bits != 0);
    }
  }

  method DecodeArrayBinary(data: seq<byte>) returns (out: Option<Json>)
    ensures out == DecodedArray(data)
  {
    if |data| < 2 {
      return None;
    }
    var kind, rank := data[0], data[1];
    if |data| < 2 + 4 * (rank as int) {
      return None;
    }
    var dims, offset, ok := ReadDims(data, rank);
    if !ok {
      return None;
    }
    var total := CountValues(dims);
    if kind > 5 {
      return None;
    }
    ghost var start := offset;
    var values: seq<Element> := [];
    var i := 0;
    while i < total
      invariant i <= total && 0 <= offset <= |data|
      invariant Onto(values, ReadMany(ElementReader(kind), total - i, data[offset..]))
             == Onto([], ReadMany(ElementReader(kind), total, data[start..]))
    {
      OntoStep(ElementReader(kind), values, total - i, data[offset..]);
      var value;
      ok, value, offset := ReadOne(kind, data, offset);
      if !ok {
        return None;
      }
      values := values + [value];
      i := i + 1;
    }
    assert values + [] == values;
    OntoNothing(ReadMany(ElementReader(kind), total, data[start..]));
    if offset != |data| {
      return None;
    }
    var json, _ := BuildNestedArray(values, dims, 0, 0, 0);
    assert dims[0..] == dims;
    return Some(json);
  }

  method ReadDims(data: seq<byte>, rank: byte) returns (dims: seq<nat>, offset: nat, ok: bool)
    requires |data| >= 2
    ensures offset <= |data|
    ensures ReadMany(ReadU32, rank, data[2..]) == if ok then Some((dims, data[offset..])) else None
  {
    offset := 2;
    dims := [];
    var i := 0;
    while i < rank
      invariant i <= rank && offset <= |data|
      invariant Onto(dims, ReadMany(ReadU32, rank - i, data[offset..]))
             == Onto([], ReadMany(ReadU32, rank, data[2..]))
    {
      OntoStep(ReadU32, dims, rank - i, data[offset..]);
      var dim;
      ok, dim, offset := ReadNumber(data, offset, 4);
      if !ok {
        OntoNothing(ReadMany(ReadU32, rank, data[2..]));
        return;
      }
      dims := dims + [dim];
      i := i + 1;
    }
    assert dims + [] == dims;
    OntoNothing(ReadMany(ReadU32, rank, data[2..]));
    ok := true;
  }

  // ----- encoding

  /** The bytes that dimensions and values are sent as, `body` being those of the values. */
  function Sent(kind: byte, dims: seq<nat>, body: seq<byte>): seq<byte>
    requires |dims| < 256
  {
    [kind, |dims|] + (WriteMany(WriteU32, dims) + body)
  }

  function EncodedArray(kind: byte, dims: seq<nat>, values: seq<Element>): seq<byte>
    requires |dims| < 256
  {
    Sent(kind, dims, WriteMany(ElementWriter(), values))
  }

  /** The bytes of one value; a flag may be any byte but zero. */
  predicate Writes(kind: byte, e: Element, b: seq<byte>) {
    && FitsElement(kind, e)
    && if e.Boolean? then |b| == 1 && (b[0] != 0 <==> e.flag) else b == WriteElement(e)
  }

  predicate WritesAll(kind: byte, values: seq<Element>, body: seq<byte>) {
    if values == [] then body == []
    else
      var n := |WriteElement(values[0])|;
      n <= |body| && Writes(kind, values[0], body[..n]) && WritesAll(kind, values[1..], body[n..])
  }

  lemma WrittenIsRead(kind: byte, e: Element, b: seq<byte>, rest: seq<byte>)
    requires Writes(kind, e, b)
    ensures ReadElement(kind, b + rest) == Some((e, rest)) && |b| == |WriteElement(e)|
  {
    if e.Boolean? {
      TakeInverts(b, rest);
      OneByte(b);
    } else {
      ElementRoundTrip(kind, e, rest);
    }
  }

  lemma OneByte(b: seq<byte>)
    requires |b| == 1
    ensures Num(b) == b[0]
  {
    assert Num(b[1..]) == 0;
  }

  lemma SignedIsWritten(n: nat, limit: nat)
    requires n < limit && limit % 2 == 0
    ensures 0 <= Signed(n, limit) + limit / 2 < limit && Unsigned(Signed(n, limit), limit) == n
  {
  }

  lemma ReadIsWritten(kind: byte, s: seq<byte>) returns (b: seq<byte>)
    requires ReadElement(kind, s).Some?
    ensures kind <= 5 && s == b + ReadElement(kind, s).value.1 && Writes(kind, ReadElement(kind, s).value.0, b)
    ensures |b| == |WriteElement(ReadElement(kind, s).value.0)|
  {
    Widths();
    if kind == 4 {
      LEInvertsNum(s[..4]);
      b := s[..4 + Num(s[..4])];
      assert s[4..][..Num(s[..4])] == s[4..4 + Num(s[..4])] && b == s[..4] + s[4..4 + Num(s[..4])];
    } else {
      var w := Width(kind);
      b := s[..w];
      LEInvertsNum(b);
      if kind == 0 {
        SignedIsWritten(Num(b), 0x1_0000_0000);
      } else if kind == 1 {
        SignedIsWritten(Num(b), UINT64_LIMIT);
      } else if kind == 5 {
        OneByte(b);
      }
    }
  }

  ghost predicate ReadsExactly(kind: byte, values: seq<Element>, body: seq<byte>, n: nat) {
    var r := ReadMany(ElementReader(kind), n, body);
    if n == |values| then r == Some((values, [])) else r.None? || r.value.1 != []
  }

  lemma {:induction false} ReadTheRightNumber(kind: byte, values: seq<Element>, body: seq<byte>, n: nat)
    requires WritesAll(kind, values, body)
    ensures ReadsExactly(kind, values, body, n)
    decreases n
  {
    if values == [] {
      assert n > 0 ==> ElementReader(kind)([]).None?;
    } else if n > 0 {
      var w := |WriteElement(values[0])|;
      ReadTheRightNumber(kind, values[1..], body[w..], n - 1);
      WrittenIsRead(kind, values[0], body[..w], body[w..]);
      assert body == body[..w] + body[w..];
      assert ElementReader(kind)(body) == Some((values[0], body[w..]));
      assert [values[0]] + values[1..] == values;
    }
  }

  lemma {:induction false} ManyAreWritten(kind: byte, n: nat, s: seq<byte>) returns (body: seq<byte>)
    requires ReadMany(ElementReader(kind), n, s).Some?
    ensures s == body + ReadMany(ElementReader(kind), n, s).value.1
    ensures WritesAll(kind, ReadMany(ElementReader(kind), n, s).value.0, body)
    decreases n
  {
    if n == 0 {
      body := [];
    } else {
      var (first, rest) := ElementReader(kind)(s).value;
      var b := ReadIsWritten(kind, s);
      var more := ManyAreWritten(kind, n - 1, rest);
      var (others, left) := ReadMany(ElementReader(kind), n - 1, rest).value;
      body := b + more;
      Assoc(b, more, left);
      assert ([first] + others)[1..] == others && body[..|b|] == b && body[|b|..] == more;
    }
  }

  lemma {:induction false} CanonicalIsWritten(kind: byte, values: seq<Element>)
    requires AllFit(ElementFits(kind), values)
    ensures WritesAll(kind, values, WriteMany(ElementWriter(), values))
  {
    if values != [] {
      var b, more := WriteElement(values[0]), WriteMany(ElementWriter(), values[1..]);
      assert FitsElement(kind, values[0]) && ElementWriter()(values[0]) == b;
      assert (b + more)[..|b|] == b && (b + more)[|b|..] == more;
      if values[0].Boolean? {
        FlagByte(values[0]);
      }
      CanonicalIsWritten(kind, values[1..]);
    }
  }

  lemma FlagByte(e: Element)
    requires e.Boolean?
    ensures WriteElement(e) == [if e.flag then 1 else 0]
  {
    assert LE(ElementNumber(e), 1) == [ElementNumber(e) % 256] + LE(ElementNumber(e) / 256, 0);
  }

  lemma {:induction false} U32sLength(xs: seq<nat>)
    ensures |WriteMany(WriteU32, xs)| == 4 * |xs|
  {
    if xs != [] {
      U32sLength(xs[1..]);
    }
  }

  /** Sent values are nested as the dimensions say exactly when the number of values is the product
      of the dimensions modulo 2^64; otherwise the input is refused. */
  lemma SentIsDecoded(kind: byte, dims: seq<nat>, values: seq<Element>, body: seq<byte>)
    requires kind <= 5 && |dims| < 256 && AllFit(FitsU32, dims) && WritesAll(kind, values, body)
    ensures DecodedArray(Sent(kind, dims, body))
         == if |values| == Product(dims) % SIZE_LIMIT then Some(Nested(values, dims, 0)) else None
  {
    hide ReadMany, WriteMany, WritesAll, Total, Nested, Product, ReadElement;
    var data := Sent(kind, dims, body);
    assert data[2..] == WriteMany(WriteU32, dims) + body;
    U32sLength(dims);
    DimensionsAreRead(dims, body);
    TotalIsProduct(dims, 1);
    assert 1 * Product(dims) == Product(dims);
    ReadTheRightNumber(kind, values, body, Total(dims, 1));
  }

  lemma DimensionsAreRead(dims: seq<nat>, body: seq<byte>)
    requires AllFit(FitsU32, dims)
    ensures ReadMany(ReadU32, |dims|, WriteMany(WriteU32, dims) + body) == Some((dims, body))
  {
    U32Codec();
    ReadManyInverts(WriteU32, ReadU32, FitsU32, dims, body);
  }

  lemma {:induction false} DimensionsAreSent(n: nat, s: seq<byte>)
    requires ReadMany(ReadU32, n, s).Some?
    ensures var (dims, rest) := ReadMany(ReadU32, n, s).value;
      |dims| == n && AllFit(FitsU32, dims) && s == WriteMany(WriteU32, dims) + rest
    decreases n
  {
    if n > 0 {
      Widths();
      LEInvertsNum(s[..4]);
      DimensionsAreSent(n - 1, s[4..]);
      var (others, rest) := ReadMany(ReadU32, n - 1, s[4..]).value;
      var dims := [Num(s[..4])] + others;
      assert dims[1..] == others;
      Assoc(s[..4], WriteMany(WriteU32, others), rest);
    }
  }

  /** What the decoder accepts is sent as just said, and is of one of the six kinds. */
  lemma DecodedIsSent(data: seq<byte>) returns (dims: seq<nat>, values: seq<Element>, body: seq<byte>)
    requires DecodedArray(data).Some?
    ensures data[0] <= 5 && |dims| < 256 && data == Sent(data[0], dims, body)
    ensures AllFit(FitsU32, dims) && WritesAll(data[0], values, body) && |values| == Product(dims) % SIZE_LIMIT
    ensures DecodedArray(data) == Some(Nested(values, dims, 0))
  {
    DimensionsAreSent(data[1], data[2..]);
    var (ds, rest) := ReadMany(ReadU32, data[1], data[2..]).value;
    dims := ds;
    var total := Total(dims, 1);
    TotalIsProduct(dims, 1);
    ReadManyLength(ElementReader(data[0]), total, rest);
    values := ReadMany(ElementReader(data[0]), total, rest).value.0;
    body := ManyAreWritten(data[0], total, rest);
    assert body + [] == body && data == [data[0], data[1]] + data[2..];
  }

  /** Decoding undoes a canonical encoding exactly when the number of values is the product of
      the dimensions modulo 2^64; otherwise the input is refused. */
  lemma ArrayRoundTrip(kind: byte, dims: seq<nat>, values: seq<Element>)
    requires kind <= 5 && |dims| < 256 && AllFit(FitsU32, dims) && AllFit(ElementFits(kind), values)
    ensures DecodedArray(EncodedArray(kind, dims, values))
         == if |values| == Product(dims) % SIZE_LIMIT then Some(Nested(values, dims, 0)) else None
  {
    CanonicalIsWritten(kind, values);
    SentIsDecoded(kind, dims, values, WriteMany(ElementWriter(), values));
  }

  /** A decoded array, whatever its input: its values fill the nesting, and the branch for values
      that have run out is taken, exactly when the product of the dimensions fits size_t. */
  lemma DecodedArrayIsFull(data: seq<byte>)
    requires DecodedArray(data).Some?
    ensures var dims := ReadMany(ReadU32, data[1], data[2..]).value.0;
      NoNulls(DecodedArray(data).value) <==> Product(dims) < SIZE_LIMIT
  {
    var dims := ReadMany(ReadU32, data[1], data[2..]);
    var total := Total(dims.value.0, 1);
    var values := ReadMany(ElementReader(data[0]), total, dims.value.1).value.0;
    ReadManyLength(ElementReader(data[0]), total, dims.value.1);
    TotalIsProduct(dims.value.0, 1);
    NullsMeanTooFew(values, dims.value.0, 0);
  }

  /** Dimensions whose product is 2^64 are accepted without any value. */
  lemma WrappedCountGivesNulls()
    ensures var data := EncodedArray(0, [0x8000_0000, 0x8000_0000, 4], []);
      DecodedArray(data).Some? && !NoNulls(DecodedArray(data).value)
  {
    var dims: seq<nat> := [0x8000_0000, 0x8000_0000, 4];
    assert dims[1..] == [0x8000_0000, 4] && dims[1..][1..] == [4] && dims[1..][1..][1..] == [];
    assert Product([4]) == 4 && Product([0x8000_0000, 4]) == 0x2_0000_0000;
    assert Product(dims) == SIZE_LIMIT;
    ArrayRoundTrip(0, dims, []);
    NullsMeanTooFew([], dims, 0);
  }

  lemma {:induction false} ReadManyLength<T>(read: seq<byte> -> Parsed<T>, n: nat, s: seq<byte>)
    requires ReadMany(read, n, s).Some?
    ensures |ReadMany(read, n, s).value.0| == n
    decreases n
  {
    if n > 0 {
      ReadManyLength(read, n - 1, read(s).value.1);
    }
  }
}
