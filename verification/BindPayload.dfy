/** The parameter-carrying requests of protocol.go: buildBindPayload and
    buildSblrExecutePayload, with the decoder a server needs for them. */
module BindPayload {
  import opened Wrappers
  import opened Messages
  import opened Wire

  type uint16 = x: int | 0 <= x < 0x1_0000
  type uint64 = x: int | 0 <= x < UINT64_LIMIT

  const NULL_LENGTH := 0xFFFF_FFFF

  datatype Param = Param(format: uint16, value: Cell)

  datatype Bind = Bind(portal: seq<byte>, statement: seq<byte>, params: seq<Param>, resultFormats: seq<uint16>)

  datatype Sblr = Sblr(hash: uint64, bytecode: seq<byte>, values: seq<Cell>)

  // ----- values: a length, all ones for NULL, and the data

  function WriteValue(v: Cell): seq<byte> {
    if v.NullCell? then LE(NULL_LENGTH, 4) else WriteBlock(v.data)
  }

  function ReadValue(s: seq<byte>): Parsed<Cell> {
    var length := ReadNum(4, s);
    if length.None? then None
    else if length.value.0 == NULL_LENGTH then Some((NullCell, length.value.1))
    else
      var data := Take(length.value.0, length.value.1);
      if data.None? then None else Some((DataCell(data.value.0), data.value.1))
  }

  predicate FitsValue(v: Cell) {
    v.DataCell? ==> |v.data| < NULL_LENGTH
  }

  lemma ValueCodec()
    ensures Inverts(WriteValue, ReadValue, FitsValue) && Bounded(ReadValue, FitsValue)
  {
    forall v, rest | FitsValue(v)
      ensures ReadValue(WriteValue(v) + rest) == Some((v, rest))
    {
      ValueRoundTrip(v, rest);
    }
    forall s: seq<byte>
      ensures ReadValue(s).Some? ==> FitsValue(ReadValue(s).value.0)
    {
      Widths();
      ReadNumBounded(4, s);
    }
  }

  lemma ValueRoundTrip(v: Cell, rest: seq<byte>)
    requires FitsValue(v)
    ensures ReadValue(WriteValue(v) + rest) == Some((v, rest))
  {
    Widths();
    if v.NullCell? {
      ReadNumInverts(NULL_LENGTH, 4, rest);
    } else {
      Assoc(LE(|v.data|, 4), v.data, rest);
      ReadNumInverts(|v.data|, 4, v.data + rest);
      TakeInverts(v.data, rest);
    }
  }

  function Formats(params: seq<Param>): (r: seq<nat>)
    ensures |r| == |params| && forall i :: 0 <= i < |r| ==> r[i] == params[i].format
  {
    if params == [] then [] else [params[0].format] + Formats(params[1..])
  }

  function Values(params: seq<Param>): (r: seq<Cell>)
    ensures |r| == |params| && forall i :: 0 <= i < |r| ==> r[i] == params[i].value
  {
    if params == [] then [] else [params[0].value] + Values(params[1..])
  }

  // ----- the bind layout, as what follows each of its parts

  function ResultPart(formats: seq<nat>): seq<byte> {
    LE(|formats|, 2) + (WriteMany(WriteU16, formats) + [])
  }

  function ValuePart(values: seq<Cell>, resultFormats: seq<nat>): seq<byte> {
    LE(|values|, 2) + (LE(0, 2) + (WriteMany(WriteValue, values) + ResultPart(resultFormats)))
  }

  function FormatPart(formats: seq<nat>, values: seq<Cell>, resultFormats: seq<nat>): seq<byte> {
    LE(|formats|, 2) + (WriteMany(WriteU16, formats) + ValuePart(values, resultFormats))
  }

  function Encoded(b: Bind): seq<byte> {
    var formats := FormatPart(Formats(b.params), Values(b.params), b.resultFormats);
    LE(|b.portal|, 4) + (b.portal + (LE(|b.statement|, 4) + (b.statement + formats)))
  }

  /** payloadLen, computed before a byte is written. */
  method PayloadLength(b: Bind) returns (length: nat)
    ensures length == |Encoded(b)|
  {
    var values := Values(b.params);
    length := 4 + |b.portal| + 4 + |b.statement|;
    length := length + 2 + |b.params| * 2;
    length := length + 2 + 2;
    ghost var start := length;
    var i := 0;
    assert values[0..] == values;
    while i < |b.params|
      invariant i <= |b.params|
      invariant length + |WriteMany(WriteValue, values[i..])| == start + |WriteMany(WriteValue, values)|
    {
      ManyStep(WriteValue, values, i, []);
      length := length + 4;
      if b.params[i].value.DataCell? {
        length := length + |b.params[i].value.data|;
      }
      i := i + 1;
    }
    length := length + 2 + |b.resultFormats| * 2;
    U16sLength(Formats(b.params));
    U16sLength(b.resultFormats);
  }

  /** Writes the 16-bit numbers of a list one behind the other. */
  method PutFormats(buf: array<byte>, offset: nat, formats: seq<nat>, ghost rest: seq<byte>, ghost goal: seq<byte>)
    returns (after: nat)
    requires Filling(buf, offset, WriteMany(WriteU16, formats) + rest, goal)
    modifies buf
    ensures after == offset + 2 * |formats| && Filling(buf, after, rest, goal)
  {
    after := offset;
    var i := 0;
    assert formats[0..] == formats;
    while i < |formats|
      invariant i <= |formats| && after == offset + 2 * i
      invariant Filling(buf, after, WriteMany(WriteU16, formats[i..]) + rest, goal)
    {
      ghost var next := WriteMany(WriteU16, formats[i + 1..]) + rest;
      ManyStep(WriteU16, formats, i, rest);
      after := PutNum(buf, after, formats[i], 2, next, goal);
      i := i + 1;
    }
    assert [] + rest == rest;
  }

  /** Writes lengths and data, all ones for NULL. */
  method PutValues(buf: array<byte>, offset: nat, values: seq<Cell>, ghost rest: seq<byte>, ghost goal: seq<byte>)
    returns (after: nat)
    requires Filling(buf, offset, WriteMany(WriteValue, values) + rest, goal)
    modifies buf
    ensures after == offset + |WriteMany(WriteValue, values)| && Filling(buf, after, rest, goal)
  {
    after := offset;
    var i := 0;
    assert values[0..] == values;
    while i < |values|
      invariant i <= |values|
      invariant after + |WriteMany(WriteValue, values[i..])| == offset + |WriteMany(WriteValue, values)|
      invariant Filling(buf, after, WriteMany(WriteValue, values[i..]) + rest, goal)
    {
      var value := values[i];
      ghost var next := WriteMany(WriteValue, values[i + 1..]) + rest;
      ManyStep(WriteValue, values, i, rest);
      i := i + 1;
      if value.NullCell? {
        after := PutNum(buf, after, NULL_LENGTH, 4, next, goal);
        continue;
      }
      Assoc(LE(|value.data|, 4), value.data, next);
      after := PutNum(buf, after, |value.data|, 4, value.data + next, goal);
      after := Put(buf, after, value.data, next, goal);
    }
    assert [] + rest == rest;
  }

  /** The buffer is filled exactly: the offset ends at the length computed beforehand. */
  method BuildBindPayload(b: Bind) returns (payload: array<byte>, offset: nat)
    ensures fresh(payload) && payload[..] == Encoded(b)
    ensures offset == payload.Length
  {
    var length := PayloadLength(b);
    payload := new byte[length];
    ghost var goal := Encoded(b);
    ghost var results := ResultPart(b.resultFormats);
    ghost var values := ValuePart(Values(b.params), b.resultFormats);
    ghost var formats := FormatPart(Formats(b.params), Values(b.params), b.resultFormats);
    ghost var valueBytes := WriteMany(WriteValue, Values(b.params)) + results;
    assert Filling(payload, 0, goal, goal);
    offset := PutNum(payload, 0, |b.portal|, 4, b.portal + (LE(|b.statement|, 4) + (b.statement + formats)), goal);
    offset := Put(payload, offset, b.portal, LE(|b.statement|, 4) + (b.statement + formats), goal);
    offset := PutNum(payload, offset, |b.statement|, 4, b.statement + formats, goal);
    offset := Put(payload, offset, b.statement, formats, goal);
    offset := PutNum(payload, offset, |b.params|, 2, WriteMany(WriteU16, Formats(b.params)) + values, goal);
    offset := PutFormats(payload, offset, Formats(b.params), values, goal);
    offset := PutNum(payload, offset, |b.params|, 2, LE(0, 2) + valueBytes, goal);
    offset := PutNum(payload, offset, 0, 2, valueBytes, goal);
    offset := PutValues(payload, offset, Values(b.params), results, goal);
    offset := PutNum(payload, offset, |b.resultFormats|, 2, WriteMany<nat>(WriteU16, b.resultFormats) + [], goal);
    offset := PutFormats(payload, offset, b.resultFormats, [], goal);
    FilledUp(payload, offset, goal);
  }

  // ----- what a server reads

  function ReadCounted<T>(read: seq<byte> -> Parsed<T>, s: seq<byte>): Parsed<seq<T>> {
    var count := ReadNum(2, s);
    if count.None? then None else ReadMany(read, count.value.0, count.value.1)
  }

  function Zip(formats: seq<uint16>, values: seq<Cell>): (r: seq<Param>)
    requires |formats| == |values|
    ensures |r| == |formats| && Values(r) == values && Formats(r) == formats
  {
    if formats == [] then [] else [Param(formats[0], values[0])] + Zip(formats[1..], values[1..])
  }

  function Narrow(xs: seq<nat>): (r: seq<uint16>)
    requires AllFit(FitsU16, xs)
    ensures r == xs
  {
    if xs == [] then [] else [xs[0]] + Narrow(xs[1..])
  }

  /** The two halves of a bind request: names and formats, then values and result formats. */
  datatype Front = Front(portal: seq<byte>, statement: seq<byte>, formats: seq<nat>)

  datatype Back = Back(values: seq<Cell>, resultFormats: seq<nat>)

  function ReadFront(s: seq<byte>): Parsed<Front> {
    var portal := ReadBlock(s);
    if portal.None? then None
    else
      var statement := ReadBlock(portal.value.1);
      if statement.None? then None
      else
        var formats := ReadCounted(ReadU16, statement.value.1);
        if formats.None? then None
        else Some((Front(portal.value.0, statement.value.0, formats.value.0), formats.value.1))
  }

  /** The two bytes behind the count must be zero. */
  function ReadValues(s: seq<byte>): Parsed<seq<Cell>> {
    var count := ReadNum(2, s);
    if count.None? then None
    else
      var reserved := ReadNum(2, count.value.1);
      if reserved.None? || reserved.value.0 != 0 then None
      else ReadMany(ReadValue, count.value.0, reserved.value.1)
  }

  function ReadBack(s: seq<byte>): Parsed<Back> {
    var values := ReadValues(s);
    if values.None? then None
    else
      var results := ReadCounted(ReadU16, values.value.1);
      if results.None? then None else Some((Back(values.value.0, results.value.0), results.value.1))
  }

  /** A bind request that uses up the payload, with as many formats as values. */
  function ParseBind(s: seq<byte>): Option<Bind> {
    var front := ReadFront(s);
    if front.None? then None
    else
      var back := ReadBack(front.value.1);
      if back.None? || back.value.1 != [] || |front.value.0.formats| != |back.value.0.values| then None
      else
        ReadFrontBounded(s);
        ReadBackBounded(front.value.1);
        var (f, b) := (front.value.0, back.value.0);
        Some(Bind(f.portal, f.statement, Zip(Narrow(f.formats), b.values), Narrow(b.resultFormats)))
  }

  predicate FitsFront(f: Front) {
    && |f.portal| < 0x1_0000_0000 && |f.statement| < 0x1_0000_0000
    && |f.formats| < 0x1_0000 && AllFit(FitsU16, f.formats)
  }

  predicate FitsBack(b: Back) {
    && |b.values| < 0x1_0000 && AllFit(FitsValue, b.values)
    && |b.resultFormats| < 0x1_0000 && AllFit(FitsU16, b.resultFormats)
  }

  lemma ReadCountedBounded<T>(read: seq<byte> -> Parsed<T>, fits: T -> bool, s: seq<byte>)
    requires Bounded(read, fits) && ReadCounted(read, s).Some?
    ensures |ReadCounted(read, s).value.0| < 0x1_0000 && AllFit(fits, ReadCounted(read, s).value.0)
  {
    Widths();
    ReadNumBounded(2, s);
    ReadManyBounded(read, fits, ReadNum(2, s).value.0, ReadNum(2, s).value.1);
  }

  lemma ReadCountedInverts<T(!new)>(write: T -> seq<byte>, read: seq<byte> -> Parsed<T>, fits: T -> bool,
                                    xs: seq<T>, rest: seq<byte>)
    requires Inverts(write, read, fits) && AllFit(fits, xs) && |xs| < 0x1_0000
    ensures ReadCounted(read, LE(|xs|, 2) + (WriteMany(write, xs) + rest)) == Some((xs, rest))
  {
    Widths();
    ReadNumInverts(|xs|, 2, WriteMany(write, xs) + rest);
    ReadManyInverts(write, read, fits, xs, rest);
  }

  lemma ReadFrontBounded(s: seq<byte>)
    requires ReadFront(s).Some?
    ensures FitsFront(ReadFront(s).value.0)
  {
    var portal := ReadBlock(s);
    var statement := ReadBlock(portal.value.1);
    U16Codec();
    ReadBlockBounded(s);
    ReadBlockBounded(portal.value.1);
    ReadCountedBounded(ReadU16, FitsU16, statement.value.1);
  }

  lemma ReadValuesBounded(s: seq<byte>)
    requires ReadValues(s).Some?
    ensures |ReadValues(s).value.0| < 0x1_0000 && AllFit(FitsValue, ReadValues(s).value.0)
  {
    var count := ReadNum(2, s);
    ValueCodec();
    Widths();
    ReadNumBounded(2, s);
    ReadManyBounded(ReadValue, FitsValue, count.value.0, ReadNum(2, count.value.1).value.1);
  }

  lemma ReadBackBounded(s: seq<byte>)
    requires ReadBack(s).Some?
    ensures FitsBack(ReadBack(s).value.0)
  {
    U16Codec();
    ReadValuesBounded(s);
    ReadCountedBounded(ReadU16, FitsU16, ReadValues(s).value.1);
  }

  function FrontBytes(f: Front, rest: seq<byte>): seq<byte> {
    LE(|f.portal|, 4) + (f.portal + (LE(|f.statement|, 4) + (f.statement
      + (LE(|f.formats|, 2) + (WriteMany(WriteU16, f.formats) + rest)))))
  }

  lemma ReadFrontInverts(f: Front, rest: seq<byte>)
    requires FitsFront(f)
    ensures ReadFront(FrontBytes(f, rest)) == Some((f, rest))
  {
    var c := LE(|f.formats|, 2) + (WriteMany(WriteU16, f.formats) + rest);
    U16Codec();
    ReadCountedInverts(WriteU16, ReadU16, FitsU16, f.formats, rest);
    BlockInFront(f.statement, c);
    BlockInFront(f.portal, LE(|f.statement|, 4) + (f.statement + c));
  }

  lemma BlockInFront(b: seq<byte>, rest: seq<byte>)
    requires |b| < 0x1_0000_0000
    ensures ReadBlock(LE(|b|, 4) + (b + rest)) == Some((b, rest))
  {
    ReadBlockInverts(b, rest);
    Assoc(LE(|b|, 4), b, rest);
  }

  lemma ReadValuesInverts(values: seq<Cell>, rest: seq<byte>)
    requires |values| < 0x1_0000 && AllFit(FitsValue, values)
    ensures ReadValues(LE(|values|, 2) + (LE(0, 2) + (WriteMany(WriteValue, values) + rest))) == Some((values, rest))
  {
    ValueCodec();
    Widths();
    ReadNumInverts(|values|, 2, LE(0, 2) + (WriteMany(WriteValue, values) + rest));
    ReadNumInverts(0, 2, WriteMany(WriteValue, values) + rest);
    ReadManyInverts(WriteValue, ReadValue, FitsValue, values, rest);
  }

  lemma ReadBackInverts(b: Back)
    requires FitsBack(b)
    ensures ReadBack(ValuePart(b.values, b.resultFormats)) == Some((b, []))
  {
    ReadValuesInverts(b.values, ResultPart(b.resultFormats));
    U16Codec();
    ReadCountedInverts(WriteU16, ReadU16, FitsU16, b.resultFormats, []);
  }

  function FrontOf(b: Bind): Front {
    Front(b.portal, b.statement, Formats(b.params))
  }

  function BackOf(b: Bind): Back {
    Back(Values(b.params), b.resultFormats)
  }

  /** Counts below 2^16, lengths below 2^32, and no value of the length that means NULL. */
  predicate Fits(b: Bind) {
    && |b.portal| < 0x1_0000_0000 && |b.statement| < 0x1_0000_0000
    && |b.params| < 0x1_0000 && |b.resultFormats| < 0x1_0000
    && forall i :: 0 <= i < |b.params| ==> FitsValue(b.params[i].value)
  }

  lemma {:induction false} ZipUnzips(params: seq<Param>)
    ensures AllFit(FitsU16, Formats(params)) && Zip(Narrow(Formats(params)), Values(params)) == params
  {
    if params != [] {
      ZipUnzips(params[1..]);
      assert Formats(params)[1..] == Formats(params[1..]);
      assert Values(params)[1..] == Values(params[1..]);
      assert [params[0]] + params[1..] == params;
    }
  }

  /** The decoder recovers names, formats, parameters with NULL told apart from data, and result
      formats, exactly when the counts and lengths fit their fields. */
  lemma BindRoundTrip(b: Bind)
    ensures ParseBind(Encoded(b)) == Some(b) <==> Fits(b)
  {
    if Fits(b) {
      ZipUnzips(b.params);
      assert Encoded(b) == FrontBytes(FrontOf(b), ValuePart(Values(b.params), b.resultFormats));
      ReadFrontInverts(FrontOf(b), ValuePart(Values(b.params), b.resultFormats));
      ReadBackInverts(BackOf(b));
    } else if ParseBind(Encoded(b)) == Some(b) {
      ParsedFits(Encoded(b));
    }
  }

  lemma ParsedFits(s: seq<byte>)
    requires ParseBind(s).Some?
    ensures Fits(ParseBind(s).value)
  {
    ReadFrontBounded(s);
    ReadBackBounded(ReadFront(s).value.1);
  }

  // ----- bytecode execution

  function EncodedSblr(x: Sblr): seq<byte> {
    LE(x.hash, 8) + (LE(|x.bytecode|, 4) + (LE(|x.values|, 2) + (LE(0, 2)
      + (x.bytecode + (WriteMany(WriteValue, x.values) + [])))))
  }

  method BuildSblrExecutePayload(x: Sblr) returns (payload: array<byte>, offset: nat)
    ensures fresh(payload) && payload[..] == EncodedSblr(x)
    ensures offset == payload.Length
  {
    var length := 8 + 4 + 2 + 2 + |x.bytecode|;
    ghost var start := length;
    var i := 0;
    assert x.values[0..] == x.values;
    while i < |x.values|
      invariant i <= |x.values|
      invariant length + |WriteMany(WriteValue, x.values[i..])| == start + |WriteMany(WriteValue, x.values)|
    {
      ManyStep(WriteValue, x.values, i, []);
      length := length + 4;
      if x.values[i].DataCell? {
        length := length + |x.values[i].data|;
      }
      i := i + 1;
    }
    payload := new byte[length];
    ghost var goal := EncodedSblr(x);
    ghost var values := WriteMany(WriteValue, x.values) + [];
    ghost var code := LE(|x.values|, 2) + (LE(0, 2) + (x.bytecode + values));
    assert Filling(payload, 0, goal, goal);
    offset := PutNum(payload, 0, x.hash, 8, LE(|x.bytecode|, 4) + code, goal);
    offset := PutNum(payload, offset, |x.bytecode|, 4, code, goal);
    offset := PutNum(payload, offset, |x.values|, 2, LE(0, 2) + (x.bytecode + values), goal);
    offset := PutNum(payload, offset, 0, 2, x.bytecode + values, goal);
    offset := Put(payload, offset, x.bytecode, values, goal);
    offset := PutValues(payload, offset, x.values, [], goal);
    FilledUp(payload, offset, goal);
  }

  function ParseSblr(s: seq<byte>): Option<Sblr> {
    var hash := ReadNum(8, s);
    if hash.None? then None
    else
      var length := ReadNum(4, hash.value.1);
      if length.None? then None
      else
        var count := ReadNum(2, length.value.1);
        if count.None? then None
        else
          var reserved := ReadNum(2, count.value.1);
          if reserved.None? || reserved.value.0 != 0 then None
          else
            var code := Take(length.value.0, reserved.value.1);
            if code.None? then None
            else
              var values := ReadMany(ReadValue, count.value.0, code.value.1);
              if values.None? || values.value.1 != [] then None
              else
                Widths();
                ReadNumBounded(8, s);
                Some(Sblr(hash.value.0, code.value.0, values.value.0))
  }

  predicate FitsSblr(x: Sblr) {
    |x.bytecode| < 0x1_0000_0000 && |x.values| < 0x1_0000 && AllFit(FitsValue, x.values)
  }

  lemma ParsedSblrFits(s: seq<byte>)
    requires ParseSblr(s).Some?
    ensures FitsSblr(ParseSblr(s).value)
  {
    var length := ReadNum(4, ReadNum(8, s).value.1);
    var count := ReadNum(2, length.value.1);
    var reserved := ReadNum(2, count.value.1);
    var code := Take(length.value.0, reserved.value.1);
    Widths();
    ReadNumBounded(4, ReadNum(8, s).value.1);
    ReadNumBounded(2, length.value.1);
    ValueCodec();
    ReadManyBounded(ReadValue, FitsValue, count.value.0, code.value.1);
  }

  /** The same for the bytecode request. */
  lemma SblrRoundTrip(x: Sblr)
    ensures ParseSblr(EncodedSblr(x)) == Some(x) <==> FitsSblr(x)
  {
    if FitsSblr(x) {
      var values := WriteMany(WriteValue, x.values) + [];
      var code := LE(|x.values|, 2) + (LE(0, 2) + (x.bytecode + values));
      Widths();
      ReadNumInverts(x.hash, 8, LE(|x.bytecode|, 4) + code);
      ReadNumInverts(|x.bytecode|, 4, code);
      ReadNumInverts(|x.values|, 2, LE(0, 2) + (x.bytecode + values));
      ReadNumInverts(0, 2, x.bytecode + values);
      TakeInverts(x.bytecode, values);
      ValueCodec();
      ReadManyInverts(WriteValue, ReadValue, FitsValue, x.values, []);
    } else if ParseSblr(EncodedSblr(x)) == Some(x) {
      ParsedSblrFits(EncodedSblr(x));
    }
  }
}
