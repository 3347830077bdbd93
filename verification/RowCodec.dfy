/** protocol.go's parseRowDescription and parseDataRow, with the encoders they undo. */
module RowCodec {
  import opened Wrappers
  import opened Messages
  import opened Wire
  import opened Bits

  lemma PartOfPart(s: seq<byte>, o: nat, p: nat, a: nat, b: nat)
    requires a <= b && o + b <= p <= |s|
    ensures s[o..p][a..b] == s[o + a..o + b]
  {
    var part := s[o..p];
    assert forall i :: 0 <= i < b - a ==> part[a..b][i] == part[a + i] == s[o + (a + i)];
  }

  // ----- row descriptions

  const FIXED_SIZE := 4 + 2 + 4 + 2 + 4 + 1 + 1 + 2

  function FixedPart(c: ColumnInfo): (r: seq<byte>)
    ensures |r| == FIXED_SIZE
  {
    LE(c.tableOid, 4) + (LE(c.columnIndex, 2) + (LE(c.typeOid, 4) + (LE(SizeField(c), 2) + (LE(ModifierField(c), 4)
      + [c.format, if c.nullable then 1 else 0, 0, 0]))))
  }

  /** int16 and int32 values as the unsigned numbers they are sent as. */
  function SizeField(c: ColumnInfo): nat {
    Low(Unsigned(c.typeSize, 0x1_0000))
  }

  function ModifierField(c: ColumnInfo): nat {
    Low(Unsigned(c.typeModifier, 0x1_0000_0000))
  }

  function Low(x: int): nat {
    if x < 0 then 0 else x
  }

  function WriteColumn(c: ColumnInfo): seq<byte> {
    WriteBlock(c.name) + FixedPart(c)
  }

  function ColumnOf(name: seq<byte>, f: seq<byte>): ColumnInfo
    requires |f| == FIXED_SIZE
  {
    ColumnInfo(name, Num(f[0..4]), Num(f[4..6]), Num(f[6..10]), Signed(Num(f[10..12]), 0x1_0000),
               Signed(Num(f[12..16]), 0x1_0000_0000), f[16], f[17] == 1)
  }

  function ReadColumn(s: seq<byte>): Parsed<ColumnInfo> {
    var name := ReadBlock(s);
    if name.None? then None
    else
      var fixed := Take(FIXED_SIZE, name.value.1);
      if fixed.None? then None else Some((ColumnOf(name.value.0, fixed.value.0), fixed.value.1))
  }

  /** The width of each field of a column. */
  predicate FitsColumn(c: ColumnInfo) {
    && |c.name| < 0x1_0000_0000 && c.tableOid < 0x1_0000_0000 && c.columnIndex < 0x1_0000 && c.typeOid < 0x1_0000_0000
    && -0x8000 <= c.typeSize < 0x8000 && -0x8000_0000 <= c.typeModifier < 0x8000_0000
  }

  lemma SplitFixed(c: ColumnInfo)
    ensures var f := FixedPart(c);
      && f[0..4] == LE(c.tableOid, 4) && f[4..6] == LE(c.columnIndex, 2) && f[6..10] == LE(c.typeOid, 4)
      && f[10..12] == LE(SizeField(c), 2) && f[12..16] == LE(ModifierField(c), 4)
      && f[16] == c.format && f[17] == if c.nullable then 1 else 0
  {
    var t := [c.format, if c.nullable then 1 else 0, 0, 0];
    SixSlices(LE(c.tableOid, 4), LE(c.columnIndex, 2), LE(c.typeOid, 4), LE(SizeField(c), 2), LE(ModifierField(c), 4), t);
    var f := FixedPart(c);
    assert f[16..][0] == t[0] && f[16..][1] == t[1];
  }

  lemma SixSlices(a: seq<byte>, b: seq<byte>, d: seq<byte>, g: seq<byte>, h: seq<byte>, t: seq<byte>)
    requires |a| == |d| == |h| == |t| == 4 && |b| == |g| == 2
    ensures var e := a + (b + (d + (g + (h + t))));
      e[0..4] == a && e[4..6] == b && e[6..10] == d && e[10..12] == g && e[12..16] == h && e[16..] == t
  {
    var e := a + (b + (d + (g + (h + t))));
    assert e[0..] == e;
    NextPart(e, 0, a, b + (d + (g + (h + t))));
    NextPart(e, 4, b, d + (g + (h + t)));
    NextPart(e, 6, d, g + (h + t));
    NextPart(e, 10, g, h + t);
    NextPart(e, 12, h, t);
  }

  lemma FixedRoundTrip(c: ColumnInfo)
    requires FitsColumn(c)
    ensures ColumnOf(c.name, FixedPart(c)) == c
  {
    Widths();
    SplitFixed(c);
    NumInvertsLE(c.tableOid, 4);
    NumInvertsLE(c.columnIndex, 2);
    NumInvertsLE(c.typeOid, 4);
    NumInvertsLE(SizeField(c), 2);
    NumInvertsLE(ModifierField(c), 4);
  }

  lemma ColumnRoundTrip(c: ColumnInfo, rest: seq<byte>)
    requires FitsColumn(c)
    ensures ReadColumn(WriteColumn(c) + rest) == Some((c, rest))
  {
    Assoc(WriteBlock(c.name), FixedPart(c), rest);
    ReadBlockInverts(c.name, FixedPart(c) + rest);
    TakeInverts(FixedPart(c), rest);
    FixedRoundTrip(c);
  }

  lemma ColumnBounded(s: seq<byte>)
    requires ReadColumn(s).Some?
    ensures FitsColumn(ReadColumn(s).value.0)
  {
    ReadBlockBounded(s);
    var f := Take(FIXED_SIZE, ReadBlock(s).value.1).value.0;
    Widths();
    LEInvertsNum(f[0..4]);
    LEInvertsNum(f[4..6]);
    LEInvertsNum(f[6..10]);
    LEInvertsNum(f[10..12]);
    LEInvertsNum(f[12..16]);
  }

  lemma ColumnCodec()
    ensures Inverts(WriteColumn, ReadColumn, FitsColumn) && Bounded(ReadColumn, FitsColumn)
  {
    forall c, rest | FitsColumn(c)
      ensures ReadColumn(WriteColumn(c) + rest) == Some((c, rest))
    {
      ColumnRoundTrip(c, rest);
    }
    forall s | ReadColumn(s).Some?
      ensures FitsColumn(ReadColumn(s).value.0)
    {
      ColumnBounded(s);
    }
  }

  function EncodedDescription(cols: seq<ColumnInfo>): seq<byte> {
    LE(|cols|, 2) + (LE(0, 2) + WriteMany(WriteColumn, cols))
  }

  /** Bytes behind what was read are ignored. */
  function Front<T>(p: Parsed<T>): Option<T> {
    if p.None? then None else Some(p.value.0)
  }

  function DescribedBy(payload: seq<byte>): Option<seq<ColumnInfo>> {
    if |payload| < 4 then None else Front(ReadMany(ReadColumn, Num(payload[0..2]), payload[4..]))
  }

  /** The fields behind the name at offset `b`. */
  function ColumnHere(name: seq<byte>, p: seq<byte>, b: nat): ColumnInfo
    requires b + FIXED_SIZE <= |p|
  {
    ColumnInfo(name, Num(p[b..b + 4]), Num(p[b + 4..b + 6]), Num(p[b + 6..b + 10]),
               Signed(Num(p[b + 10..b + 12]), 0x1_0000), Signed(Num(p[b + 12..b + 16]), 0x1_0000_0000),
               p[b + 16], p[b + 17] == 1)
  }

  lemma FixedAt(name: seq<byte>, p: seq<byte>, b: nat)
    requires b + FIXED_SIZE <= |p|
    ensures ColumnOf(name, p[b..b + FIXED_SIZE]) == ColumnHere(name, p, b)
  {
    PartOfPart(p, b, b + FIXED_SIZE, 0, 4);
    PartOfPart(p, b, b + FIXED_SIZE, 4, 6);
    PartOfPart(p, b, b + FIXED_SIZE, 6, 10);
    PartOfPart(p, b, b + FIXED_SIZE, 10, 12);
    PartOfPart(p, b, b + FIXED_SIZE, 12, 16);
  }

  lemma NameAt(p: seq<byte>, o: nat)
    requires o + 4 <= |p|
    ensures var n := Num(p[o..o + 4]);
      ReadBlock(p[o..]) == if o + 4 + n > |p| then None else Some((p[o + 4..o + 4 + n], p[o + 4 + n..]))
  {
    TakeAt(4, p, o);
    TakeAt(Num(p[o..o + 4]), p, o + 4);
  }

  /** What the running offset of the parser reads of one column. */
  lemma ColumnAt(p: seq<byte>, o: nat)
    requires o <= |p|
    ensures o + 4 > |p| ==> ReadColumn(p[o..]).None?
    ensures o + 4 <= |p| ==>
      var b := o + 4 + Num(p[o..o + 4]);
      ReadColumn(p[o..]) ==
        if b + FIXED_SIZE > |p| then None else Some((ColumnHere(p[o + 4..b], p, b), p[b + FIXED_SIZE..]))
  {
    if o + 4 <= |p| {
      NameAt(p, o);
      var b := o + 4 + Num(p[o..o + 4]);
      if b <= |p| {
        TakeAt(FIXED_SIZE, p, b);
        if b + FIXED_SIZE <= |p| {
          FixedAt(p[o + 4..b], p, b);
        }
      }
    }
  }

  /** The fields behind the name, with the offset running over them. */
  method ReadFields(payload: seq<byte>, name: seq<byte>, start: nat) returns (c: ColumnInfo)
    requires start + FIXED_SIZE <= |payload|
    ensures c == ColumnHere(name, payload, start)
  {
    var offset := start;
    var tableOid := Num(payload[offset..offset + 4]);
    offset := offset + 4;
    var columnIndex := Num(payload[offset..offset + 2]);
    offset := offset + 2;
    var typeOid := Num(payload[offset..offset + 4]);
    offset := offset + 4;
    var typeSize := Signed(Num(payload[offset..offset + 2]), 0x1_0000);
    offset := offset + 2;
    var typeModifier := Signed(Num(payload[offset..offset + 4]), 0x1_0000_0000);
    offset := offset + 4;
    var format := payload[offset];
    offset := offset + 1;
    var nullable := payload[offset] == 1;
    offset := offset + 1;
    offset := offset + 2;
    assert offset == start + FIXED_SIZE;
    return ColumnInfo(name, tableOid, columnIndex, typeOid, typeSize, typeModifier, format, nullable);
  }

  /** One column at the offset, with both bounds checks. */
  method NextColumn(payload: seq<byte>, start: nat) returns (ok: bool, c: ColumnInfo, offset: nat)
    requires start <= |payload|
    ensures start <= offset <= |payload|
    ensures ReadColumn(payload[start..]) == if ok then Some((c, payload[offset..])) else None
  {
    ColumnAt(payload, start);
    hide ReadColumn, ColumnHere;
    c := ColumnInfo([], 0, 0, 0, 0, 0, 0, false);
    if start + 4 > |payload| {
      return false, c, start;
    }
    var nameLen := Num(payload[start..start + 4]);
    var nameEnd := start + 4 + nameLen;
    if nameEnd + FIXED_SIZE > |payload| {
      return false, c, start;
    }
    c := ReadFields(payload, payload[start + 4..nameEnd], nameEnd);
    return true, c, nameEnd + FIXED_SIZE;
  }

  method ParseRowDescription(payload: seq<byte>) returns (r: Option<seq<ColumnInfo>>)
    ensures r == DescribedBy(payload)
  {
    if |payload| < 4 {
      return None;
    }
    var count := Num(payload[0..2]);
    var offset := 4;
    ghost var goal := DescribedBy(payload);
    var cols: seq<ColumnInfo> := [];
    OntoNothing(ReadMany(ReadColumn, count, payload[offset..]));
    hide DescribedBy, ReadMany, ReadColumn, Num, Onto;
    var i := 0;
    while i < count
      invariant i <= count && 0 <= offset <= |payload|
      invariant goal == Front(Onto(cols, ReadMany(ReadColumn, count - i, payload[offset..])))
    {
      OntoStep(ReadColumn, cols, count - i, payload[offset..]);
      var ok, column, next := NextColumn(payload, offset);
      if !ok {
        return None;
      }
      cols, offset := cols + [column], next;
      i := i + 1;
    }
    AllRead(ReadColumn, cols, payload[offset..]);
    return Some(cols);
  }

  lemma AllRead<T>(read: seq<byte> -> Parsed<T>, xs: seq<T>, s: seq<byte>)
    ensures Front(Onto(xs, ReadMany(read, 0, s))) == Some(xs)
  {
    assert xs + [] == xs;
  }

  predicate FitsDescription(cols: seq<ColumnInfo>) {
    |cols| < 0x1_0000 && AllFit(FitsColumn, cols)
  }

  lemma ParsedDescriptionFits(payload: seq<byte>)
    requires DescribedBy(payload).Some?
    ensures FitsDescription(DescribedBy(payload).value)
  {
    ColumnCodec();
    Widths();
    LEInvertsNum(payload[0..2]);
    var others := ReadMany(ReadColumn, Num(payload[0..2]), payload[4..]);
    ReadManyBounded(ReadColumn, FitsColumn, Num(payload[0..2]), payload[4..]);
    assert [] + others.value.0 == others.value.0;
  }

  /** A row description is read back, for any number of columns, exactly when its fields fit. */
  lemma DescriptionRoundTrip(cols: seq<ColumnInfo>)
    ensures DescribedBy(EncodedDescription(cols)) == Some(cols) <==> FitsDescription(cols)
  {
    var payload := EncodedDescription(cols);
    if FitsDescription(cols) {
      ColumnCodec();
      Widths();
      assert payload[0..2] == LE(|cols|, 2) && payload[4..] == WriteMany(WriteColumn, cols);
      NumInvertsLE(|cols|, 2);
      ReadManyInverts(WriteColumn, ReadColumn, FitsColumn, cols, []);
      assert WriteMany(WriteColumn, cols) + [] == WriteMany(WriteColumn, cols);
      assert [] + cols == cols;
    } else if DescribedBy(payload) == Some(cols) {
      ParsedDescriptionFits(payload);
    }
  }

  // ----- the null bitmap

  predicate IsNullAt(cells: seq<Cell>, i: nat) {
    i < |cells| && cells[i].NullCell?
  }

  function EightBits(cells: seq<Cell>, k: nat): (r: seq<bool>)
    ensures |r| == 8
  {
    seq(8, j requires 0 <= j < 8 => IsNullAt(cells, 8 * k + j))
  }

  function BitmapByte(cells: seq<Cell>, k: nat): byte {
    ByteOfBits();
    BitsNum(EightBits(cells, k))
  }

  function Bitmap(cells: seq<Cell>): (r: seq<byte>)
    ensures |r| == (|cells| + 7) / 8
  {
    seq((|cells| + 7) / 8, k requires 0 <= k < (|cells| + 7) / 8 => BitmapByte(cells, k))
  }

  predicate IsNull(bitmap: seq<byte>, i: nat) {
    i / 8 < |bitmap| && Bit(bitmap[i / 8], i % 8)
  }

  lemma BitmapRoundTrip(cells: seq<Cell>, i: nat)
    requires i < |cells|
    ensures IsNull(Bitmap(cells), i) == cells[i].NullCell?
  {
    var k, j := i / 8, i % 8;
    BitOfBits(EightBits(cells, k), j);
    assert 8 * k + j == i;
    assert EightBits(cells, k)[j] == IsNullAt(cells, 8 * k + j);
    assert k < (|cells| + 7) / 8;
    assert Bitmap(cells)[k] == BitmapByte(cells, k);
  }

  // ----- data rows

  datatype RowError = Truncated | CountMismatch

  /** One value: nothing if its bit is set, else a signed length and the data. */
  function ReadCell(bitmap: seq<byte>, i: nat, s: seq<byte>): Parsed<Cell> {
    if IsNull(bitmap, i) then Some((NullCell, s))
    else
      var number := ReadNum(4, s);
      if number.None? then None
      else
        var length := Signed(number.value.0, 0x1_0000_0000);
        if length < 0 then Some((NullCell, number.value.1))
        else
          var data := Take(length, number.value.1);
          if data.None? then None else Some((DataCell(data.value.0), data.value.1))
  }

  function ReadCells(bitmap: seq<byte>, i: nat, n: nat, s: seq<byte>): Option<seq<Cell>>
    requires i <= n
    decreases n - i
  {
    if i == n then Some([])
    else
      var cell := ReadCell(bitmap, i, s);
      if cell.None? then None
      else
        var others := ReadCells(bitmap, i + 1, n, cell.value.1);
        if others.None? then None else Some([cell.value.0] + others.value)
  }

  function RowOf(payload: seq<byte>, columnCount: nat): Result<seq<Cell>, RowError> {
    if |payload| < 4 then Err(Truncated)
    else
      var nullBytes := Num(payload[2..4]);
      if Num(payload[0..2]) != columnCount then Err(CountMismatch)
      else if 4 + nullBytes > |payload| then Err(Truncated)
      else Joined([], ReadCells(payload[4..4 + nullBytes], 0, columnCount, payload[4 + nullBytes..]))
  }

  function Joined(cells: seq<Cell>, others: Option<seq<Cell>>): Result<seq<Cell>, RowError> {
    if others.None? then Err(Truncated) else Ok(cells + others.value)
  }

  lemma JoinedDone(cells: seq<Cell>, bitmap: seq<byte>, n: nat, s: seq<byte>)
    ensures Joined(cells, ReadCells(bitmap, n, n, s)) == Ok(cells)
  {
    assert cells + [] == cells;
  }

  lemma JoinedStep(cells: seq<Cell>, bitmap: seq<byte>, i: nat, n: nat, s: seq<byte>)
    requires i < n
    ensures var cell := ReadCell(bitmap, i, s);
      Joined(cells, ReadCells(bitmap, i, n, s)) ==
        if cell.None? then Err(Truncated)
        else Joined(cells + [cell.value.0], ReadCells(bitmap, i + 1, n, cell.value.1))
  {
    var cell := ReadCell(bitmap, i, s);
    if cell.Some? {
      var others := ReadCells(bitmap, i + 1, n, cell.value.1);
      if others.Some? {
        assert cells + ([cell.value.0] + others.value) == cells + [cell.value.0] + others.value;
      }
    }
  }

  /** What the running offset of the parser reads of one value without a bit. */
  lemma CellAt(bitmap: seq<byte>, i: nat, payload: seq<byte>, o: nat)
    requires o <= |payload| && !IsNull(bitmap, i)
    ensures o + 4 > |payload| ==> ReadCell(bitmap, i, payload[o..]).None?
    ensures o + 4 <= |payload| ==>
      var n := Signed(Num(payload[o..o + 4]), 0x1_0000_0000);
      ReadCell(bitmap, i, payload[o..]) ==
        if n < 0 then Some((NullCell, payload[o + 4..]))
        else if o + 4 + n > |payload| then None
        else Some((DataCell(payload[o + 4..o + 4 + n]), payload[o + 4 + n..]))
  {
    if o + 4 <= |payload| {
      TakeAt(4, payload, o);
      var n := Signed(Num(payload[o..o + 4]), 0x1_0000_0000);
      if n >= 0 {
        TakeAt(n, payload, o + 4);
      }
    }
  }

  /** One value at the offset: nothing for a set bit or a negative length. */
  method NextCell(bitmap: seq<byte>, i: nat, payload: seq<byte>, start: nat) returns (ok: bool, c: Cell, offset: nat)
    requires start <= |payload|
    ensures start <= offset <= |payload|
    ensures ReadCell(bitmap, i, payload[start..]) == if ok then Some((c, payload[offset..])) else None
  {
    if IsNull(bitmap, i) {
      return true, NullCell, start;
    }
    CellAt(bitmap, i, payload, start);
    hide ReadCell;
    if start + 4 > |payload| {
      return false, NullCell, start;
    }
    var length := Signed(Num(payload[start..start + 4]), 0x1_0000_0000);
    offset := start + 4;
    if length < 0 {
      return true, NullCell, offset;
    }
    if offset + length > |payload| {
      return false, NullCell, start;
    }
    return true, DataCell(payload[offset..offset + length]), offset + length;
  }

  method ParseDataRow(payload: seq<byte>, columnCount: nat) returns (r: Result<seq<Cell>, RowError>)
    ensures r == RowOf(payload, columnCount)
  {
    if |payload| < 4 {
      return Err(Truncated);
    }
    var count := Num(payload[0..2]);
    var nullBytes := Num(payload[2..4]);
    var offset := 4;
    if count != columnCount {
      return Err(CountMismatch);
    }
    if offset + nullBytes > |payload| {
      return Err(Truncated);
    }
    var nullBitmap := payload[offset..offset + nullBytes];
    offset := offset + nullBytes;
    ghost var goal := RowOf(payload, columnCount);
    var values: seq<Cell> := [];
    assert goal == Joined(values, ReadCells(nullBitmap, 0, count, payload[offset..]));
    hide RowOf, ReadCells, ReadCell, Joined, Num;
    var i := 0;
    while i < count
      invariant i <= count && 0 <= offset <= |payload|
      invariant goal == Joined(values, ReadCells(nullBitmap, i, count, payload[offset..]))
    {
      JoinedStep(values, nullBitmap, i, count, payload[offset..]);
      var ok, value, next := NextCell(nullBitmap, i, payload, offset);
      if !ok {
        return Err(Truncated);
      }
      values, offset := values + [value], next;
      i := i + 1;
    }
    JoinedDone(values, nullBitmap, count, payload[offset..]);
    return Ok(values);
  }

  function WriteCell(c: Cell): seq<byte> {
    if c.NullCell? then [] else WriteBlock(c.data)
  }

  function EncodedRow(cells: seq<Cell>): seq<byte> {
    LE(|cells|, 2) + (LE((|cells| + 7) / 8, 2) + (Bitmap(cells) + WriteMany(WriteCell, cells)))
  }

  /** Lengths are sent as int32. */
  predicate FitsCell(c: Cell) {
    c.DataCell? ==> |c.data| < 0x8000_0000
  }

  predicate FitsRow(cells: seq<Cell>) {
    |cells| < 0x1_0000 && AllFit(FitsCell, cells)
  }

  lemma CellRoundTrip(bitmap: seq<byte>, i: nat, c: Cell, rest: seq<byte>)
    requires FitsCell(c) && IsNull(bitmap, i) == c.NullCell?
    ensures ReadCell(bitmap, i, WriteCell(c) + rest) == Some((c, rest))
  {
    if c.NullCell? {
      assert WriteCell(c) + rest == rest;
    } else {
      Widths();
      Assoc(LE(|c.data|, 4), c.data, rest);
      ReadNumInverts(|c.data|, 4, c.data + rest);
      TakeInverts(c.data, rest);
    }
  }

  predicate Marks(bitmap: seq<byte>, cells: seq<Cell>) {
    forall k :: 0 <= k < |cells| ==> IsNull(bitmap, k) == cells[k].NullCell?
  }

  lemma {:induction false} CellsRoundTrip(bitmap: seq<byte>, cells: seq<Cell>, i: nat)
    requires i <= |cells| && AllFit(FitsCell, cells) && Marks(bitmap, cells)
    ensures ReadCells(bitmap, i, |cells|, WriteMany(WriteCell, cells[i..])) == Some(cells[i..])
    decreases |cells| - i
  {
    hide ReadCell, IsNull, WriteCell, FitsCell, ReadCells, WriteMany;
    if i == |cells| {
      NoCells(bitmap, cells);
    } else {
      var rest := WriteMany(WriteCell, cells[i + 1..]);
      CellsFrom(cells, i);
      CellRoundTrip(bitmap, i, cells[i], rest);
      CellsRoundTrip(bitmap, cells, i + 1);
      ReadOneCell(bitmap, i, |cells|, WriteCell(cells[i]) + rest, cells[i], rest, cells[i + 1..]);
    }
  }

  lemma NoCells(bitmap: seq<byte>, cells: seq<Cell>)
    ensures ReadCells(bitmap, |cells|, |cells|, WriteMany(WriteCell, cells[|cells|..])) == Some(cells[|cells|..])
  {
  }

  lemma CellsFrom(cells: seq<Cell>, i: nat)
    requires i < |cells|
    ensures cells[i..] == [cells[i]] + cells[i + 1..]
    ensures WriteMany(WriteCell, cells[i..]) == WriteCell(cells[i]) + WriteMany(WriteCell, cells[i + 1..])
  {
    assert cells[i..][1..] == cells[i + 1..];
  }

  lemma ReadOneCell(bitmap: seq<byte>, i: nat, n: nat, s: seq<byte>, c: Cell, rest: seq<byte>, others: seq<Cell>)
    requires i < n && ReadCell(bitmap, i, s) == Some((c, rest)) && ReadCells(bitmap, i + 1, n, rest) == Some(others)
    ensures ReadCells(bitmap, i, n, s) == Some([c] + others)
  {
  }

  lemma {:induction false} CellsBounded(bitmap: seq<byte>, i: nat, n: nat, s: seq<byte>)
    requires i <= n && ReadCells(bitmap, i, n, s).Some?
    ensures AllFit(FitsCell, ReadCells(bitmap, i, n, s).value) && |ReadCells(bitmap, i, n, s).value| == n - i
    decreases n - i
  {
    if i < n {
      Widths();
      ReadNumBounded(4, s);
      CellsBounded(bitmap, i + 1, n, ReadCell(bitmap, i, s).value.1);
    }
  }

  lemma FourParts(a: seq<byte>, b: seq<byte>, c: seq<byte>, d: seq<byte>)
    requires |a| == 2 && |b| == 2
    ensures var (p, k) := (a + (b + (c + d)), |c|);
      p[0..2] == a && p[2..4] == b && p[4..4 + k] == c && p[4 + k..] == d
  {
    var p := a + (b + (c + d));
    assert p[0..] == p;
    NextPart(p, 0, a, b + (c + d));
    NextPart(p, 2, b, c + d);
    NextPart(p, 4, c, d);
  }

  lemma SplitRow(cells: seq<Cell>)
    ensures var (p, k) := (EncodedRow(cells), (|cells| + 7) / 8);
      && |p| >= 4 + k && p[0..2] == LE(|cells|, 2) && p[2..4] == LE(k, 2) && p[4..4 + k] == Bitmap(cells)
      && p[4 + k..] == WriteMany(WriteCell, cells)
  {
    hide LE, Bitmap, WriteMany;
    FourParts(LE(|cells|, 2), LE((|cells| + 7) / 8, 2), Bitmap(cells), WriteMany(WriteCell, cells));
  }

  lemma BitmapMarks(cells: seq<Cell>)
    ensures Marks(Bitmap(cells), cells)
  {
    forall i | 0 <= i < |cells|
      ensures IsNull(Bitmap(cells), i) == cells[i].NullCell?
    {
      BitmapRoundTrip(cells, i);
    }
  }

  lemma ParsedRowFits(payload: seq<byte>, columnCount: nat)
    requires RowOf(payload, columnCount).Ok?
    ensures FitsRow(RowOf(payload, columnCount).value) && |RowOf(payload, columnCount).value| == columnCount
  {
    Widths();
    LEInvertsNum(payload[0..2]);
    var n := Num(payload[2..4]);
    CellsBounded(payload[4..4 + n], 0, columnCount, payload[4 + n..]);
    var others := ReadCells(payload[4..4 + n], 0, columnCount, payload[4 + n..]);
    assert [] + others.value == others.value;
  }

  /** A row is read back, NULLs and all, for any number of columns, exactly when the count and
      the lengths fit their fields. */
  lemma RowRoundTrip(cells: seq<Cell>)
    ensures RowOf(EncodedRow(cells), |cells|) == Ok(cells) <==> FitsRow(cells)
  {
    if FitsRow(cells) {
      EncodedRowIsRead(cells);
    } else if RowOf(EncodedRow(cells), |cells|) == Ok(cells) {
      ParsedRowFits(EncodedRow(cells), |cells|);
    }
  }

  lemma EncodedRowIsRead(cells: seq<Cell>)
    requires FitsRow(cells)
    ensures RowOf(EncodedRow(cells), |cells|) == Ok(cells)
  {
    var k := (|cells| + 7) / 8;
    Widths();
    SplitRow(cells);
    NumInvertsLE(|cells|, 2);
    NumInvertsLE(k, 2);
    BitmapMarks(cells);
    CellsRoundTrip(Bitmap(cells), cells, 0);
    assert cells[0..] == cells;
    assert [] + cells == cells;
  }

  /** A row read with the wrong number of columns is refused. */
  lemma WrongCountIsRefused(cells: seq<Cell>, columnCount: nat)
    requires |cells| < 0x1_0000 && columnCount != |cells|
    ensures RowOf(EncodedRow(cells), columnCount) == Err(CountMismatch)
  {
    Widths();
    SplitRow(cells);
    NumInvertsLE(|cells|, 2);
  }
}
