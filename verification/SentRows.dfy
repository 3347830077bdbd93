/** Exactly which payloads the parsers of row descriptions and data rows accept: canonical or not,
    a payload is accepted if and only if it is one of the forms described here. */
module SentRows {
  import opened Wrappers
  import opened Messages
  import opened Wire
  import opened Bits
  import opened RowCodec

  // ----- columns

  /** A column as it is sent: any flag but 1 means not nullable, and two bytes are ignored. */
  datatype SentColumn = SentColumn(info: ColumnInfo, flag: byte, ignored: seq<byte>)

  function Behind(x: SentColumn): seq<byte> {
    [x.info.format, x.flag] + x.ignored
  }

  function FixedBytes(x: SentColumn): seq<byte> {
    var c := x.info;
    LE(c.tableOid, 4) + (LE(c.columnIndex, 2) + (LE(c.typeOid, 4) + (LE(SizeField(c), 2) + (LE(ModifierField(c), 4)
      + Behind(x)))))
  }

  function ColumnBytes(x: SentColumn): seq<byte> {
    WriteBlock(x.info.name) + FixedBytes(x)
  }

  predicate FitsSent(x: SentColumn) {
    FitsColumn(x.info) && (x.info.nullable <==> x.flag == 1) && |x.ignored| == 2
  }

  function Infos(xs: seq<SentColumn>): (r: seq<ColumnInfo>)
    ensures |r| == |xs|
  {
    seq(|xs|, i requires 0 <= i < |xs| => xs[i].info)
  }

  lemma FixedIsRead(x: SentColumn)
    requires FitsSent(x)
    ensures |FixedBytes(x)| == FIXED_SIZE && ColumnOf(x.info.name, FixedBytes(x)) == x.info
  {
    var c, f := x.info, FixedBytes(x);
    Widths();
    SixSlices(LE(c.tableOid, 4), LE(c.columnIndex, 2), LE(c.typeOid, 4), LE(SizeField(c), 2), LE(ModifierField(c), 4),
              Behind(x));
    assert f[16] == f[16..][0] && f[17] == f[16..][1];
    NumInvertsLE(c.tableOid, 4);
    NumInvertsLE(c.columnIndex, 2);
    NumInvertsLE(c.typeOid, 4);
    NumInvertsLE(SizeField(c), 2);
    NumInvertsLE(ModifierField(c), 4);
  }

  lemma ColumnIsRead(x: SentColumn, rest: seq<byte>)
    requires FitsSent(x)
    ensures ReadColumn(ColumnBytes(x) + rest) == Some((x.info, rest))
  {
    hide ColumnOf, FixedBytes;
    FixedIsRead(x);
    Assoc(WriteBlock(x.info.name), FixedBytes(x), rest);
    ReadBlockInverts(x.info.name, FixedBytes(x) + rest);
    TakeInverts(FixedBytes(x), rest);
  }

  lemma {:induction false} ColumnsAreRead(xs: seq<SentColumn>, rest: seq<byte>)
    requires AllFit(FitsSent, xs)
    ensures ReadMany(ReadColumn, |xs|, WriteMany(ColumnBytes, xs) + rest) == Some((Infos(xs), rest))
    decreases |xs|
  {
    hide ReadColumn, FitsSent, ColumnBytes;
    if xs == [] {
      assert [] + rest == rest;
    } else {
      var behind := WriteMany(ColumnBytes, xs[1..]) + rest;
      Assoc(ColumnBytes(xs[0]), WriteMany(ColumnBytes, xs[1..]), rest);
      ColumnIsRead(xs[0], behind);
      ColumnsAreRead(xs[1..], rest);
      assert Infos(xs) == [xs[0].info] + Infos(xs[1..]);
    }
  }

  lemma BlockIsSent(s: seq<byte>)
    requires ReadBlock(s).Some?
    ensures var (b, rest) := ReadBlock(s).value; |b| < 0x1_0000_0000 && s == WriteBlock(b) + rest
  {
    ReadBlockBounded(s);
    LEInvertsNum(s[..4]);
    var n := Num(s[..4]);
    assert s == s[..4] + (s[4..][..n] + s[4..][n..]);
    Assoc(s[..4], s[4..][..n], s[4..][n..]);
  }

  lemma SignedAgain(n: nat, limit: nat)
    requires n < limit && limit % 2 == 0
    ensures Unsigned(Signed(n, limit), limit) == n
  {
  }

  lemma FixedIsSent(name: seq<byte>, f: seq<byte>) returns (x: SentColumn)
    requires |f| == FIXED_SIZE && |name| < 0x1_0000_0000
    ensures x.info == ColumnOf(name, f) && FitsSent(x) && f == FixedBytes(x)
  {
    x := SentColumn(ColumnOf(name, f), f[17], f[18..]);
    Widths();
    LEInvertsNum(f[0..4]);
    LEInvertsNum(f[4..6]);
    LEInvertsNum(f[6..10]);
    LEInvertsNum(f[10..12]);
    LEInvertsNum(f[12..16]);
    SignedAgain(Num(f[10..12]), 0x1_0000);
    SignedAgain(Num(f[12..16]), 0x1_0000_0000);
    SixParts(f, Behind(x));
  }

  lemma SixParts(f: seq<byte>, last: seq<byte>)
    requires |f| == FIXED_SIZE && last == [f[16], f[17]] + f[18..]
    ensures f == f[0..4] + (f[4..6] + (f[6..10] + (f[10..12] + (f[12..16] + last))))
  {
    assert f[16..] == last;
    assert f[12..] == f[12..16] + f[16..];
    assert f[10..] == f[10..12] + f[12..];
    assert f[6..] == f[6..10] + f[10..];
    assert f[4..] == f[4..6] + f[6..];
    assert f == f[0..4] + f[4..];
  }

  lemma ColumnIsSent(s: seq<byte>) returns (x: SentColumn)
    requires ReadColumn(s).Some?
    ensures FitsSent(x) && x.info == ReadColumn(s).value.0 && s == ColumnBytes(x) + ReadColumn(s).value.1
  {
    BlockIsSent(s);
    hide ReadBlock, WriteBlock, FixedBytes, FitsSent, ColumnOf;
    var (name, behind) := ReadBlock(s).value;
    x := FixedIsSent(name, behind[..FIXED_SIZE]);
    assert behind == behind[..FIXED_SIZE] + behind[FIXED_SIZE..];
    Assoc(WriteBlock(name), behind[..FIXED_SIZE], behind[FIXED_SIZE..]);
  }

  lemma {:induction false} ColumnsAreSent(n: nat, s: seq<byte>) returns (xs: seq<SentColumn>)
    requires ReadMany(ReadColumn, n, s).Some?
    ensures |xs| == n && AllFit(FitsSent, xs) && Infos(xs) == ReadMany(ReadColumn, n, s).value.0
    ensures s == WriteMany(ColumnBytes, xs) + ReadMany(ReadColumn, n, s).value.1
    decreases n
  {
    hide ReadColumn, FitsSent, ColumnBytes;
    if n == 0 {
      xs := [];
    } else {
      var x := ColumnIsSent(s);
      var rest := ReadColumn(s).value.1;
      var more := ColumnsAreSent(n - 1, rest);
      xs := [x] + more;
      assert xs[1..] == more;
      assert Infos(xs) == [x.info] + Infos(more);
      Assoc(ColumnBytes(x), WriteMany(ColumnBytes, more), ReadMany(ReadColumn, n - 1, rest).value.1);
    }
  }

  /** The count, two ignored bytes, the columns, and whatever stands behind them. */
  function DescriptionBytes(xs: seq<SentColumn>, ignored: seq<byte>, trailing: seq<byte>): seq<byte> {
    LE(|xs|, 2) + (ignored + (WriteMany(ColumnBytes, xs) + trailing))
  }

  lemma FirstTwoParts(a: seq<byte>, b: seq<byte>, rest: seq<byte>)
    requires |a| == |b| == 2
    ensures var p := a + (b + rest); p[0..2] == a && p[2..4] == b && p[4..] == rest
  {
    var p := a + (b + rest);
    assert p[0..] == p;
    NextPart(p, 0, a, b + rest);
    NextPart(p, 2, b, rest);
  }

  /** Sent columns are read as what they say. */
  lemma DescriptionIsRead(xs: seq<SentColumn>, ignored: seq<byte>, trailing: seq<byte>)
    requires |xs| < 0x1_0000 && AllFit(FitsSent, xs) && |ignored| == 2
    ensures DescribedBy(DescriptionBytes(xs, ignored, trailing)) == Some(Infos(xs))
  {
    hide ReadMany, WriteMany, FitsSent;
    Widths();
    FirstTwoParts(LE(|xs|, 2), ignored, WriteMany(ColumnBytes, xs) + trailing);
    NumInvertsLE(|xs|, 2);
    ColumnsAreRead(xs, trailing);
  }

  /** What is accepted as a row description was sent so. */
  lemma DescriptionIsSent(payload: seq<byte>) returns (xs: seq<SentColumn>, ignored: seq<byte>, trailing: seq<byte>)
    requires DescribedBy(payload).Some?
    ensures |xs| < 0x1_0000 && AllFit(FitsSent, xs) && |ignored| == 2
    ensures payload == DescriptionBytes(xs, ignored, trailing) && DescribedBy(payload) == Some(Infos(xs))
  {
    hide ReadMany, WriteMany, FitsSent;
    Widths();
    LEInvertsNum(payload[0..2]);
    var n := Num(payload[0..2]);
    xs := ColumnsAreSent(n, payload[4..]);
    ignored, trailing := payload[2..4], ReadMany(ReadColumn, n, payload[4..]).value.1;
    assert payload == payload[0..2] + (payload[2..4] + payload[4..]);
  }

  // ----- cells

  /** A NULL is marked in the bitmap, or has a negative length. */
  datatype SentCell = Marked | Negative(length: nat) | Sent(data: seq<byte>)

  function CellBytes(x: SentCell): seq<byte> {
    match x
    case Marked => []
    case Negative(length) => LE(length, 4)
    case Sent(data) => WriteBlock(data)
  }

  function CellOf(x: SentCell): Cell {
    if x.Sent? then DataCell(x.data) else NullCell
  }

  /** Of the i-th cell: bit i of the bitmap, least significant first, says whether it is marked. */
  predicate FitsAt(bitmap: seq<byte>, i: nat, x: SentCell) {
    && (x.Marked? <==> i / 8 < |bitmap| && Bit(bitmap[i / 8], i % 8))
    && (x.Negative? ==> 0x8000_0000 <= x.length < 0x1_0000_0000)
    && (x.Sent? ==> |x.data| < 0x8000_0000)
  }

  predicate FitFrom(bitmap: seq<byte>, i: nat, xs: seq<SentCell>)
    decreases |xs|
  {
    xs != [] ==> FitsAt(bitmap, i, xs[0]) && FitFrom(bitmap, i + 1, xs[1..])
  }

  function Cells(xs: seq<SentCell>): (r: seq<Cell>)
    ensures |r| == |xs|
  {
    if xs == [] then [] else [CellOf(xs[0])] + Cells(xs[1..])
  }

  lemma CellIsRead(bitmap: seq<byte>, i: nat, x: SentCell, rest: seq<byte>)
    requires FitsAt(bitmap, i, x)
    ensures ReadCell(bitmap, i, CellBytes(x) + rest) == Some((CellOf(x), rest))
  {
    assert IsNull(bitmap, i) == x.Marked?;
    hide IsNull;
    match x {
      case Marked =>
        assert [] + rest == rest;
      case Negative(length) =>
        Widths();
        ReadNumInverts(length, 4, rest);
      case Sent(data) =>
        Widths();
        Assoc(LE(|data|, 4), data, rest);
        ReadNumInverts(|data|, 4, data + rest);
        TakeInverts(data, rest);
    }
  }

  lemma {:induction false} CellsAreRead(bitmap: seq<byte>, i: nat, xs: seq<SentCell>, rest: seq<byte>)
    requires FitFrom(bitmap, i, xs)
    ensures ReadCells(bitmap, i, i + |xs|, WriteMany(CellBytes, xs) + rest) == Some(Cells(xs))
    decreases |xs|
  {
    hide ReadCell, FitsAt, CellBytes;
    if xs != [] {
      var behind := WriteMany(CellBytes, xs[1..]) + rest;
      Assoc(CellBytes(xs[0]), WriteMany(CellBytes, xs[1..]), rest);
      CellIsRead(bitmap, i, xs[0], behind);
      CellsAreRead(bitmap, i + 1, xs[1..], rest);
      ReadOneCell(bitmap, i, i + |xs|, CellBytes(xs[0]) + behind, CellOf(xs[0]), behind, Cells(xs[1..]));
    }
  }

  lemma CellIsSent(bitmap: seq<byte>, i: nat, s: seq<byte>) returns (x: SentCell)
    requires ReadCell(bitmap, i, s).Some?
    ensures FitsAt(bitmap, i, x) && CellOf(x) == ReadCell(bitmap, i, s).value.0
    ensures s == CellBytes(x) + ReadCell(bitmap, i, s).value.1
  {
    if IsNull(bitmap, i) {
      x := Marked;
    } else {
      Widths();
      LEInvertsNum(s[..4]);
      var n := Num(s[..4]);
      if n >= 0x8000_0000 {
        x := Negative(n);
      } else {
        x := Sent(s[4..][..n]);
        BlockIsSent(s);
      }
    }
  }

  lemma {:induction false} CellsAreSent(bitmap: seq<byte>, i: nat, n: nat, s: seq<byte>)
    returns (xs: seq<SentCell>, rest: seq<byte>)
    requires i <= n && ReadCells(bitmap, i, n, s).Some?
    ensures |xs| == n - i && FitFrom(bitmap, i, xs) && Cells(xs) == ReadCells(bitmap, i, n, s).value
    ensures s == WriteMany(CellBytes, xs) + rest
    decreases n - i
  {
    hide ReadCell, FitsAt, CellBytes;
    if i == n {
      xs, rest := [], s;
    } else {
      var x := CellIsSent(bitmap, i, s);
      var more;
      more, rest := CellsAreSent(bitmap, i + 1, n, ReadCell(bitmap, i, s).value.1);
      xs := [x] + more;
      assert xs[1..] == more;
      Assoc(CellBytes(x), WriteMany(CellBytes, more), rest);
    }
  }

  /** The count, the length of the bitmap, the bitmap, the cells, and whatever stands behind them. */
  function RowBytes(bitmap: seq<byte>, xs: seq<SentCell>, trailing: seq<byte>): seq<byte> {
    LE(|xs|, 2) + (LE(|bitmap|, 2) + (bitmap + (WriteMany(CellBytes, xs) + trailing)))
  }

  predicate FitsRowBytes(bitmap: seq<byte>, xs: seq<SentCell>) {
    |bitmap| < 0x1_0000 && |xs| < 0x1_0000 && FitFrom(bitmap, 0, xs)
  }

  /** Sent cells are read as what they say. */
  lemma RowIsRead(bitmap: seq<byte>, xs: seq<SentCell>, trailing: seq<byte>)
    requires FitsRowBytes(bitmap, xs)
    ensures RowOf(RowBytes(bitmap, xs, trailing), |xs|) == Ok(Cells(xs))
  {
    hide RowOf, ReadCells, WriteMany, FitFrom, Num, LE;
    var p, behind := RowBytes(bitmap, xs, trailing), WriteMany(CellBytes, xs) + trailing;
    RowFront(|xs|, bitmap, behind);
    CellsAreRead(bitmap, 0, xs, trailing);
    JoinedNothing(p, |xs|, bitmap, behind, Cells(xs));
  }

  lemma RowFront(n: nat, bitmap: seq<byte>, behind: seq<byte>)
    requires n < 0x1_0000 && |bitmap| < 0x1_0000
    ensures var p := LE(n, 2) + (LE(|bitmap|, 2) + (bitmap + behind));
      && |p| >= 4 + |bitmap| && Num(p[0..2]) == n && Num(p[2..4]) == |bitmap|
      && p[4..4 + |bitmap|] == bitmap && p[4 + |bitmap|..] == behind
  {
    hide LE, Num;
    Widths();
    FourParts(LE(n, 2), LE(|bitmap|, 2), bitmap, behind);
    NumInvertsLE(n, 2);
    NumInvertsLE(|bitmap|, 2);
  }

  lemma JoinedNothing(p: seq<byte>, n: nat, bitmap: seq<byte>, behind: seq<byte>, cells: seq<Cell>)
    requires |p| >= 4 + |bitmap| && Num(p[0..2]) == n && Num(p[2..4]) == |bitmap|
    requires p[4..4 + |bitmap|] == bitmap && p[4 + |bitmap|..] == behind && ReadCells(bitmap, 0, n, behind) == Some(cells)
    ensures RowOf(p, n) == Ok(cells)
  {
    hide ReadCells, Num;
    assert [] + cells == cells;
  }

  /** What is accepted as a row was sent so; any other payload of the right count is truncated. */
  lemma RowIsSent(payload: seq<byte>, columnCount: nat)
    returns (bitmap: seq<byte>, xs: seq<SentCell>, trailing: seq<byte>)
    requires RowOf(payload, columnCount).Ok?
    ensures FitsRowBytes(bitmap, xs) && |xs| == columnCount && payload == RowBytes(bitmap, xs, trailing)
    ensures RowOf(payload, columnCount) == Ok(Cells(xs))
  {
    hide ReadCells, WriteMany, FitFrom;
    Widths();
    LEInvertsNum(payload[0..2]);
    LEInvertsNum(payload[2..4]);
    var k := Num(payload[2..4]);
    bitmap := payload[4..4 + k];
    xs, trailing := CellsAreSent(bitmap, 0, columnCount, payload[4 + k..]);
    assert [] + Cells(xs) == Cells(xs);
    assert payload == payload[0..2] + (payload[2..4] + (bitmap + payload[4 + k..]));
  }

  /** The refusals: another count, or too few bytes. */
  lemma RowIsRefused(payload: seq<byte>, columnCount: nat)
    ensures RowOf(payload, columnCount) == Err(CountMismatch) <==> |payload| >= 4 && Num(payload[0..2]) != columnCount
  {
  }
}
