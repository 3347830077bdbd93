/** The result cursor of the Go driver as functions on a cursor value, a reference
    grammar for response streams, and the theorems that relate the two. */
module ResultStream {
  import opened Wrappers
  import opened Messages
  import opened Session

  /** decodeColumnValue: any total function; `None` is a decoding error. */
  type Decoder<!V> = (ColumnInfo, seq<byte>) -> Option<V>

  type Row<+V> = seq<Option<V>>

  datatype Cursor = Cursor(
    session: State, columns: seq<ColumnInfo>, rowsAffected: int, lastInsertId: int, tag: string,
    done: bool, hasNext: bool, boundary: bool, pageSize: nat)
  {
    predicate Valid() {
      hasNext == boundary && (done ==> !hasNext)
    }
  }

  function Fresh(s: State, pageSize: nat): Cursor {
    Cursor(s, [], 0, 0, "", false, false, false, pageSize)
  }

  datatype RowResult<+V> = RowRead(row: Row<V>) | Stopped(why: Failure)

  // ----- the operations of Rows

  /** There is one cell for each column, and every cell but a NULL decodes for its column. */
  predicate Decodable<V>(cells: seq<Cell>, columns: seq<ColumnInfo>, decode: Decoder<V>) {
    && |cells| == |columns|
    && forall i :: 0 <= i < |cells| && cells[i].DataCell? ==> decode(columns[i], cells[i].data).Some?
  }

  /** Entry i is nothing for a NULL, and otherwise what cell i decodes to for column i. */
  function RowOf<V>(cells: seq<Cell>, columns: seq<ColumnInfo>, decode: Decoder<V>): (row: Row<V>)
    requires |cells| == |columns|
  {
    seq(|cells|, i requires 0 <= i < |cells| =>
      match cells[i] case NullCell => None case DataCell(data) => decode(columns[i], data))
  }

  function DecodeCells<V>(cells: seq<Cell>, columns: seq<ColumnInfo>, decode: Decoder<V>): (r: Option<Row<V>>)
    requires |cells| == |columns|
    ensures r == if Decodable(cells, columns, decode) then Some(RowOf(cells, columns, decode)) else None
  {
    if cells == [] then
      assert RowOf(cells, columns, decode) == [];
      Some([])
    else
      var n := |cells| - 1;
      var before := DecodeCells(cells[..n], columns[..n], decode);
      if before.None? then None
      else if cells[n].NullCell? then
        assert RowOf(cells, columns, decode) == before.value + [None];
        Some(before.value + [None])
      else
        var v := decode(columns[n], cells[n].data);
        if v.None? then None
        else
          assert RowOf(cells, columns, decode) == before.value + [v];
          Some(before.value + [v])
  }

  lemma {:induction false} DecodeFails<V>(cells: seq<Cell>, columns: seq<ColumnInfo>, decode: Decoder<V>, n: nat)
    requires n <= |cells| == |columns| && DecodeCells(cells[..n], columns[..n], decode).None?
    ensures DecodeCells(cells, columns, decode).None?
  {
    if n < |cells| {
      var k := |cells| - 1;
      assert cells[..k][..n] == cells[..n] && columns[..k][..n] == columns[..n];
      DecodeFails(cells[..k], columns[..k], decode, n);
    } else {
      assert cells[..n] == cells && columns[..n] == columns;
    }
  }

  function MarkBoundary(c: Cursor): (r: (Cursor, Option<Failure>))
    ensures |r.0.session.incoming| <= |c.session.incoming|
    decreases |c.session.incoming|
  {
    var s := c.session;
    if s.incoming == [] then (c, Some(ReadFailure(s)))
    else if IsAsync(s.incoming[0]) then MarkBoundary(c.(session := AbsorbAsync(s)))
    else if s.incoming[0].Ready? then
      (c.(session := AbsorbReady(s), done := true, hasNext := false, boundary := false), None)
    else (c.(hasNext := true, boundary := true), None)
  }

  function Complete(c: Cursor, done: Completion): Cursor {
    c.(tag := done.tag, rowsAffected := ToInt64(done.rows), lastInsertId := ToInt64(done.lastId))
  }

  function NextRow<V>(c: Cursor, decode: Decoder<V>): (r: (Cursor, RowResult<V>))
    ensures |r.0.session.incoming| <= |c.session.incoming|
    ensures r.1.RowRead? ==> |r.0.session.incoming| < |c.session.incoming|
    ensures r.0.hasNext && !c.hasNext ==> |r.0.session.incoming| < |c.session.incoming|
    decreases |c.session.incoming|
  {
    var s := c.session;
    if c.done || c.boundary then (c, Stopped(EndOfStream))
    else if s.incoming == [] then (c, Stopped(ReadFailure(s)))
    else
      var m := s.incoming[0];
      if IsAsync(m) then NextRow(c.(session := AbsorbAsync(s)), decode)
      else
        var popped := c.(session := Pop(s));
        if m.ErrorResponse? then (popped, Stopped(ServerError))
        else if m.RowDescription? then
          if m.columns.None? then (popped, Stopped(MalformedBody))
          else NextRow(popped.(columns := m.columns.value), decode)
        else if m.DataRow? then
          if m.cells.None? || |m.cells.value| != |c.columns| then (popped, Stopped(MalformedBody))
          else
            var row := DecodeCells(m.cells.value, c.columns, decode);
            (popped, if row.None? then Stopped(UndecodableValue) else RowRead(row.value))
        else if m.CommandComplete? then
          if m.completion.None? then (popped, Stopped(MalformedBody))
          else
            var (marked, failed) := MarkBoundary(Complete(popped, m.completion.value));
            (marked, Stopped(if failed.Some? then failed.value else EndOfStream))
        else if m.PortalSuspended? then
          var (s1, failed) := Send(Pop(s), Execute(c.pageSize));
          if failed.Some? then (c.(session := s1), Stopped(failed.value))
          else NextRow(c.(session := s1), decode)
        else if m.Ready? then (c.(session := AbsorbReady(s), done := true), Stopped(EndOfStream))
        else NextRow(popped, decode)
  }

  function NextResultSet(c: Cursor): Cursor {
    if c.done || !c.hasNext then c
    else c.(hasNext := false, boundary := false, columns := [], rowsAffected := 0, lastInsertId := 0, tag := "")
  }

  function Close<V>(c: Cursor, decode: Decoder<V>): (Cursor, Option<Failure>)
    decreases |c.session.incoming|, c.hasNext
  {
    if c.done then (c, None)
    else
      var (c1, r) := NextRow(c, decode);
      match r
      case RowRead(_) => Close(c1, decode)
      case Stopped(why) =>
        if why != EndOfStream then (c1, Some(why))
        else if c1.hasNext && !c1.done then Close(NextResultSet(c1), decode)
        else (c1, None)
  }

  // ----- QueryMultiContext

  datatype FieldSummary = FieldSummary(name: seq<byte>, typeOid: nat, format: byte, nullable: bool)

  /** A field for each column, in the same order, under the same name and of the same type. */
  predicate Describes(fields: seq<FieldSummary>, columns: seq<ColumnInfo>) {
    && |fields| == |columns|
    && forall i :: 0 <= i < |fields| ==>
         && fields[i].name == columns[i].name && fields[i].typeOid == columns[i].typeOid
         && fields[i].format == columns[i].format && fields[i].nullable == columns[i].nullable
  }

  function SummarizeFields(columns: seq<ColumnInfo>): (fields: seq<FieldSummary>)
    ensures Describes(fields, columns)
  {
    seq(|columns|, i requires 0 <= i < |columns| =>
      FieldSummary(columns[i].name, columns[i].typeOid, columns[i].format, columns[i].nullable))
  }

  datatype Summary<+V> = Summary(
    rows: seq<Row<V>>, rowCount: int, fields: seq<FieldSummary>, command: string, lastInsertId: int)

  function Summarize<V>(rows: seq<Row<V>>, c: Cursor): Summary<V> {
    Summary(rows, c.rowsAffected, SummarizeFields(c.columns), c.tag, c.lastInsertId)
  }

  function CollectRows<V>(c: Cursor, decode: Decoder<V>): (r: (Cursor, seq<Row<V>>, Failure))
    ensures |r.0.session.incoming| <= |c.session.incoming|
    ensures r.0.hasNext && !c.hasNext ==> |r.0.session.incoming| < |c.session.incoming|
    decreases |c.session.incoming|
  {
    var (c1, r) := NextRow(c, decode);
    match r
    case Stopped(why) => (c1, [], why)
    case RowRead(row) =>
      var (c2, rows, why) := CollectRows(c1, decode);
      (c2, [row] + rows, why)
  }

  function CollectSets<V>(c: Cursor, decode: Decoder<V>): (Cursor, Result<seq<Summary<V>>, Failure>)
    decreases |c.session.incoming|, c.hasNext
  {
    var (c1, rows, why) := CollectRows(c, decode);
    if why != EndOfStream then (c1, Err(why))
    else if c1.done || !c1.hasNext then (c1, Ok([Summarize(rows, c1)]))
    else
      var (c2, rest) := CollectSets(NextResultSet(c1), decode);
      (c2, if rest.Err? then rest else Ok([Summarize(rows, c1)] + rest.value))
  }

  /** With the deferred Close, whose error is ignored. */
  function QueryMulti<V>(c: Cursor, decode: Decoder<V>): (Cursor, Result<seq<Summary<V>>, Failure>) {
    var (c1, r) := CollectSets(c, decode);
    (Close(c1, decode).0, r)
  }

  // ----- what one call returns

  /** The row at the front of the stream, asynchronous messages aside: it is returned entry by entry
      if it has a cell for each column and all of them decode, and refused otherwise. */
  lemma {:induction false} RowAtFront<V>(c: Cursor, cells: seq<Cell>, decode: Decoder<V>)
    requires !c.done && !c.boundary
    requires Quiet(c.session.incoming) != [] && Quiet(c.session.incoming)[0] == DataRow(Some(cells))
    ensures var r := NextRow(c, decode).1;
      if |cells| != |c.columns| then r == Stopped(MalformedBody)
      else if exists i :: 0 <= i < |cells| && cells[i].DataCell? && decode(c.columns[i], cells[i].data).None? then
        r == Stopped(UndecodableValue)
      else
        && r.RowRead? && |r.row| == |cells|
        && forall i :: 0 <= i < |cells| ==>
             r.row[i] == if cells[i].NullCell? then None else decode(c.columns[i], cells[i].data)
    decreases |c.session.incoming|
  {
    var s := c.session;
    if IsAsync(s.incoming[0]) {
      RowAtFront(c.(session := AbsorbAsync(s)), cells, decode);
    }
  }

  // ----- reference grammar of an error-free response

  datatype Item =
    | Describe(columns: seq<ColumnInfo>)
    | DataItem(cells: seq<Cell>)
    | Suspension
    | Skipped

  datatype ResultSet = ResultSet(items: seq<Item>, completion: Completion)

  function ItemMessage(item: Item): Message {
    match item
    case Describe(columns) => RowDescription(Some(columns))
    case DataItem(cells) => DataRow(Some(cells))
    case Suspension => PortalSuspended
    case Skipped => Other
  }

  function ItemMessages(items: seq<Item>): seq<Message> {
    if items == [] then [] else [ItemMessage(items[0])] + ItemMessages(items[1..])
  }

  function SetMessages(sets: seq<ResultSet>): seq<Message> {
    if sets == [] then []
    else ItemMessages(sets[0].items) + [CommandComplete(Some(sets[0].completion))] + SetMessages(sets[1..])
  }

  /** The messages that are not asynchronous, in order. */
  function Quiet(ms: seq<Message>): seq<Message> {
    if ms == [] then []
    else if IsAsync(ms[0]) then Quiet(ms[1..])
    else [ms[0]] + Quiet(ms[1..])
  }

  /** Every data row has as many cells as there are columns, and all of them decode. */
  predicate Matching<V>(items: seq<Item>, columns: seq<ColumnInfo>, decode: Decoder<V>) {
    items != [] ==>
      match items[0]
      case Describe(cs) => Matching(items[1..], cs, decode)
      case DataItem(cells) =>
        && Decodable(cells, columns, decode)
        && Matching(items[1..], columns, decode)
      case _ => Matching(items[1..], columns, decode)
  }

  function RowsOf<V>(items: seq<Item>, columns: seq<ColumnInfo>, decode: Decoder<V>): seq<Row<V>>
    requires Matching(items, columns, decode)
  {
    if items == [] then []
    else match items[0]
         case Describe(cs) => RowsOf(items[1..], cs, decode)
         case DataItem(cells) => [RowOf(cells, columns, decode)] + RowsOf(items[1..], columns, decode)
         case _ => RowsOf(items[1..], columns, decode)
  }

  function LastColumns(items: seq<Item>, columns: seq<ColumnInfo>): seq<ColumnInfo> {
    if items == [] then columns
    else LastColumns(items[1..], if items[0].Describe? then items[0].columns else columns)
  }

  function Resumes(items: seq<Item>, pageSize: nat): seq<Request> {
    if items == [] then []
    else (if items[0].Suspension? then [Execute(pageSize)] else []) + Resumes(items[1..], pageSize)
  }

  function AllResumes(sets: seq<ResultSet>, pageSize: nat): seq<Request> {
    if sets == [] then [] else Resumes(sets[0].items, pageSize) + AllResumes(sets[1..], pageSize)
  }

  function SummaryOf<V>(set_: ResultSet, decode: Decoder<V>): Summary<V>
    requires Matching(set_.items, [], decode)
  {
    Summary(RowsOf(set_.items, [], decode), ToInt64(set_.completion.rows),
            SummarizeFields(LastColumns(set_.items, [])), set_.completion.tag, ToInt64(set_.completion.lastId))
  }

  predicate AllMatching<V>(sets: seq<ResultSet>, decode: Decoder<V>) {
    forall k :: 0 <= k < |sets| ==> Matching(sets[k].items, [], decode)
  }

  function Summaries<V>(sets: seq<ResultSet>, decode: Decoder<V>): seq<Summary<V>>
    requires AllMatching(sets, decode)
  {
    seq(|sets|, k requires 0 <= k < |sets| => SummaryOf(sets[k], decode))
  }

  predicate Writable(s: State) {
    s.raw && true !in s.faults
  }

  // ----- the cursor against the grammar

  predicate Reading(c: Cursor) {
    Writable(c.session) && !c.done && !c.hasNext && !c.boundary
  }

  /** From `c` to `c'` the stream moved on towards the same READY. */
  predicate OnTheWay(c: Cursor, c': Cursor) {
    && Writable(c'.session) && c'.Valid() && c'.pageSize == c.pageSize
    && (c'.done ==>
          && c'.session.incoming == AfterReady(c.session.incoming)
          && c'.session.txn == TxnThroughReady(c.session.incoming, c.session.txn))
    && (!c'.done ==>
          && AfterReady(c'.session.incoming) == AfterReady(c.session.incoming)
          && TxnThroughReady(c'.session.incoming, c'.session.txn) == TxnThroughReady(c.session.incoming, c.session.txn))
  }

  lemma {:induction false} BoundaryPeeks(c: Cursor, q: seq<Message>)
    requires Reading(c)
    requires q != [] && Quiet(c.session.incoming) == q
    ensures var (c1, failed) := MarkBoundary(c);
      && failed.None? && OnTheWay(c, c1)
      && c1 == c.(session := c1.session, done := q[0].Ready?, hasNext := !q[0].Ready?, boundary := !q[0].Ready?)
      && (!q[0].Ready? ==> Quiet(c1.session.incoming) == q)
      && c1.session.sent == c.session.sent
    decreases |c.session.incoming|
  {
    var s := c.session;
    if IsAsync(s.incoming[0]) {
      BoundaryPeeks(c.(session := AbsorbAsync(s)), q);
    }
  }

  function Closing(end: Option<Completion>): seq<Message> {
    if end.None? then [] else [CommandComplete(end)]
  }

  /** What the cursor reports at the end of the items: their completion, if there was one. */
  function Ended(c: Cursor, end: Option<Completion>): Cursor {
    if end.None? then c else Complete(c, end.value)
  }

  /** Collecting from `c` returns the rows of `items`, reports the completion, and stops before
      the quiet messages `q`, or with the READY they begin with. */
  predicate Collected<V(==)>(c: Cursor, items: seq<Item>, end: Option<Completion>, q: seq<Message>, decode: Decoder<V>)
    requires q != [] && Matching(items, c.columns, decode)
  {
    var (c1, rows, why) := CollectRows(c, decode);
    && why == EndOfStream && rows == RowsOf(items, c.columns, decode)
    && OnTheWay(c, c1)
    && c1.columns == LastColumns(items, c.columns)
    && c1.tag == Ended(c, end).tag && c1.rowsAffected == Ended(c, end).rowsAffected
    && c1.lastInsertId == Ended(c, end).lastInsertId
    && c1.done == q[0].Ready? && c1.hasNext == !q[0].Ready?
    && (!c1.done ==> Quiet(c1.session.incoming) == q)
    && c1.session.sent == c.session.sent + Resumes(items, c.pageSize)
  }

  /** The cursor after taking the message of an item, inside a set. */
  function AfterItem(c: Cursor, item: Item): Cursor
    requires c.session.incoming != []
  {
    match item
    case Describe(columns) => c.(session := Pop(c.session), columns := columns)
    case Suspension => c.(session := Send(Pop(c.session), Execute(c.pageSize)).0)
    case _ => c.(session := Pop(c.session))
  }

  lemma ItemOnTheWay(c: Cursor, item: Item)
    requires Reading(c) && c.session.incoming != [] && c.session.incoming[0] == ItemMessage(item)
    ensures OnTheWay(c, AfterItem(c, item)) && !AfterItem(c, item).done
  {
  }

  predicate ItemFits<V>(item: Item, columns: seq<ColumnInfo>, decode: Decoder<V>) {
    item.DataItem? ==> Decodable(item.cells, columns, decode)
  }

  lemma RowItemRead<V>(c: Cursor, cells: seq<Cell>, decode: Decoder<V>)
    requires Reading(c) && c.session.incoming != [] && c.session.incoming[0] == DataRow(Some(cells))
    requires Decodable(cells, c.columns, decode)
    ensures NextRow(c, decode) == (c.(session := Pop(c.session)), RowRead(RowOf(cells, c.columns, decode)))
  {
    assert |cells| == |c.columns|;
    hide Decodable, RowOf, DecodeCells;
  }

  lemma OtherItemRead<V>(c: Cursor, item: Item, decode: Decoder<V>)
    requires Reading(c) && c.session.incoming != [] && c.session.incoming[0] == ItemMessage(item)
    requires !item.DataItem?
    ensures NextRow(c, decode) == NextRow(AfterItem(c, item), decode)
  {
    hide Decodable, RowOf, DecodeCells;
  }

  /** An item is a row to return, or is passed over. */
  lemma ItemRead<V>(c: Cursor, item: Item, decode: Decoder<V>)
    requires Reading(c) && c.session.incoming != [] && c.session.incoming[0] == ItemMessage(item)
    requires ItemFits(item, c.columns, decode)
    ensures var next := AfterItem(c, item);
      if item.DataItem? then NextRow(c, decode) == (next, RowRead(RowOf(item.cells, c.columns, decode)))
      else NextRow(c, decode) == NextRow(next, decode)
  {
    hide NextRow, Decodable, RowOf;
    if item.DataItem? {
      RowItemRead(c, item.cells, decode);
    } else {
      OtherItemRead(c, item, decode);
    }
  }

  lemma ItemResumes(c: Cursor, items: seq<Item>)
    requires Reading(c) && c.session.incoming != [] && items != []
    ensures AfterItem(c, items[0]).session.sent + Resumes(items[1..], c.pageSize)
         == c.session.sent + Resumes(items, c.pageSize)
  {
    var rest := Resumes(items[1..], c.pageSize);
    if items[0].Suspension? {
      assert c.session.sent + [Execute(c.pageSize)] + rest == c.session.sent + ([Execute(c.pageSize)] + rest);
    } else {
      assert [] + rest == rest;
    }
  }

  lemma ItemCollected<V>(c: Cursor, items: seq<Item>, end: Option<Completion>, q: seq<Message>, decode: Decoder<V>)
    requires Reading(c) && q != [] && items != [] && Matching(items, c.columns, decode)
    requires c.session.incoming != [] && c.session.incoming[0] == ItemMessage(items[0])
    requires Collected(AfterItem(c, items[0]), items[1..], end, q, decode)
    ensures Collected(c, items, end, q, decode)
  {
    hide OnTheWay, Quiet, NextRow, DecodeCells;
    var next := AfterItem(c, items[0]);
    ItemOnTheWay(c, items[0]);
    ItemRead(c, items[0], decode);
    ItemResumes(c, items);
    OnTheWayTrans(c, next, CollectRows(next, decode).0);
  }

  lemma OnTheWayTrans(c: Cursor, c': Cursor, c'': Cursor)
    requires OnTheWay(c, c') && OnTheWay(c', c'') && !c'.done
    ensures OnTheWay(c, c'')
  {
  }

  lemma AsyncCollected<V>(c: Cursor, items: seq<Item>, end: Option<Completion>, q: seq<Message>, decode: Decoder<V>)
    requires Reading(c) && q != [] && Matching(items, c.columns, decode)
    requires c.session.incoming != [] && IsAsync(c.session.incoming[0])
    requires Collected(c.(session := AbsorbAsync(c.session)), items, end, q, decode)
    ensures Collected(c, items, end, q, decode)
  {
    assert NextRow(c, decode) == NextRow(c.(session := AbsorbAsync(c.session)), decode);
  }

  lemma CompletionCollected<V>(c: Cursor, done: Completion, q: seq<Message>, decode: Decoder<V>)
    requires Reading(c) && q != []
    requires c.session.incoming != [] && c.session.incoming[0] == CommandComplete(Some(done))
    requires Quiet(c.session.incoming[1..]) == q
    ensures Collected(c, [], Some(done), q, decode)
  {
    BoundaryPeeks(Complete(c.(session := Pop(c.session)), done), q);
  }

  /** One pass over a result set, or over items that no completion follows. */
  lemma {:induction false} CollectsOneSet<V>(c: Cursor, items: seq<Item>, end: Option<Completion>, q: seq<Message>,
        decode: Decoder<V>)
    requires Reading(c) && q != [] && Matching(items, c.columns, decode)
    requires Quiet(c.session.incoming) == ItemMessages(items) + Closing(end) + q
    requires end.None? ==> q[0].Ready?
    ensures Collected(c, items, end, q, decode)
    decreases |c.session.incoming|
  {
    var s := c.session;
    var quiet := Quiet(s.incoming);
    if IsAsync(s.incoming[0]) {
      CollectsOneSet(c.(session := AbsorbAsync(s)), items, end, q, decode);
      AsyncCollected(c, items, end, q, decode);
    } else if items == [] && end.None? {
      assert s.incoming[0] == quiet[0] == q[0];
      assert NextRow(c, decode) == (c.(session := AbsorbReady(s), done := true), Stopped(EndOfStream));
    } else if items == [] {
      assert s.incoming[0] == quiet[0] && Quiet(s.incoming[1..]) == quiet[1..] == q;
      CompletionCollected(c, end.value, q, decode);
    } else {
      assert s.incoming[0] == quiet[0] == ItemMessage(items[0]);
      assert Quiet(s.incoming[1..]) == quiet[1..] == ItemMessages(items[1..]) + Closing(end) + q;
      CollectsOneSet(AfterItem(c, items[0]), items[1..], end, q, decode);
      ItemCollected(c, items, end, q, decode);
    }
  }

  /** A cursor at the start of a result set. */
  predicate Blank(c: Cursor) {
    c.columns == [] && c.rowsAffected == 0 && c.lastInsertId == 0 && c.tag == ""
  }

  /** Result sets, items that no completion follows, and READY, asynchronous messages aside. */
  predicate Responds<V>(c: Cursor, sets: seq<ResultSet>, tail: seq<Item>, rest: seq<Message>, decode: Decoder<V>) {
    && Reading(c) && Blank(c)
    && AllMatching(sets, decode) && Matching(tail, [], decode)
    && rest != [] && rest[0].Ready?
    && Quiet(c.session.incoming) == SetMessages(sets) + (ItemMessages(tail) + rest)
  }

  /** The summary of what no completion follows. */
  function TailSummary<V>(tail: seq<Item>, decode: Decoder<V>): Summary<V>
    requires Matching(tail, [], decode)
  {
    Summary(RowsOf(tail, [], decode), 0, SummarizeFields(LastColumns(tail, [])), "", 0)
  }

  predicate NothingLeft(sets: seq<ResultSet>, tail: seq<Item>) {
    sets != [] && tail == []
  }

  function AllSummaries<V>(sets: seq<ResultSet>, tail: seq<Item>, decode: Decoder<V>): seq<Summary<V>>
    requires AllMatching(sets, decode) && Matching(tail, [], decode)
  {
    Summaries(sets, decode) + if NothingLeft(sets, tail) then [] else [TailSummary(tail, decode)]
  }

  /** Behind a completion comes READY exactly if nothing is left. */
  lemma BehindFirstSet(sets: seq<ResultSet>, tail: seq<Item>, rest: seq<Message>)
    requires sets != [] && rest != [] && rest[0].Ready?
    ensures var q := SetMessages(sets[1..]) + (ItemMessages(tail) + rest);
      && q != [] && (q[0].Ready? <==> |sets| == 1 && tail == [])
  {
    var q := SetMessages(sets[1..]) + (ItemMessages(tail) + rest);
    if |sets| > 1 {
      var second := sets[1..][0];
      assert q[0] == (ItemMessages(second.items) + [CommandComplete(Some(second.completion))])[0];
    } else {
      assert q == ItemMessages(tail) + rest;
    }
  }

  lemma FirstSetCollected<V>(c: Cursor, sets: seq<ResultSet>, tail: seq<Item>, rest: seq<Message>, decode: Decoder<V>)
    requires Responds(c, sets, tail, rest, decode) && sets != []
    ensures var q := SetMessages(sets[1..]) + (ItemMessages(tail) + rest);
      && q != [] && Collected(c, sets[0].items, Some(sets[0].completion), q, decode)
      && (q[0].Ready? <==> |sets| == 1 && tail == [])
  {
    var first := sets[0];
    var q := SetMessages(sets[1..]) + (ItemMessages(tail) + rest);
    BehindFirstSet(sets, tail, rest);
    assert SetMessages(sets) + (ItemMessages(tail) + rest)
        == ItemMessages(first.items) + Closing(Some(first.completion)) + q;
    CollectsOneSet(c, first.items, Some(first.completion), q, decode);
  }

  lemma SummariesSplit<V>(sets: seq<ResultSet>, decode: Decoder<V>)
    requires sets != [] && AllMatching(sets, decode)
    ensures AllMatching(sets[1..], decode)
    ensures Summaries(sets, decode) == [SummaryOf(sets[0], decode)] + Summaries(sets[1..], decode)
  {
  }

  /** Main result: an error-free response, with asynchronous messages anywhere, yields one
      summary per completion with exactly its rows in order, and one more for what follows the
      last completion exactly when something does or when nothing was completed; every suspended
      portal is resumed; the stream is consumed through READY and no further; and the
      transaction state is that of all messages in wire order. */
  lemma {:induction false} CollectSetsSplitsTheStream<V>(c: Cursor, sets: seq<ResultSet>, tail: seq<Item>,
                                                         rest: seq<Message>, decode: Decoder<V>)
    requires Responds(c, sets, tail, rest, decode)
    ensures var (c1, r) := CollectSets(c, decode);
      && r == Ok(AllSummaries(sets, tail, decode))
      && c1.done && OnTheWay(c, c1)
      && c1.session.sent == c.session.sent + (AllResumes(sets, c.pageSize) + Resumes(tail, c.pageSize))
    decreases |sets|
  {
    if sets == [] {
      TailIsCollected(c, tail, rest, decode);
    } else {
      FirstSetCollected(c, sets, tail, rest, decode);
      SummariesSplit(sets, decode);
      var (c1, rows, why) := CollectRows(c, decode);
      assert Summarize(rows, c1) == SummaryOf(sets[0], decode);
      if |sets| == 1 && tail == [] {
        assert CollectSets(c, decode) == (c1, Ok([Summarize(rows, c1)]));
        assert AllResumes(sets, c.pageSize) == Resumes(sets[0].items, c.pageSize);
        assert Summaries(sets[1..], decode) == [];
        assert AllSummaries(sets, tail, decode) == [SummaryOf(sets[0], decode)];
      } else {
        var next := NextResultSet(c1);
        CollectSetsSplitsTheStream(next, sets[1..], tail, rest, decode);
        SetsBehindOne(c, c1, rows, sets, tail, rest, decode);
      }
    }
  }

  lemma TailIsCollected<V>(c: Cursor, tail: seq<Item>, rest: seq<Message>, decode: Decoder<V>)
    requires Responds(c, [], tail, rest, decode)
    ensures var (c1, r) := CollectSets(c, decode);
      && r == Ok(AllSummaries([], tail, decode))
      && c1.done && OnTheWay(c, c1)
      && c1.session.sent == c.session.sent + (AllResumes([], c.pageSize) + Resumes(tail, c.pageSize))
  {
    assert SetMessages([]) + (ItemMessages(tail) + rest) == ItemMessages(tail) + Closing(None) + rest;
    CollectsOneSet(c, tail, None, rest, decode);
    var (c1, rows, why) := CollectRows(c, decode);
    assert CollectSets(c, decode) == (c1, Ok([Summarize(rows, c1)]));
    assert Summarize(rows, c1) == TailSummary(tail, decode);
    var none: seq<ResultSet> := [];
    assert Summaries(none, decode) + [TailSummary(tail, decode)] == [TailSummary(tail, decode)];
    assert AllResumes(none, c.pageSize) + Resumes(tail, c.pageSize) == Resumes(tail, c.pageSize);
  }

  lemma SetsBehindOne<V>(c: Cursor, c1: Cursor, rows: seq<Row<V>>, sets: seq<ResultSet>, tail: seq<Item>,
                         rest: seq<Message>, decode: Decoder<V>)
    requires sets != [] && AllMatching(sets, decode) && AllMatching(sets[1..], decode) && Matching(tail, [], decode)
    requires CollectRows(c, decode) == (c1, rows, EndOfStream) && !c1.done && c1.hasNext && OnTheWay(c, c1)
    requires Summarize(rows, c1) == SummaryOf(sets[0], decode) && (|sets| > 1 || tail != [])
    requires c1.session.sent == c.session.sent + Resumes(sets[0].items, c.pageSize)
    requires var (c2, r2) := CollectSets(NextResultSet(c1), decode);
      && r2 == Ok(AllSummaries(sets[1..], tail, decode)) && c2.done && OnTheWay(NextResultSet(c1), c2)
      && c2.session.sent == c1.session.sent + (AllResumes(sets[1..], c.pageSize) + Resumes(tail, c.pageSize))
    ensures var (c2, r) := CollectSets(c, decode);
      && r == Ok(AllSummaries(sets, tail, decode)) && c2.done && OnTheWay(c, c2)
      && c2.session.sent == c.session.sent + (AllResumes(sets, c.pageSize) + Resumes(tail, c.pageSize))
  {
    var next := NextResultSet(c1);
    var (c2, r2) := CollectSets(next, decode);
    assert CollectSets(c, decode) == (c2, Ok([Summarize(rows, c1)] + r2.value));
    SummariesBehindOne(sets, tail, decode);
    OnTheWayTrans(c, next, c2);
    ThreeParts(c.session.sent, Resumes(sets[0].items, c.pageSize), AllResumes(sets[1..], c.pageSize),
               Resumes(tail, c.pageSize));
  }

  lemma ThreeParts<T>(sent: seq<T>, a: seq<T>, b: seq<T>, d: seq<T>)
    ensures sent + a + (b + d) == sent + (a + b + d)
  {
  }

  lemma SummariesBehindOne<V>(sets: seq<ResultSet>, tail: seq<Item>, decode: Decoder<V>)
    requires sets != [] && AllMatching(sets, decode) && AllMatching(sets[1..], decode) && Matching(tail, [], decode)
    requires |sets| > 1 || tail != []
    ensures AllSummaries(sets, tail, decode) == [SummaryOf(sets[0], decode)] + AllSummaries(sets[1..], tail, decode)
  {
    SummariesSplit(sets, decode);
    var last := if NothingLeft(sets, tail) then [] else [TailSummary(tail, decode)];
    assert [SummaryOf(sets[0], decode)] + (Summaries(sets[1..], decode) + last) == AllSummaries(sets, tail, decode);
  }

  /** The same for the whole call. There is one summary per completion exactly when something
      was completed and nothing follows the last completion. */
  lemma QueryMultiSplitsTheStream<V>(c: Cursor, sets: seq<ResultSet>, tail: seq<Item>, rest: seq<Message>,
                                     decode: Decoder<V>)
    requires Responds(c, sets, tail, rest, decode)
    ensures var (c1, r) := QueryMulti(c, decode);
      && r == Ok(AllSummaries(sets, tail, decode))
      && (r == Ok(Summaries(sets, decode)) <==> sets != [] && tail == [])
      && c1.session.incoming == AfterReady(c.session.incoming)
      && c1.session.txn == TxnThroughReady(c.session.incoming, c.session.txn)
      && c1.session.sent == c.session.sent + (AllResumes(sets, c.pageSize) + Resumes(tail, c.pageSize))
  {
    CollectSetsSplitsTheStream(c, sets, tail, rest, decode);
    assert |AllSummaries(sets, tail, decode)| == |sets| + if NothingLeft(sets, tail) then 0 else 1;
    if NothingLeft(sets, tail) {
      assert AllSummaries(sets, tail, decode) == Summaries(sets, decode);
    }
  }

  lemma {:induction false} BareReadyIsRead<V>(c: Cursor, decode: Decoder<V>)
    requires !c.done && !c.boundary && Quiet(c.session.incoming) != [] && Quiet(c.session.incoming)[0].Ready?
    ensures var (c1, r) := NextRow(c, decode);
      r == Stopped(EndOfStream) && c1 == c.(session := c1.session, done := true)
    decreases |c.session.incoming|
  {
    if IsAsync(c.session.incoming[0]) {
      BareReadyIsRead(c.(session := AbsorbAsync(c.session)), decode);
    }
  }

  /** A READY with nothing but asynchronous messages before it still yields one summary, although
      nothing was completed, whatever the state of the connection. */
  lemma BareReadyYieldsOneSummary<V>(s: State, pageSize: nat, decode: Decoder<V>)
    requires Quiet(s.incoming) != [] && Quiet(s.incoming)[0].Ready?
    ensures QueryMulti(Fresh(s, pageSize), decode).1 == Ok([Summary([], 0, [], "", 0)])
  {
    var c := Fresh(s, pageSize);
    BareReadyIsRead(c, decode);
    var c1 := NextRow(c, decode).0;
    assert CollectRows(c, decode) == (c1, [], EndOfStream);
    var rows: seq<Row<V>> := [];
    assert Summarize(rows, c1) == Summary(rows, 0, [], "", 0);
  }

  /** A message that the driver skips, between the last completion and READY, yields a second
      summary for the one completion. */
  lemma SkippedMessageAddsASummary<V>(s: State, pageSize: nat, done: Completion, report: Option<(byte, nat)>,
                                      decode: Decoder<V>)
    requires Writable(s) && s.incoming == [CommandComplete(Some(done)), Other, Ready(report)]
    ensures QueryMulti(Fresh(s, pageSize), decode).1
         == Ok([Summary([], ToInt64(done.rows), [], done.tag, ToInt64(done.lastId)), Summary([], 0, [], "", 0)])
  {
    var sets, tail, rest := [ResultSet([], done)], [Skipped], [Ready(report)];
    var ready: seq<Message> := [Ready(report)];
    assert Quiet(ready) == ready by { assert ready[1..] == []; }
    assert Quiet([Other] + ready) == [Other] + ready by { assert ([Other] + ready)[1..] == ready; }
    assert s.incoming == [CommandComplete(Some(done))] + ([Other] + ready);
    assert s.incoming[1..] == [Other] + ready;
    assert ItemMessages(tail) == [Other] by { assert tail[1..] == []; }
    assert SetMessages(sets) == [CommandComplete(Some(done))] by { assert sets[1..] == []; }
    QueryMultiSplitsTheStream(Fresh(s, pageSize), sets, tail, rest, decode);
    var none: seq<Row<V>> := [];
    assert RowsOf(tail, [], decode) == none && LastColumns(tail, []) == [] by { assert tail[1..] == []; }
    assert SummarizeFields([]) == [];
    var one := Summary(none, ToInt64(done.rows), [], done.tag, ToInt64(done.lastId));
    assert SummaryOf(sets[0], decode) == one && TailSummary(tail, decode) == Summary(none, 0, [], "", 0);
    assert AllSummaries(sets, tail, decode) == [one, Summary(none, 0, [], "", 0)];
  }

  /** An asynchronous message in the same place adds none. */
  lemma AsyncMessageAddsNone<V>(s: State, pageSize: nat, done: Completion, m: Message, report: Option<(byte, nat)>,
                                decode: Decoder<V>)
    requires m.ParameterStatus? || m.TxnStatus? || m.Notification?
    requires Writable(s) && s.incoming == [CommandComplete(Some(done)), m, Ready(report)]
    ensures QueryMulti(Fresh(s, pageSize), decode).1
         == Ok([Summary([], ToInt64(done.rows), [], done.tag, ToInt64(done.lastId))])
  {
    hide QueryMulti, Responds;
    AsyncBehindCompletion(s, pageSize, done, m, report, decode);
    var sets := [ResultSet([], done)];
    QueryMultiSplitsTheStream(Fresh(s, pageSize), sets, [], [Ready(report)], decode);
    var none: seq<Row<V>> := [];
    var one := Summary(none, ToInt64(done.rows), [], done.tag, ToInt64(done.lastId));
    assert SummaryOf(sets[0], decode) == one;
    assert AllSummaries(sets, [], decode) == [one];
  }

  lemma AsyncBehindCompletion<V>(s: State, pageSize: nat, done: Completion, m: Message, report: Option<(byte, nat)>,
                                 decode: Decoder<V>)
    requires IsAsync(m) && Writable(s) && s.incoming == [CommandComplete(Some(done)), m, Ready(report)]
    ensures Responds(Fresh(s, pageSize), [ResultSet([], done)], [], [Ready(report)], decode)
  {
    var sets, ready: seq<Message> := [ResultSet([], done)], [Ready(report)];
    assert Quiet(ready) == ready by { assert ready[1..] == []; }
    assert Quiet([m] + ready) == ready by { assert ([m] + ready)[1..] == ready; }
    assert s.incoming == [CommandComplete(Some(done))] + ([m] + ready) && s.incoming[1..] == [m] + ready;
    assert SetMessages(sets) == [CommandComplete(Some(done))] by { assert sets[1..] == []; }
  }

  // ----- end of the stream

  /** What makes the cursor fail at the first message that does, up to the first READY or up to the
      end: an error, a body that does not parse, a row that does not match the columns in force, a
      value that does not decode, or a request to resume a portal that cannot be written. */
  function Trouble<V>(ms: seq<Message>, columns: seq<ColumnInfo>, raw: bool, faults: seq<bool>,
                      decode: Decoder<V>): Option<Failure> {
    if ms == [] || ms[0].Ready? then None
    else
      var m, rest := ms[0], ms[1..];
      if m.ErrorResponse? then Some(ServerError)
      else if m.RowDescription? then
        if m.columns.None? then Some(MalformedBody) else Trouble(rest, m.columns.value, raw, faults, decode)
      else if m.DataRow? then
        if m.cells.None? || |m.cells.value| != |columns| then Some(MalformedBody)
        else if !Decodable(m.cells.value, columns, decode) then Some(UndecodableValue)
        else Trouble(rest, columns, raw, faults, decode)
      else if m.CommandComplete? then
        if m.completion.None? then Some(MalformedBody) else Trouble(rest, [], raw, faults, decode)
      else if m.PortalSuspended? then
        if !raw then Some(NotOpen)
        else if faults != [] && faults[0] then Some(IoFailure)
        else Trouble(rest, columns, raw, if faults == [] then [] else faults[1..], decode)
      else Trouble(rest, columns, raw, faults, decode)
  }

  predicate Unbroken<V>(ms: seq<Message>, columns: seq<ColumnInfo>, raw: bool, faults: seq<bool>, decode: Decoder<V>) {
    Trouble(ms, columns, raw, faults, decode).None?
  }

  predicate PeerCloses(s: State) {
    s.raw && s.end == PeerClosed
  }

  /** What is wrong with what is to come; at a boundary the columns are about to go. */
  function TroubleAhead<V>(c: Cursor, decode: Decoder<V>): Option<Failure> {
    Trouble(c.session.incoming, if c.hasNext then [] else c.columns, c.session.raw, c.session.faults, decode)
  }

  predicate Sound<V>(c: Cursor, decode: Decoder<V>) {
    TroubleAhead(c, decode).None?
  }

  /** Going from `c` to `c'` decides neither whether the stream is sound nor how it ends. */
  predicate SameProspect<V>(c: Cursor, c': Cursor, decode: Decoder<V>) {
    && c'.Valid() && !c'.done
    && TroubleAhead(c', decode) == TroubleAhead(c, decode)
    && (HasReady(c'.session.incoming) <==> HasReady(c.session.incoming))
    && c'.session.raw == c.session.raw && c'.session.end == c.session.end
  }

  /** Reading `c` fails, and for this reason. */
  predicate FailsBecause<V>(c: Cursor, why: Failure, decode: Decoder<V>) {
    if Sound(c, decode) then !HasReady(c.session.incoming) && !PeerCloses(c.session) && why == EndFailure(c.session)
    else why == TroubleAhead(c, decode).value
  }

  /** What it means that reading stopped for the reason `why` with the cursor at `c'`. */
  predicate StopsRightly<V>(c: Cursor, c': Cursor, why: Failure, decode: Decoder<V>) {
    if why != EndOfStream then FailsBecause(c, why, decode)
    else if c'.done then c'.Valid() && Sound(c, decode) && HasReady(c.session.incoming)
    else if c'.hasNext then SameProspect(c, c', decode)
    else c'.Valid() && Sound(c, decode) && !HasReady(c.session.incoming) && PeerCloses(c.session)
  }

  lemma {:induction false} BoundaryStops<V>(c: Cursor, decode: Decoder<V>)
    requires c.Valid() && !c.done && !c.hasNext
    ensures var (c1, failed) := MarkBoundary(c);
      StopsRightly(c.(columns := []), c1, if failed.Some? then failed.value else EndOfStream, decode)
    decreases |c.session.incoming|
  {
    hide AdoptAsync, AdoptReady, Decodable;
    if c.session.incoming != [] && IsAsync(c.session.incoming[0]) {
      BoundaryStops(c.(session := AbsorbAsync(c.session)), decode);
    }
  }

  lemma {:induction false} RowStops<V>(c: Cursor, decode: Decoder<V>)
    requires c.Valid() && !c.done
    ensures var (c1, r) := NextRow(c, decode);
      if r.RowRead? then SameProspect(c, c1, decode) else StopsRightly(c, c1, r.why, decode)
    decreases |c.session.incoming|
  {
    hide AdoptAsync, AdoptReady, Decodable, RowOf, MarkBoundary;
    var s := c.session;
    if !c.boundary && s.incoming != [] {
      var m := s.incoming[0];
      var popped := c.(session := Pop(s));
      if IsAsync(m) {
        RowStops(c.(session := AbsorbAsync(s)), decode);
      } else if m.RowDescription? && m.columns.Some? {
        RowStops(popped.(columns := m.columns.value), decode);
      } else if m.CommandComplete? && m.completion.Some? {
        BoundaryStops(Complete(popped, m.completion.value), decode);
      } else if m.PortalSuspended? {
        RowStops(c.(session := Send(Pop(s), Execute(c.pageSize)).0), decode);
      } else if m.Other? {
        RowStops(popped, decode);
      }
    }
  }

  lemma {:induction false} RowsStop<V>(c: Cursor, decode: Decoder<V>)
    requires c.Valid() && !c.done
    ensures var (c1, _, why) := CollectRows(c, decode); StopsRightly(c, c1, why, decode)
    decreases |c.session.incoming|
  {
    RowStops(c, decode);
    var (c1, r) := NextRow(c, decode);
    if r.RowRead? {
      RowsStop(c1, decode);
    }
  }

  /** Collecting succeeds exactly when the stream is unbroken and has a READY or ends with the
      peer closing the socket; and then the cursor is done exactly when there was a READY. Otherwise
      the error is that of the first message that is in the way, or of the read behind the last. */
  lemma {:induction false} SucceedsExactlyWhen<V>(c: Cursor, decode: Decoder<V>)
    requires c.Valid() && !c.done
    ensures var (c1, r) := CollectSets(c, decode);
      && (r.Ok? <==> Sound(c, decode) && (HasReady(c.session.incoming) || PeerCloses(c.session)))
      && (r.Ok? ==> (c1.done <==> HasReady(c.session.incoming)))
      && (r.Err? ==> FailsBecause(c, r.error, decode))
    decreases |c.session.incoming|, c.hasNext
  {
    RowsStop(c, decode);
    var (c1, _, why) := CollectRows(c, decode);
    if why == EndOfStream && !c1.done && c1.hasNext {
      SucceedsExactlyWhen(NextResultSet(c1), decode);
    }
  }

  /** So does closing. */
  lemma {:induction false} CloseSucceedsExactlyWhen<V>(c: Cursor, decode: Decoder<V>)
    requires c.Valid() && !c.done
    ensures var failed := Close(c, decode).1;
      && (failed.None? <==> Sound(c, decode) && (HasReady(c.session.incoming) || PeerCloses(c.session)))
      && (failed.Some? ==> FailsBecause(c, failed.value, decode))
    decreases |c.session.incoming|, c.hasNext
  {
    hide Trouble, NextRow, HasReady;
    RowStops(c, decode);
    var (c1, r) := NextRow(c, decode);
    if r.RowRead? {
      CloseSucceedsExactlyWhen(c1, decode);
    } else if r.why == EndOfStream && !c1.done && c1.hasNext {
      CloseSucceedsExactlyWhen(NextResultSet(c1), decode);
    }
  }

  /** The whole call on a stream of any shape, with any write faults: it reports a truncated
      stream as success exactly when the peer closed the socket and nothing before was broken. */
  lemma TruncationIsSuccessExactlyWhen<V>(s: State, pageSize: nat, decode: Decoder<V>)
    ensures var r := QueryMulti(Fresh(s, pageSize), decode).1;
      && (r.Ok? <==> Unbroken(s.incoming, [], s.raw, s.faults, decode) && (HasReady(s.incoming) || PeerCloses(s)))
      && (!HasReady(s.incoming) ==>
            (r.Ok? <==> PeerCloses(s) && Unbroken(s.incoming, [], s.raw, s.faults, decode)))
      && (r.Err? ==> r.error == (match Trouble(s.incoming, [], s.raw, s.faults, decode)
                                 case Some(why) => why
                                 case None => EndFailure(s)))
  {
    SucceedsExactlyWhen(Fresh(s, pageSize), decode);
  }

  /** So a socket closed between two rows of a set is reported as success, with the rows read
      so far. */
  lemma TruncationReportedAsSuccess<V>(s: State, pageSize: nat, decode: Decoder<V>)
    requires s.raw && s.end == PeerClosed
    requires s.incoming == [RowDescription(Some([])), DataRow(Some([]))]
    ensures QueryMulti(Fresh(s, pageSize), decode).1 == Ok([Summary([[]], 0, [], "", 0)])
    ensures !QueryMulti(Fresh(s, pageSize), decode).0.done
  {
    var c0 := Fresh(s, pageSize);
    var c1 := c0.(session := Pop(s));
    var c2 := c1.(session := Pop(Pop(s)));
    var row: Row<V> := [];
    assert NextRow(c0, decode) == NextRow(c1, decode) == (c2, RowRead(row));
    assert CollectRows(c2, decode) == (c2, [], EndOfStream);
    assert CollectRows(c0, decode) == (c2, [row] + [], EndOfStream);
    assert Summarize([row], c2) == Summary([row], 0, [], "", 0);
    assert [row] + [] == [row];
    assert Close(c2, decode) == (c2, None);
  }

  // ----- Close

  /** The stream has a READY, and up to it nothing but a write could make the cursor fail. */
  predicate Clean<V>(ms: seq<Message>, columns: seq<ColumnInfo>, decode: Decoder<V>) {
    HasReady(ms) && Unbroken(ms, columns, true, [], decode)
  }

  /** A cursor that can still run into its READY: at a boundary the columns are about to go. */
  predicate Healthy<V>(c: Cursor, decode: Decoder<V>) {
    && Writable(c.session) && c.Valid()
    && (!c.done ==> Clean(c.session.incoming, if c.hasNext then [] else c.columns, decode))
  }

  lemma {:induction false} BoundaryStaysHealthy<V>(c: Cursor, decode: Decoder<V>)
    requires Healthy(c.(columns := []), decode) && !c.done && !c.hasNext
    ensures var (c1, failed) := MarkBoundary(c);
      failed.None? && Healthy(c1, decode) && OnTheWay(c, c1) && (c1.done || c1.hasNext)
    decreases |c.session.incoming|
  {
    if IsAsync(c.session.incoming[0]) {
      BoundaryStaysHealthy(c.(session := AbsorbAsync(c.session)), decode);
    }
  }

  lemma {:induction false} RowStaysHealthy<V>(c: Cursor, decode: Decoder<V>)
    requires Healthy(c, decode) && !c.done
    ensures var (c1, r) := NextRow(c, decode);
      && Healthy(c1, decode) && OnTheWay(c, c1)
      && (r.RowRead? ==> !c1.done)
      && (r.Stopped? ==> r.why == EndOfStream && (c1.done || c1.hasNext))
    decreases |c.session.incoming|
  {
    var s := c.session;
    if !c.boundary {
      var m := s.incoming[0];
      var popped := c.(session := Pop(s));
      if IsAsync(m) {
        RowStaysHealthy(c.(session := AbsorbAsync(s)), decode);
      } else if m.RowDescription? {
        RowStaysHealthy(popped.(columns := m.columns.value), decode);
      } else if m.CommandComplete? {
        BoundaryStaysHealthy(Complete(popped, m.completion.value), decode);
      } else if m.PortalSuspended? {
        RowStaysHealthy(c.(session := Send(Pop(s), Execute(c.pageSize)).0), decode);
      } else if m.Other? {
        RowStaysHealthy(popped, decode);
      }
    }
  }

  /** Closing from any point of a clean stream, inside a set or at a boundary, succeeds and
      consumes exactly through READY. */
  lemma {:induction false} CloseConsumesThroughReady<V>(c: Cursor, decode: Decoder<V>)
    requires Healthy(c, decode) && !c.done
    ensures var (c1, failed) := Close(c, decode);
      && failed.None? && c1.done
      && c1.session.incoming == AfterReady(c.session.incoming)
      && c1.session.txn == TxnThroughReady(c.session.incoming, c.session.txn)
    decreases |c.session.incoming|, c.hasNext
  {
    RowStaysHealthy(c, decode);
    var (c1, r) := NextRow(c, decode);
    if r.RowRead? {
      CloseConsumesThroughReady(c1, decode);
    } else if !c1.done {
      CloseConsumesThroughReady(NextResultSet(c1), decode);
    }
  }

  // ----- every reachable cursor

  datatype CursorOp = ReadRow | NextSet

  /** The cursor after its caller has read rows and moved on in any order. */
  function RunCursor<V>(c: Cursor, ops: seq<CursorOp>, decode: Decoder<V>): Cursor
    decreases |ops|
  {
    if ops == [] then c
    else RunCursor(if ops[0].ReadRow? then NextRow(c, decode).0 else NextResultSet(c), ops[1..], decode)
  }

  lemma {:induction false} ReachableStaysHealthy<V>(c: Cursor, ops: seq<CursorOp>, decode: Decoder<V>)
    requires Healthy(c, decode)
    ensures var c1 := RunCursor(c, ops, decode);
      Healthy(c1, decode) && (c.done ==> c1 == c) && (!c.done ==> OnTheWay(c, c1))
    decreases |ops|
  {
    if ops != [] {
      var next := if ops[0].ReadRow? then NextRow(c, decode).0 else NextResultSet(c);
      if !c.done && ops[0].ReadRow? {
        RowStaysHealthy(c, decode);
      }
      ReachableStaysHealthy(next, ops[1..], decode);
      if !c.done && !next.done {
        OnTheWayTrans(c, next, RunCursor(next, ops[1..], decode));
      }
    }
  }

  /** However a caller has used a fresh cursor over a clean stream, closing it succeeds, and in
      the end exactly the messages through READY have been consumed and applied. */
  lemma CloseFromEveryReachablePoint<V>(s: State, pageSize: nat, ops: seq<CursorOp>, decode: Decoder<V>)
    requires Writable(s) && Clean(s.incoming, [], decode)
    ensures var (c1, failed) := Close(RunCursor(Fresh(s, pageSize), ops, decode), decode);
      && failed.None? && c1.done
      && c1.session.incoming == AfterReady(s.incoming)
      && c1.session.txn == TxnThroughReady(s.incoming, s.txn)
  {
    var c := Fresh(s, pageSize);
    ReachableStaysHealthy(c, ops, decode);
    var reached := RunCursor(c, ops, decode);
    if !reached.done {
      CloseConsumesThroughReady(reached, decode);
    }
  }

  // ----- the grammar is complete

  /** The first result set starts under `columns`, every later one under none. */
  predicate MatchingFrom<V>(sets: seq<ResultSet>, tail: seq<Item>, columns: seq<ColumnInfo>, decode: Decoder<V>) {
    if sets == [] then Matching(tail, columns, decode)
    else
      && Matching(sets[0].items, columns, decode) && AllMatching(sets[1..], decode)
      && Matching(tail, [], decode)
  }

  predicate Spells(ms: seq<Message>, sets: seq<ResultSet>, tail: seq<Item>, rest: seq<Message>) {
    && rest != [] && rest[0].Ready?
    && Quiet(ms) == SetMessages(sets) + (ItemMessages(tail) + rest)
  }

  function ItemOf(m: Message): Item
    requires !IsAsync(m) && !m.ErrorResponse? && !m.CommandComplete? && !m.Ready?
    requires (m.RowDescription? ==> m.columns.Some?) && (m.DataRow? ==> m.cells.Some?)
  {
    if m.RowDescription? then Describe(m.columns.value)
    else if m.DataRow? then DataItem(m.cells.value)
    else if m.PortalSuspended? then Suspension
    else Skipped
  }

  lemma ItemInFront(m: Message, ms: seq<Message>, sets: seq<ResultSet>, tail: seq<Item>, rest: seq<Message>)
    returns (sets1: seq<ResultSet>, tail1: seq<Item>)
    requires !IsAsync(m) && !m.ErrorResponse? && !m.CommandComplete? && !m.Ready?
    requires (m.RowDescription? ==> m.columns.Some?) && (m.DataRow? ==> m.cells.Some?)
    requires Spells(ms, sets, tail, rest)
    ensures Spells([m] + ms, sets1, tail1, rest)
    ensures if sets == [] then sets1 == [] && tail1 == [ItemOf(m)] + tail
            else sets1 == [ResultSet([ItemOf(m)] + sets[0].items, sets[0].completion)] + sets[1..] && tail1 == tail
  {
    assert ([m] + ms)[1..] == ms;
    var end := ItemMessages(tail) + rest;
    if sets == [] {
      sets1, tail1 := [], [ItemOf(m)] + tail;
      assert tail1[1..] == tail;
      assert SetMessages(sets) + end == end;
      assert SetMessages(sets1) + (ItemMessages(tail1) + rest) == [m] + end;
    } else {
      sets1, tail1 := [ResultSet([ItemOf(m)] + sets[0].items, sets[0].completion)] + sets[1..], tail;
      ItemInFrontOfSets(m, sets, sets1);
      assert SetMessages(sets1) + end == [m] + (SetMessages(sets) + end);
    }
  }

  lemma FourParts(m: Message, a: seq<Message>, b: seq<Message>, d: seq<Message>)
    ensures [m] + a + b + d == [m] + (a + b + d)
  {
  }

  lemma ItemInFrontOfSets(m: Message, sets: seq<ResultSet>, sets1: seq<ResultSet>)
    requires !IsAsync(m) && !m.ErrorResponse? && !m.CommandComplete? && !m.Ready?
    requires (m.RowDescription? ==> m.columns.Some?) && (m.DataRow? ==> m.cells.Some?)
    requires sets != [] && sets1 == [ResultSet([ItemOf(m)] + sets[0].items, sets[0].completion)] + sets[1..]
    ensures SetMessages(sets1) == [m] + SetMessages(sets)
  {
    var items := [ItemOf(m)] + sets[0].items;
    var (a, b, d) := (ItemMessages(sets[0].items), [CommandComplete(Some(sets[0].completion))], SetMessages(sets[1..]));
    assert sets1[1..] == sets[1..] && items[1..] == sets[0].items;
    assert ItemMessages(items) == [m] + a;
    FourParts(m, a, b, d);
  }

  lemma CompletionInFront(done: Completion, ms: seq<Message>, sets: seq<ResultSet>, tail: seq<Item>, rest: seq<Message>)
    requires Spells(ms, sets, tail, rest)
    ensures Spells([CommandComplete(Some(done))] + ms, [ResultSet([], done)] + sets, tail, rest)
  {
    var m := CommandComplete(Some(done));
    var sets1 := [ResultSet([], done)] + sets;
    assert ([m] + ms)[1..] == ms && sets1[1..] == sets;
    assert SetMessages(sets1) == [m] + SetMessages(sets);
    assert SetMessages(sets1) + (ItemMessages(tail) + rest) == [m] + (SetMessages(sets) + (ItemMessages(tail) + rest));
  }

  /** Every clean stream is result sets, items and READY: the main result leaves none out. */
  lemma {:induction false} CleanStreamsRespond<V>(ms: seq<Message>, columns: seq<ColumnInfo>, decode: Decoder<V>)
    returns (sets: seq<ResultSet>, tail: seq<Item>, rest: seq<Message>)
    requires Clean(ms, columns, decode)
    ensures Spells(ms, sets, tail, rest) && MatchingFrom(sets, tail, columns, decode)
  {
    var m := ms[0];
    assert ms == [m] + ms[1..];
    if IsAsync(m) {
      sets, tail, rest := CleanStreamsRespond(ms[1..], columns, decode);
    } else if m.Ready? {
      sets, tail, rest := [], [], Quiet(ms);
      assert SetMessages(sets) + (ItemMessages(tail) + rest) == rest;
    } else if m.CommandComplete? {
      sets, tail, rest := CleanStreamsRespond(ms[1..], [], decode);
      CompletionInFront(m.completion.value, ms[1..], sets, tail, rest);
      var sets1 := [ResultSet([], m.completion.value)] + sets;
      assert sets1[1..] == sets;
      sets := sets1;
    } else {
      var after := if m.RowDescription? then m.columns.value else columns;
      var sets0, tail0;
      sets0, tail0, rest := CleanStreamsRespond(ms[1..], after, decode);
      sets, tail := ItemInFront(m, ms[1..], sets0, tail0, rest);
      if sets0 == [] {
        assert tail[1..] == tail0;
      } else {
        assert sets[1..] == sets0[1..] && sets[0].items[1..] == sets0[0].items;
      }
    }
  }
}
