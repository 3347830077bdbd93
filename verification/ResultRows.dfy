/** The Rows object of the Go driver and its consumer QueryMultiContext, updated in place
    over a connection and proved against the functions of `ResultStream`. */
module ResultRows {
  import opened Wrappers
  import opened Messages
  import S = Session
  import opened Connection
  import F = ResultStream

  lemma PopThenPushBack(s: S.State)
    requires s.incoming != []
    ensures S.Pop(s).(incoming := [s.incoming[0]] + S.Pop(s).incoming) == s
  {
  }

  class Rows<V> {
    const conn: Conn
    const decode: F.Decoder<V>
    const pageSize: nat
    var columns: seq<ColumnInfo>
    var rowsAffected: int
    var lastInsertID: int
    var commandTag: string
    var done: bool
    var hasNextSet: bool
    var setBoundary: bool

    /** At most one message is held back, and none once READY was read. */
    ghost predicate Valid()
      reads this, conn
    {
      && conn.Valid() && Cursor().Valid()
      && (done ==> conn.pending == [])
    }

    ghost function Cursor(): F.Cursor
      reads this, conn
    {
      F.Cursor(conn.Current(), columns, rowsAffected, lastInsertID, commandTag, done, hasNextSet, setBoundary, pageSize)
    }

    constructor (conn: Conn, pageSize: nat, decode: F.Decoder<V>)
      requires conn.Valid() && conn.pending == []
      ensures Valid() && this.conn == conn && this.decode == decode
      ensures Cursor() == F.Fresh(conn.Current(), pageSize)
    {
      this.conn, this.pageSize, this.decode := conn, pageSize, decode;
      columns, rowsAffected, lastInsertID, commandTag := [], 0, 0, "";
      done, hasNextSet, setBoundary := false, false, false;
    }

    method MarkResultSetBoundary() returns (failed: Option<S.Failure>)
      requires Valid() && !done && !hasNextSet
      modifies this, conn
      ensures Valid()
      ensures (Cursor(), failed) == F.MarkBoundary(old(Cursor()))
    {
      hide S.AdoptReady, S.AdoptAsync;
      ghost var goal := F.MarkBoundary(Cursor());
      while true
        invariant Valid() && !done && !hasNextSet
        invariant F.MarkBoundary(Cursor()) == goal
        decreases |conn.pending| + |conn.wire|
      {
        ghost var before := Cursor();
        var m, handled := conn.ReceiveHandled();
        if m.Err? {
          return Some(m.error);
        }
        if handled {
          continue;
        }
        if m.value.Ready? {
          conn.ApplyReport(m.value.report);
          done, hasNextSet, setBoundary := true, false, false;
          return None;
        }
        PopThenPushBack(before.session);
        conn.PushBack(m.value);
        hasNextSet, setBoundary := true, true;
        return None;
      }
    }

    method DecodeRow(cells: seq<Cell>) returns (row: Option<F.Row<V>>)
      requires |cells| == |columns|
      ensures row == F.DecodeCells(cells, columns, decode)
    {
      var out: F.Row<V> := [];
      for i := 0 to |cells|
        invariant F.DecodeCells(cells[..i], columns[..i], decode) == Some(out)
      {
        assert cells[..i + 1][..i] == cells[..i] && columns[..i + 1][..i] == columns[..i];
        if cells[i].NullCell? {
          out := out + [None];
        } else {
          var decoded := decode(columns[i], cells[i].data);
          if decoded.None? {
            F.DecodeFails(cells, columns, decode, i + 1);
            return None;
          }
          out := out + [decoded];
        }
      }
      assert cells[..|cells|] == cells && columns[..|columns|] == columns;
      return Some(out);
    }

    /** The CommandComplete branch of nextRow. */
    method FinishSet(completion: Completion) returns (failed: Option<S.Failure>)
      requires Valid() && !done && !hasNextSet
      modifies this, conn
      ensures Valid()
      ensures (Cursor(), failed) == F.MarkBoundary(F.Complete(old(Cursor()), completion))
    {
      commandTag, rowsAffected, lastInsertID :=
        completion.tag, ToInt64(completion.rows), ToInt64(completion.lastId);
      failed := MarkResultSetBoundary();
    }

    method NextRow() returns (r: F.RowResult<V>)
      requires Valid()
      modifies this, conn
      ensures Valid()
      ensures (Cursor(), r) == F.NextRow(old(Cursor()), decode)
    {
      if done || setBoundary {
        return F.Stopped(S.EndOfStream);
      }
      hide S.AdoptReady, S.AdoptAsync, S.Send, F.DecodeCells, F.MarkBoundary, F.Complete;
      ghost var goal := F.NextRow(Cursor(), decode);
      while true
        invariant Valid() && !done && !setBoundary
        invariant F.NextRow(Cursor(), decode) == goal
        decreases |conn.pending| + |conn.wire|
      {
        var m, handled := conn.ReceiveHandled();
        if m.Err? {
          return F.Stopped(m.error);
        }
        if handled {
          continue;
        }
        if m.value.ErrorResponse? {
          return F.Stopped(S.ServerError);
        } else if m.value.RowDescription? {
          if m.value.columns.None? {
            return F.Stopped(S.MalformedBody);
          }
          columns := m.value.columns.value;
        } else if m.value.DataRow? {
          if m.value.cells.None? || |m.value.cells.value| != |columns| {
            return F.Stopped(S.MalformedBody);
          }
          var row := DecodeRow(m.value.cells.value);
          return if row.None? then F.Stopped(S.UndecodableValue) else F.RowRead(row.value);
        } else if m.value.CommandComplete? {
          if m.value.completion.None? {
            return F.Stopped(S.MalformedBody);
          }
          var failed := FinishSet(m.value.completion.value);
          return F.Stopped(if failed.Some? then failed.value else S.EndOfStream);
        } else if m.value.PortalSuspended? {
          var failed := conn.SendMessage(Execute(pageSize));
          if failed.Some? {
            return F.Stopped(failed.value);
          }
        } else if m.value.Ready? {
          conn.ApplyReport(m.value.report);
          done := true;
          return F.Stopped(S.EndOfStream);
        }
      }
    }

    method NextResultSet() returns (failed: Option<S.Failure>)
      requires Valid()
      modifies this
      ensures Valid()
      ensures Cursor() == F.NextResultSet(old(Cursor()))
      ensures failed == if old(hasNextSet) then None else Some(S.EndOfStream)
    {
      if done || !hasNextSet {
        return Some(S.EndOfStream);
      }
      hasNextSet, setBoundary := false, false;
      columns, rowsAffected, lastInsertID, commandTag := [], 0, 0, "";
      return None;
    }

    method Close() returns (failed: Option<S.Failure>)
      requires Valid()
      modifies this, conn
      ensures Valid()
      ensures (Cursor(), failed) == F.Close(old(Cursor()), decode)
    {
      while !done
        invariant Valid()
        invariant F.Close(Cursor(), decode) == F.Close(old(Cursor()), decode)
        decreases |conn.pending| + |conn.wire|, hasNextSet
      {
        var r := NextRow();
        if r.Stopped? {
          if r.why != S.EndOfStream {
            return Some(r.why);
          }
          if !hasNextSet {
            break;
          }
          var _ := NextResultSet();
        }
      }
      return None;
    }
  }

  /** QueryMultiContext after the query was sent, with its deferred Close. */
  method QueryMulti<V>(rows: Rows<V>) returns (r: Result<seq<F.Summary<V>>, S.Failure>)
    requires rows.Valid()
    modifies rows, rows.conn
    ensures rows.Valid()
    ensures (rows.Cursor(), r) == F.QueryMulti(old(rows.Cursor()), rows.decode)
  {
    r := CollectSets(rows);
    var _ := rows.Close();
  }

  method CollectSets<V>(rows: Rows<V>) returns (r: Result<seq<F.Summary<V>>, S.Failure>)
    requires rows.Valid()
    modifies rows, rows.conn
    ensures rows.Valid()
    ensures (rows.Cursor(), r) == F.CollectSets(old(rows.Cursor()), rows.decode)
  {
    ghost var start := rows.Cursor();
    var summaries: seq<F.Summary<V>> := [];
    SetsSoFarStart(start, rows.decode);
    while true
      invariant rows.Valid()
      invariant SetsSoFar(start, rows.Cursor(), summaries, rows.decode)
      decreases |rows.conn.pending| + |rows.conn.wire|, rows.hasNextSet
    {
      ghost var before := rows.Cursor();
      var dataRows: seq<F.Row<V>> := [];
      RowsSoFarStart(before, rows.decode);
      var why;
      while true
        invariant rows.Valid()
        invariant RowsSoFar(before, rows.Cursor(), dataRows, rows.decode)
        decreases |rows.conn.pending| + |rows.conn.wire|
      {
        ghost var now := rows.Cursor();
        var row := rows.NextRow();
        RowsSoFarStep(before, now, dataRows, rows.decode);
        if row.Stopped? {
          why := row.why;
          break;
        }
        dataRows := dataRows + [row.row];
      }
      SetsSoFarStep(start, before, summaries, rows.decode);
      if why != S.EndOfStream {
        return Err(why);
      }
      var fields := F.SummarizeFields(rows.columns);
      summaries := summaries + [F.Summary(dataRows, rows.rowsAffected, fields, rows.commandTag, rows.lastInsertID)];
      if !rows.hasNextSet {
        return Ok(summaries);
      }
      var _ := rows.NextResultSet();
    }
  }

  /** Collecting from `start` is collecting from `now` behind the rows already read. */
  ghost predicate RowsSoFar<V>(start: F.Cursor, now: F.Cursor, rows: seq<F.Row<V>>, decode: F.Decoder<V>) {
    var (end, all, why) := F.CollectRows(start, decode);
    var (end', more, why') := F.CollectRows(now, decode);
    end == end' && why == why' && all == rows + more
  }

  ghost predicate SetsSoFar<V>(start: F.Cursor, now: F.Cursor, summaries: seq<F.Summary<V>>, decode: F.Decoder<V>) {
    var (end, all) := F.CollectSets(start, decode);
    var (end', more) := F.CollectSets(now, decode);
    end == end' && all == if more.Err? then more else Ok(summaries + more.value)
  }

  lemma RowsSoFarStart<V>(start: F.Cursor, decode: F.Decoder<V>)
    ensures RowsSoFar(start, start, [], decode)
  {
    var all := F.CollectRows(start, decode).1;
    assert [] + all == all;
  }

  lemma RowsSoFarStep<V>(start: F.Cursor, now: F.Cursor, rows: seq<F.Row<V>>, decode: F.Decoder<V>)
    requires RowsSoFar(start, now, rows, decode)
    ensures var (next, r) := F.NextRow(now, decode);
      && (r.RowRead? ==> RowsSoFar(start, next, rows + [r.row], decode))
      && (r.Stopped? ==> F.CollectRows(start, decode) == (next, rows, r.why))
  {
    var (next, r) := F.NextRow(now, decode);
    if r.RowRead? {
      var more := F.CollectRows(next, decode).1;
      assert rows + ([r.row] + more) == rows + [r.row] + more;
    } else {
      assert rows + [] == rows;
    }
  }

  lemma SetsSoFarStart<V>(start: F.Cursor, decode: F.Decoder<V>)
    ensures SetsSoFar(start, start, [], decode)
  {
    var (_, all) := F.CollectSets(start, decode);
    assert all.Ok? ==> [] + all.value == all.value;
  }

  lemma SetsSoFarStep<V>(start: F.Cursor, now: F.Cursor, summaries: seq<F.Summary<V>>, decode: F.Decoder<V>)
    requires SetsSoFar(start, now, summaries, decode)
    ensures var (next, rows, why) := F.CollectRows(now, decode);
      if why != S.EndOfStream then F.CollectSets(start, decode) == (next, Err(why))
      else if next.done || !next.hasNext then
        F.CollectSets(start, decode) == (next, Ok(summaries + [F.Summarize(rows, next)]))
      else SetsSoFar(start, F.NextResultSet(next), summaries + [F.Summarize(rows, next)], decode)
  {
    var (next, rows, why) := F.CollectRows(now, decode);
    if why == S.EndOfStream && !next.done && next.hasNext {
      var more := F.CollectSets(F.NextResultSet(next), decode).1;
      if more.Ok? {
        var s := F.Summarize(rows, next);
        assert summaries + ([s] + more.value) == summaries + [s] + more.value;
      }
    }
  }
}
