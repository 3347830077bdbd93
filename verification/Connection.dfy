/** The connection object of the Go driver. Its methods update the fields in place, as
    the source does, and are proved against the functions of `Session`. */
module Connection {
  import opened Wrappers
  import opened Messages
  import opened Session

  class Conn {
    var pending: seq<Message>      // messages taken from the wire and pushed back
    var wire: seq<Message>         // messages the server has sent and nobody has read
    var end: ReadEnd
    var faults: seq<bool>
    var sent: seq<Request>
    var raw: bool
    var closed: bool
    var txnID: nat
    var runtimeTxnActive: bool
    var explicitTransaction: bool

    /** At most one message is ever pushed back, so appending to `pending` right after a
        read restores the order of the wire. */
    ghost predicate Valid()
      reads this
    {
      |pending| <= 1 && (!raw ==> wire == [])
    }

    ghost function CurrentTxn(): Txn
      reads this
    {
      Txn(txnID, runtimeTxnActive, explicitTransaction)
    }

    ghost function Current(): State
      reads this
    {
      State(pending + wire, end, faults, sent, raw, closed, CurrentTxn())
    }

    constructor (wire: seq<Message>, end: ReadEnd, faults: seq<bool>)
      ensures Valid()
      ensures Current() == State(wire, end, faults, [], true, false, NO_TXN)
    {
      pending, this.wire, this.end, this.faults, sent := [], wire, end, faults, [];
      raw, closed := true, false;
      txnID, runtimeTxnActive, explicitTransaction := 0, false, false;
    }

    method SendMessage(r: Request) returns (failed: Option<Failure>)
      requires Valid()
      modifies this`faults, this`sent
      ensures Valid()
      ensures (Current(), failed) == Send(old(Current()), r)
    {
      if !raw {
        return Some(NotOpen);
      }
      var fails := faults != [] && faults[0];
      faults := if faults == [] then [] else faults[1..];
      if fails {
        return Some(IoFailure);
      }
      sent := sent + [r];
      return None;
    }

    method Receive() returns (r: Result<Message, Failure>)
      requires Valid()
      modifies this`pending, this`wire
      ensures Valid()
      ensures r.Err? <==> old(Current()).incoming == []
      ensures r.Err? ==> Current() == old(Current()) && r.error == ReadFailure(old(Current()))
      ensures r.Ok? ==> r.value == old(Current()).incoming[0] && Current() == Pop(old(Current()))
      ensures r.Ok? ==> pending == []
    {
      if |pending| > 0 {
        r := Ok(pending[0]);
        pending := pending[1..];
        assert (old(pending) + wire)[1..] == pending + wire;
        return;
      }
      if !raw {
        return Err(NotOpen);
      }
      if wire == [] {
        return Err(match end case PeerClosed => EndOfStream case ReadTimeout => Timeout case ReadBroken => IoFailure);
      }
      r := Ok(wire[0]);
      wire := wire[1..];
      assert (pending + old(wire))[1..] == pending + wire;
    }

    method Queue(m: Message)
      modifies this`pending
      ensures pending == old(pending) + [m]
    {
      pending := pending + [m];
    }

    method ClearTransactionState()
      modifies this`txnID, this`runtimeTxnActive, this`explicitTransaction
      ensures CurrentTxn() == NO_TXN
    {
      txnID, runtimeTxnActive, explicitTransaction := 0, false, false;
    }

    method ApplyRuntimeTxnID(id: nat)
      modifies this`txnID, this`runtimeTxnActive
      ensures CurrentTxn() == AdoptId(old(CurrentTxn()), id)
    {
      txnID := id;
      if id != 0 {
        runtimeTxnActive := true;
      }
    }

    method ApplyRuntimeReadyState(status: byte, id: nat)
      modifies this`txnID, this`runtimeTxnActive, this`explicitTransaction
      ensures CurrentTxn() == AdoptReady(old(CurrentTxn()), Some((status, id)))
    {
      txnID := id;
      if status != 0 {
        runtimeTxnActive := true;
        return;
      }
      ClearTransactionState();
    }

    method HandleAsyncMessage(m: Message) returns (handled: bool)
      modifies this`txnID, this`runtimeTxnActive, this`explicitTransaction
      ensures handled == IsAsync(m)
      ensures CurrentTxn() == if handled then AdoptAsync(old(CurrentTxn()), m) else old(CurrentTxn())
    {
      match m
      case ParameterStatus(current) =>
        if current.Some? {
          ApplyRuntimeTxnID(current.value);
        }
        return true;
      case TxnStatus(report) =>
        if report.Some? {
          if report.value.0 == STATUS_IN_TRANSACTION {
            ApplyRuntimeTxnID(report.value.1);
          } else {
            ClearTransactionState();
          }
        }
        return true;
      case Notification => return true;
      case _ => return false;
    }

    /** The opening of every receive loop: read a message and apply it if asynchronous. */
    method ReceiveHandled() returns (r: Result<Message, Failure>, handled: bool)
      requires Valid()
      modifies this
      ensures Valid()
      ensures r.Err? <==> old(Current()).incoming == []
      ensures r.Err? ==> Current() == old(Current()) && r.error == ReadFailure(old(Current()))
      ensures r.Ok? ==> r.value == old(Current()).incoming[0] && handled == IsAsync(r.value) && pending == []
      ensures r.Ok? ==> Current() == if handled then AbsorbAsync(old(Current())) else Pop(old(Current()))
    {
      r := Receive();
      handled := false;
      if r.Ok? {
        handled := HandleAsyncMessage(r.value);
      }
    }

    /** The READY branch of a receive loop: a malformed report changes nothing. */
    method ApplyReport(report: Option<(byte, nat)>)
      modifies this`txnID, this`runtimeTxnActive, this`explicitTransaction
      ensures CurrentTxn() == AdoptReady(old(CurrentTxn()), report)
    {
      if report.Some? {
        ApplyRuntimeReadyState(report.value.0, report.value.1);
      }
    }

    /** Push back the message just received. */
    method PushBack(m: Message)
      requires Valid() && pending == []
      modifies this`pending
      ensures Valid()
      ensures Current() == old(Current()).(incoming := [m] + old(Current()).incoming)
    {
      Queue(m);
    }

    method DrainUntilReady() returns (r: Result<Completion, Failure>)
      requires Valid()
      modifies this
      ensures Valid()
      ensures (Current(), r) == Drain(old(Current()), NO_COMPLETION)
      ensures r.Ok? ==> pending == []
    {
      var last := NO_COMPLETION;
      ghost var goal := Drain(Current(), NO_COMPLETION);
      while true
        invariant Valid()
        invariant Drain(Current(), last) == goal
        decreases |pending| + |wire|
      {
        var m, handled := ReceiveHandled();
        if m.Err? {
          return Err(m.error);
        }
        if handled {
          continue;
        }
        if m.value.ErrorResponse? {
          return Err(ServerError);
        } else if m.value.CommandComplete? {
          if m.value.completion.None? {
            return Err(MalformedBody);
          }
          last := m.value.completion.value;
        } else if m.value.Ready? {
          ApplyReport(m.value.report);
          return Ok(last);
        }
      }
    }

    method DrainImmediateReopenBoundary() returns (failed: Option<Failure>)
      requires Valid()
      modifies this
      ensures Valid()
      ensures (Current(), failed) == DrainReopen(old(Current()))
    {
      if !raw {
        return None;
      }
      ghost var goal := DrainReopen(Current());
      while true
        invariant Valid() && raw
        invariant DrainReopen(Current()) == goal
        decreases |pending| + |wire|
      {
        ghost var before := Current();
        var m, handled := ReceiveHandled();
        if m.Err? {
          return if m.error == Timeout then None else Some(m.error);
        }
        if handled {
          continue;
        }
        if m.value.ErrorResponse? {
          return Some(ServerError);
        } else if m.value.Ready? {
          if m.value.report.None? {
            return Some(MalformedBody);
          }
          ApplyRuntimeReadyState(m.value.report.value.0, m.value.report.value.1);
        } else {
          PushBack(m.value);
          assert Current() == before;
          return None;
        }
      }
    }

    /** Send a request and wait for READY, as every call below does. */
    method Call(r: Request) returns (failed: Option<Failure>)
      requires Valid()
      modifies this
      ensures Valid()
      ensures (Current(), failed) == Exchange(old(Current()), r)
    {
      failed := SendMessage(r);
      if failed.None? {
        var drained := DrainUntilReady();
        failed := if drained.Err? then Some(drained.error) else None;
      }
    }

    method BeginTx(o: BeginOptions) returns (failed: Option<Failure>)
      requires Valid()
      modifies this
      ensures Valid()
      ensures (Current(), failed) == Begin(old(Current()), o)
    {
      if closed {
        return Some(ConnectionClosed);
      }
      if !raw {
        return Some(NotOpen);
      }
      if runtimeTxnActive && txnID == 0 {
        if explicitTransaction {
          return Some(AlreadyActive);
        }
        if !CanAdoptFreshBoundary(o) {
          return Some(NotSupported);
        }
        explicitTransaction := true;
        return None;
      }
      if runtimeTxnActive || txnID != 0 {
        return Some(AlreadyActive);
      }
      if !SupportedOptions(o) {
        return Some(NotSupported);
      }
      failed := Call(BeginRequest(o));
      if failed.None? {
        explicitTransaction := true;
      }
    }

    /** Tx.Commit with `TxnCommit`, Tx.Rollback with `TxnRollback`. */
    method EndTx(r: Request) returns (failed: Option<Failure>)
      requires Valid()
      modifies this
      ensures Valid()
      ensures (Current(), failed) == End(old(Current()), r)
    {
      failed := Call(r);
      if failed.None? {
        explicitTransaction := false;
        failed := DrainImmediateReopenBoundary();
      }
    }

    method ClearBorrowReuseState()
      modifies this`txnID, this`runtimeTxnActive, this`explicitTransaction
      ensures Current() == ClearReuse(old(Current()))
    {
      explicitTransaction := false;
      if closed || !raw {
        ClearTransactionState();
      }
    }

    method ResetSession() returns (failed: Option<Failure>)
      requires Valid()
      modifies this
      ensures Valid()
      ensures (Current(), failed) == Reset(old(Current()))
    {
      if closed || !raw {
        ClearBorrowReuseState();
        return Some(BadConn);
      }
      if explicitTransaction || txnID != 0 {
        failed := Call(TxnRollback);
        ClearBorrowReuseState();
        return if failed.Some? then Some(BadConn) else None;
      }
      ClearBorrowReuseState();
      return None;
    }

    /** The three savepoint calls; `name` is the trimmed savepoint name. */
    method SavepointRequest(name: string, r: Request) returns (failed: Option<Failure>)
      requires Valid()
      modifies this
      ensures Valid()
      ensures (Current(), failed) == SavepointCall(old(Current()), name, r)
    {
      if closed {
        return Some(ConnectionClosed);
      }
      if !raw {
        return Some(NotOpen);
      }
      if name == "" {
        return Some(BadSavepointName);
      }
      if !runtimeTxnActive && txnID == 0 {
        return Some(NoTransaction);
      }
      failed := Call(r);
    }
  }
}
