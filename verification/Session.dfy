/** The state of one Go driver connection as a value, and every modelled operation on
    it as a function. The class `Connection.Conn` is proved against these functions;
    the theorems about message streams and transaction runs are proved about them. */
module Session {
  import opened Wrappers
  import opened Messages

  /** How the socket answers a read once every sent message has been read. */
  datatype ReadEnd = PeerClosed | ReadTimeout | ReadBroken

  datatype Failure =
    | NotOpen | ConnectionClosed | EndOfStream | Timeout | IoFailure | BadConn
    | ServerError | MalformedBody | UndecodableValue
    | AlreadyActive | NotSupported | NoTransaction | BadSavepointName

  datatype Txn = Txn(id: nat, active: bool, explicit: bool)

  /** `incoming` is every message not yet taken, `faults[i]` says whether the i-th coming
      write fails (writes beyond it succeed), `raw` whether a socket exists. */
  datatype State = State(
    incoming: seq<Message>, end: ReadEnd, faults: seq<bool>, sent: seq<Request>,
    raw: bool, closed: bool, txn: Txn)

  // ----- transaction state updates

  const NO_TXN := Txn(0, false, false)

  function AdoptId(t: Txn, id: nat): Txn {
    Txn(id, t.active || id != 0, t.explicit)
  }

  function AdoptReady(t: Txn, report: Option<(byte, nat)>): Txn {
    match report
    case None => t
    case Some((status, id)) => if status != 0 then Txn(id, true, t.explicit) else NO_TXN
  }

  function AdoptAsync(t: Txn, m: Message): Txn
    requires IsAsync(m)
  {
    match m
    case ParameterStatus(Some(id)) => AdoptId(t, id)
    case TxnStatus(Some((status, id))) =>
      if status == STATUS_IN_TRANSACTION then AdoptId(t, id) else NO_TXN
    case _ => t
  }

  predicate HasActive(t: Txn) {
    t.active || t.id != 0
  }

  // ----- reading and writing

  function Pop(s: State): State
    requires s.incoming != []
  {
    s.(incoming := s.incoming[1..])
  }

  function AbsorbAsync(s: State): State
    requires s.incoming != [] && IsAsync(s.incoming[0])
  {
    Pop(s).(txn := AdoptAsync(s.txn, s.incoming[0]))
  }

  function AbsorbReady(s: State): State
    requires s.incoming != [] && s.incoming[0].Ready?
  {
    Pop(s).(txn := AdoptReady(s.txn, s.incoming[0].report))
  }

  /** What a read reports when no message is left. */
  function ReadFailure(s: State): Failure {
    if !s.raw then NotOpen
    else match s.end
         case PeerClosed => EndOfStream
         case ReadTimeout => Timeout
         case ReadBroken => IoFailure
  }

  function Send(s: State, r: Request): (State, Option<Failure>) {
    if !s.raw then (s, Some(NotOpen))
    else
      var fails := s.faults != [] && s.faults[0];
      var rest := if s.faults == [] then [] else s.faults[1..];
      if fails then (s.(faults := rest), Some(IoFailure))
      else (s.(faults := rest, sent := s.sent + [r]), None)
  }

  /** drainUntilReady: skip to READY, keeping the last completion seen. */
  function Drain(s: State, last: Completion): (State, Result<Completion, Failure>)
    decreases |s.incoming|
  {
    if s.incoming == [] then (s, Err(ReadFailure(s)))
    else
      var m := s.incoming[0];
      if IsAsync(m) then Drain(AbsorbAsync(s), last)
      else if m.ErrorResponse? then (Pop(s), Err(ServerError))
      else if m.CommandComplete? then
        if m.completion.None? then (Pop(s), Err(MalformedBody)) else Drain(Pop(s), m.completion.value)
      else if m.Ready? then (AbsorbReady(s), Ok(last))
      else Drain(Pop(s), last)
  }

  const NO_COMPLETION := Completion("", 0, 0)

  /** drainImmediateReopenBoundary: apply what has already arrived, and leave the first
      message of any other kind in place. */
  function DrainReopen(s: State): (State, Option<Failure>)
    decreases |s.incoming|
  {
    if !s.raw then (s, None)
    else if s.incoming == [] then (s, if s.end == ReadTimeout then None else Some(ReadFailure(s)))
    else
      var m := s.incoming[0];
      if IsAsync(m) then DrainReopen(AbsorbAsync(s))
      else if m.ErrorResponse? then (Pop(s), Some(ServerError))
      else if m.Ready? then
        if m.report.None? then (Pop(s), Some(MalformedBody)) else DrainReopen(AbsorbReady(s))
      else (s, None)
  }

  /** Send a request and wait for READY. */
  function Exchange(s: State, r: Request): (State, Option<Failure>) {
    var (s1, failed) := Send(s, r);
    if failed.Some? then (s1, failed)
    else
      var (s2, drained) := Drain(s1, NO_COMPLETION);
      (s2, if drained.Err? then Some(drained.error) else None)
  }

  function EnsureOpen(s: State): Option<Failure> {
    if s.closed then Some(ConnectionClosed)
    else if !s.raw then Some(NotOpen)
    else None
  }

  // ----- what the messages up to the first READY say

  /** What is left after the first READY. */
  function AfterReady(ms: seq<Message>): seq<Message> {
    if ms == [] then [] else if ms[0].Ready? then ms[1..] else AfterReady(ms[1..])
  }

  /** The transaction state after every message through the first READY. */
  function TxnThroughReady(ms: seq<Message>, t: Txn): Txn {
    if ms == [] then t
    else if ms[0].Ready? then AdoptReady(t, ms[0].report)
    else TxnThroughReady(ms[1..], if IsAsync(ms[0]) then AdoptAsync(t, ms[0]) else t)
  }

  predicate HasReady(ms: seq<Message>) {
    ms != [] && (ms[0].Ready? || HasReady(ms[1..]))
  }

  /** What reading reports behind the last message. */
  function EndFailure(s: State): Failure {
    if !s.raw then NotOpen
    else match s.end case PeerClosed => EndOfStream case ReadTimeout => Timeout case ReadBroken => IoFailure
  }

  /** A caller that waits for READY gets to it: no error and no malformed completion before. */
  predicate ReachesReady(ms: seq<Message>) {
    ms != [] &&
    var m := ms[0];
    m.Ready? || (!m.ErrorResponse? && (m.CommandComplete? ==> m.completion.Some?) && ReachesReady(ms[1..]))
  }

  // ----- begin, end and reset

  /** Levels of database/sql: 0 default, 1 READ UNCOMMITTED, 2 READ COMMITTED,
      4 REPEATABLE READ, 6 SERIALIZABLE; the driver refuses the others. */
  datatype BeginOptions = BeginOptions(isolation: nat, readOnly: bool, readCommittedMode: Option<byte>)

  const DEFAULT_BEGIN := BeginOptions(0, false, None)

  predicate CanAdoptFreshBoundary(o: BeginOptions) {
    && (o.isolation == 0 || o.isolation == 2)
    && (o.readCommittedMode.None? || o.readCommittedMode.value == 0)
    && !o.readOnly
  }

  predicate SupportedOptions(o: BeginOptions) {
    && o.isolation in {0, 1, 2, 4, 6}
    && (o.readCommittedMode.Some? ==> o.isolation in {0, 1, 2})
  }

  function BeginRequest(o: BeginOptions): Request {
    var hasIsolation := o.isolation != 0 || o.readCommittedMode.Some?;
    var isolation :=
      if o.isolation == 1 then 0 else if o.isolation == 4 then 2 else if o.isolation == 6 then 3 else 1;
    var flags :=
      (if hasIsolation then 0x0001 else 0)
      + (if o.readOnly then 0x0002 else 0)
      + (if o.readCommittedMode.Some? then 0x0100 else 0);
    TxnBegin(flags, isolation, o.readOnly, if o.readCommittedMode.Some? then o.readCommittedMode.value else 0)
  }

  function Begin(s: State, o: BeginOptions): (State, Option<Failure>) {
    if EnsureOpen(s).Some? then (s, EnsureOpen(s))
    else if s.txn.active && s.txn.id == 0 then
      if s.txn.explicit then (s, Some(AlreadyActive))
      else if !CanAdoptFreshBoundary(o) then (s, Some(NotSupported))
      else (s.(txn := s.txn.(explicit := true)), None)
    else if HasActive(s.txn) then (s, Some(AlreadyActive))
    else if !SupportedOptions(o) then (s, Some(NotSupported))
    else
      var (s1, failed) := Exchange(s, BeginRequest(o));
      if failed.Some? then (s1, failed) else (s1.(txn := s1.txn.(explicit := true)), None)
  }

  /** Tx.Commit and Tx.Rollback. */
  function End(s: State, r: Request): (State, Option<Failure>) {
    var (s1, failed) := Exchange(s, r);
    if failed.Some? then (s1, failed)
    else DrainReopen(s1.(txn := s1.txn.(explicit := false)))
  }

  function ClearReuse(s: State): State {
    s.(txn := if s.closed || !s.raw then NO_TXN else s.txn.(explicit := false))
  }

  function Reset(s: State): (State, Option<Failure>) {
    if s.closed || !s.raw then (ClearReuse(s), Some(BadConn))
    else if s.txn.explicit || s.txn.id != 0 then
      var (s1, failed) := Exchange(s, TxnRollback);
      (ClearReuse(s1), if failed.Some? then Some(BadConn) else None)
    else (ClearReuse(s), None)
  }

  /** Savepoint, ReleaseSavepoint and RollbackToSavepoint; `r` carries the trimmed name. */
  function SavepointCall(s: State, name: string, r: Request): (State, Option<Failure>) {
    if EnsureOpen(s).Some? then (s, EnsureOpen(s))
    else if name == "" then (s, Some(BadSavepointName))
    else if !HasActive(s.txn) then (s, Some(NoTransaction))
    else Exchange(s, r)
  }
}
