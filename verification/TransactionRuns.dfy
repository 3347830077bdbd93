/** Transaction bookkeeping over whole runs of a connection: every interleaving of driver
    calls, messages taken by a result cursor, and messages sent by the server. */
module TransactionRuns {
  import opened Wrappers
  import opened Messages
  import opened Session

  datatype Op =
    | BeginOp(options: BeginOptions)
    | CommitOp
    | RollbackOp
    | ResetOp
    | SavepointOp(name: string, request: Request)
    | CallOp(request: Request)          // any other call that sends and drains to READY
    | PostOp(request: Request)          // a request whose answer a cursor will read
    | TakeOp                            // one message taken by a result cursor
    | DeliverOp(messages: seq<Message>) // the server sends
    | CloseOp

  function Take(s: State): State {
    if s.incoming == [] then s
    else if IsAsync(s.incoming[0]) then AbsorbAsync(s)
    else if s.incoming[0].Ready? then AbsorbReady(s)
    else Pop(s)
  }

  function Step(s: State, op: Op): (State, Option<Failure>) {
    match op
    case BeginOp(o) => Begin(s, o)
    case CommitOp => End(s, TxnCommit)
    case RollbackOp => End(s, TxnRollback)
    case ResetOp => Reset(s)
    case SavepointOp(name, r) => SavepointCall(s, name, r)
    case CallOp(r) => Exchange(s, r)
    case PostOp(r) => Send(s, r)
    case TakeOp => (Take(s), None)
    case DeliverOp(ms) => (if s.raw then s.(incoming := s.incoming + ms) else s, None)
    case CloseOp => (s.(closed := true), None)
  }

  function Run(s: State, ops: seq<Op>): State
    decreases |ops|
  {
    if ops == [] then s else Run(Step(s, ops[0]).0, ops[1..])
  }

  /** The state before the k-th operation of a run. */
  function At(s: State, ops: seq<Op>, k: nat): State
    requires k <= |ops|
  {
    Run(s, ops[..k])
  }

  lemma {:induction false} AtNext(s: State, ops: seq<Op>, k: nat)
    requires k < |ops|
    ensures At(s, ops, k + 1) == Step(At(s, ops, k), ops[k]).0
  {
    RunSnoc(s, ops[..k], ops[k]);
    assert ops[..k + 1] == ops[..k] + [ops[k]];
  }

  lemma {:induction false} RunSnoc(s: State, ops: seq<Op>, op: Op)
    ensures Run(s, ops + [op]) == Step(Run(s, ops), op).0
    decreases |ops|
  {
    if ops == [] {
      assert Run(s, [op]) == Run(Step(s, op).0, []);
    } else {
      assert (ops + [op])[1..] == ops[1..] + [op];
      RunSnoc(Step(s, ops[0]).0, ops[1..], op);
    }
  }

  // ----- what draining keeps

  predicate IdImpliesActive(t: Txn) {
    t.id != 0 ==> t.active
  }

  predicate ExplicitImpliesActive(t: Txn) {
    t.explicit ==> t.active
  }

  /** The server reports that no transaction is active. */
  predicate ReportsEnd(m: Message) {
    || (m.Ready? && m.report.Some? && m.report.value.0 == 0)
    || (m.TxnStatus? && m.report.Some? && m.report.value.0 != STATUS_IN_TRANSACTION)
  }

  /** From `s` to `s'` messages were taken from the front of the stream and none was added. */
  predicate Consumes(s: State, s': State) {
    |s'.incoming| <= |s.incoming| && s.incoming[|s.incoming| - |s'.incoming|..] == s'.incoming
  }

  /** The messages that were taken. */
  function Taken(s: State, s': State): seq<Message>
    requires Consumes(s, s')
  {
    s.incoming[..|s.incoming| - |s'.incoming|]
  }

  predicate ReportEnd(ms: seq<Message>) {
    exists k :: 0 <= k < |ms| && ReportsEnd(ms[k])
  }

  /** Both implications survive, the explicit mark is never set, and it is only lost
      by taking a message that reports an end. */
  predicate Kept(s: State, s': State) {
    && (IdImpliesActive(s.txn) ==> IdImpliesActive(s'.txn))
    && (ExplicitImpliesActive(s.txn) ==> ExplicitImpliesActive(s'.txn))
    && (s'.txn.explicit ==> s.txn.explicit)
    && Consumes(s, s')
    && (s.txn.explicit && !s'.txn.explicit ==> ReportEnd(Taken(s, s')))
  }

  lemma TakenInTwo(s: State, s': State, s'': State)
    requires Consumes(s, s') && Consumes(s', s'')
    ensures Consumes(s, s'') && Taken(s, s'') == Taken(s, s') + Taken(s', s'')
  {
    assert s.incoming == Taken(s, s') + (Taken(s', s'') + s''.incoming);
  }

  lemma ReportEndConcat(a: seq<Message>, b: seq<Message>)
    requires ReportEnd(a) || ReportEnd(b)
    ensures ReportEnd(a + b)
  {
    if ReportEnd(a) {
      var k :| 0 <= k < |a| && ReportsEnd(a[k]);
      assert (a + b)[k] == a[k];
    } else {
      var k :| 0 <= k < |b| && ReportsEnd(b[k]);
      assert (a + b)[|a| + k] == b[k];
    }
  }

  lemma KeptTrans(s: State, s': State, s'': State)
    requires Kept(s, s') && Kept(s', s'')
    ensures Kept(s, s'')
  {
    TakenInTwo(s, s', s'');
    if s.txn.explicit && !s''.txn.explicit {
      ReportEndConcat(Taken(s, s'), Taken(s', s''));
    }
  }

  lemma TakeKeeps(s: State)
    ensures Kept(s, Take(s))
  {
    if s.incoming != [] {
      assert Taken(s, Take(s)) == [s.incoming[0]];
    }
  }

  predicate DrainsOn(m: Message) {
    IsAsync(m) || !(m.ErrorResponse? || m.Ready? || (m.CommandComplete? && m.completion.None?))
  }

  lemma DrainOnce(s: State, last: Completion)
    requires s.incoming != []
    ensures var m := s.incoming[0];
      if DrainsOn(m) then Drain(s, last) == Drain(Take(s), if m.CommandComplete? then m.completion.value else last)
      else Drain(s, last).0 == Take(s)
  {
  }

  lemma {:induction false} DrainKeeps(s: State, last: Completion)
    ensures Kept(s, Drain(s, last).0)
    decreases |s.incoming|
  {
    if s.incoming == [] {
      KeptSame(s, s, s);
    } else {
      hide Drain, Kept;
      var m := s.incoming[0];
      TakeKeeps(s);
      DrainOnce(s, last);
      if DrainsOn(m) {
        var last' := if m.CommandComplete? then m.completion.value else last;
        DrainKeeps(Take(s), last');
        KeptTrans(s, Take(s), Drain(Take(s), last').0);
      }
    }
  }

  lemma {:induction false} DrainReopenKeeps(s: State)
    ensures Kept(s, DrainReopen(s).0)
    decreases |s.incoming|
  {
    if s.raw && s.incoming != [] {
      var m := s.incoming[0];
      TakeKeeps(s);
      if IsAsync(m) || (m.Ready? && m.report.Some?) {
        DrainReopenKeeps(Take(s));
        KeptTrans(s, Take(s), DrainReopen(Take(s)).0);
      }
    }
  }

  lemma ExchangeKeeps(s: State, r: Request)
    ensures Kept(s, Exchange(s, r).0)
  {
    hide Kept, Drain;
    var s1 := Send(s, r).0;
    KeptSame(s, s1, s1);
    DrainKeeps(s1, NO_COMPLETION);
    KeptSame(s, s1, Drain(s1, NO_COMPLETION).0);
  }

  /** Only the stream and the transaction state matter. */
  lemma KeptSame(s: State, s': State, s'': State)
    requires s'.incoming == s.incoming && s'.txn == s.txn
    requires s'' == s' || Kept(s', s'')
    ensures Kept(s, s'')
  {
  }

  // ----- what is sent

  /** The next request is written. */
  predicate Writes(s: State) {
    s.raw && (s.faults != [] ==> !s.faults[0])
  }

  lemma {:induction false} DrainSendsNothing(s: State, last: Completion)
    ensures Drain(s, last).0.sent == s.sent
    decreases |s.incoming|
  {
    if s.incoming != [] {
      var m := s.incoming[0];
      if IsAsync(m) || !(m.ErrorResponse? || m.Ready? || (m.CommandComplete? && m.completion.None?)) {
        DrainSendsNothing(Take(s), if m.CommandComplete? then m.completion.value else last);
      }
    }
  }

  lemma {:induction false} ReopenSendsNothing(s: State)
    ensures DrainReopen(s).0.sent == s.sent
    decreases |s.incoming|
  {
    if s.raw && s.incoming != [] && (IsAsync(s.incoming[0]) || (s.incoming[0].Ready? && s.incoming[0].report.Some?)) {
      ReopenSendsNothing(Take(s));
    }
  }

  lemma ExchangeSends(s: State, r: Request)
    ensures Exchange(s, r).0.sent == s.sent + if Writes(s) then [r] else []
  {
    DrainSendsNothing(Send(s, r).0, NO_COMPLETION);
  }

  /** A reset asks for a rollback exactly if the connection is open, something may be open on it
      and the request can be written, and for nothing else. */
  lemma ResetSendsRollback(s: State)
    ensures Reset(s).0.sent ==
      s.sent + if !s.closed && Writes(s) && (s.txn.explicit || s.txn.id != 0) then [TxnRollback] else []
  {
    ExchangeSends(s, TxnRollback);
  }

  /** A begin sends its request exactly if the connection is open, nothing is active, and the
      level and the mode are supported. */
  lemma BeginSends(s: State, o: BeginOptions)
    ensures Begin(s, o).0.sent ==
      s.sent + if !s.closed && Writes(s) && !s.txn.active && s.txn.id == 0
                  && o.isolation in {0, 1, 2, 4, 6} && (o.readCommittedMode.Some? ==> o.isolation <= 2)
               then [BeginRequest(o)] else []
  {
    ExchangeSends(s, BeginRequest(o));
  }

  lemma EndSends(s: State, r: Request)
    ensures End(s, r).0.sent == s.sent + if Writes(s) then [r] else []
  {
    ExchangeSends(s, r);
    var s1 := Exchange(s, r).0;
    ReopenSendsNothing(s1.(txn := s1.txn.(explicit := false)));
  }

  lemma SavepointSends(s: State, name: string, r: Request)
    ensures SavepointCall(s, name, r).0.sent ==
      s.sent + if !s.closed && Writes(s) && name != "" && (s.txn.active || s.txn.id != 0) then [r] else []
  {
    ExchangeSends(s, r);
  }

  /** What each operation may send. */
  function Wanted(op: Op): Option<Request> {
    match op
    case BeginOp(o) => Some(BeginRequest(o))
    case CommitOp => Some(TxnCommit)
    case RollbackOp => Some(TxnRollback)
    case ResetOp => Some(TxnRollback)
    case SavepointOp(_, r) => Some(r)
    case CallOp(r) => Some(r)
    case PostOp(r) => Some(r)
    case _ => None
  }

  /** No step of a run sends anything but its one request, and a commit or a rollback is sent
      whenever it can be written. */
  lemma StepSends(s: State, op: Op)
    ensures var sent := Step(s, op).0.sent;
      && (sent == s.sent || (Wanted(op).Some? && Writes(s) && sent == s.sent + [Wanted(op).value]))
      && ((op == CommitOp || op == RollbackOp) && Writes(s) ==> sent != s.sent)
  {
    match op
    case BeginOp(o) => BeginSends(s, o);
    case CommitOp => EndSends(s, TxnCommit);
    case RollbackOp => EndSends(s, TxnRollback);
    case ResetOp => ResetSendsRollback(s);
    case SavepointOp(name, r) => SavepointSends(s, name, r);
    case CallOp(r) => ExchangeSends(s, r);
    case _ =>
  }

  /** How a server reads a begin: the flags say which fields count. Levels are those of
      database/sql. */
  function ReadBegin(r: Request): Option<BeginOptions> {
    if !r.TxnBegin? then None
    else
      var isolation :=
        if r.flags % 2 == 0 then 0
        else if r.isolation == 0 then 1
        else if r.isolation == 1 then 2
        else if r.isolation == 2 then 4
        else 6;
      Some(BeginOptions(isolation, r.flags / 2 % 2 == 1 && r.readOnly,
                        if r.flags / 0x100 % 2 == 1 then Some(r.readCommittedMode) else None))
  }

  /** The server reads the options that were asked for; a mode without a level is one of READ
      COMMITTED. */
  lemma BeginIsUnderstood(o: BeginOptions)
    requires SupportedOptions(o)
    ensures ReadBegin(BeginRequest(o))
         == Some(if o.isolation == 0 && o.readCommittedMode.Some? then o.(isolation := 2) else o)
  {
  }

  /** On an open connection with an active transaction without an id, a begin is taken over
      without a message exactly for the defaults, unless one was taken over before. */
  lemma BeginAdopts(s: State, o: BeginOptions)
    requires !s.closed && s.raw && s.txn.active && s.txn.id == 0
    ensures Begin(s, o) ==
      if s.txn.explicit then (s, Some(AlreadyActive))
      else if o.isolation in {0, 2} && !o.readOnly && o.readCommittedMode in {None, Some(0)} then
        (s.(txn := Txn(0, true, true)), None)
      else (s, Some(NotSupported))
  {
  }

  // ----- what the messages up to READY leave behind

  /** The messages through the first READY. */
  function ThroughReady(ms: seq<Message>): seq<Message> {
    if ms == [] then [] else if ms[0].Ready? then [ms[0]] else [ms[0]] + ThroughReady(ms[1..])
  }

  /** The transaction id that a message reports; an end is reported as 0. */
  function ReportedId(m: Message): Option<nat> {
    match m
    case ParameterStatus(id) => id
    case TxnStatus(Some((status, id))) => Some(if status == 'T' as int then id else 0)
    case Ready(Some((status, id))) => Some(if status != 0 then id else 0)
    case _ => None
  }

  predicate ReportsActivity(m: Message) {
    !ReportsEnd(m) && ((m.Ready? && m.report.Some?) || (ReportedId(m).Some? && ReportedId(m).value != 0))
  }

  /** The last message that says anything about it decides. */
  function LastId(ms: seq<Message>, before: nat): nat {
    if ms == [] then before
    else
      var n := |ms| - 1;
      if ReportedId(ms[n]).Some? then ReportedId(ms[n]).value else LastId(ms[..n], before)
  }

  predicate LastActivity(ms: seq<Message>, before: bool) {
    if ms == [] then before
    else
      var n := |ms| - 1;
      !ReportsEnd(ms[n]) && (ReportsActivity(ms[n]) || LastActivity(ms[..n], before))
  }

  lemma {:induction false} LastFromFront(m: Message, ms: seq<Message>, id: nat, active: bool)
    ensures LastId([m] + ms, id) == LastId(ms, LastId([m], id))
    ensures LastActivity([m] + ms, active) == LastActivity(ms, LastActivity([m], active))
    decreases |ms|
  {
    var all := [m] + ms;
    if ms == [] {
      assert all == [m];
    } else {
      var n := |ms| - 1;
      assert all[..n + 1] == [m] + ms[..n] && all[n + 1] == ms[n];
      LastFromFront(m, ms[..n], id, active);
    }
  }

  lemma ReportEndFromFront(m: Message, ms: seq<Message>)
    ensures ReportEnd([m] + ms) <==> ReportsEnd(m) || ReportEnd(ms)
  {
    if ReportsEnd(m) {
      assert ReportsEnd(([m] + ms)[0]);
    }
    if ReportEnd(ms) {
      ReportEndConcat([m], ms);
    }
  }

  /** The transaction state behind READY is what the last reports say: the id of the last message
      that reports one, activity as last reported, and the explicit mark unless an end was
      reported. */
  lemma {:induction false} TxnIsAsLastReported(ms: seq<Message>, t: Txn)
    ensures var read := ThroughReady(ms);
      TxnThroughReady(ms, t) == Txn(LastId(read, t.id), LastActivity(read, t.active), t.explicit && !ReportEnd(read))
  {
    if ms != [] {
      var m, later := ms[0], if ms[0].Ready? then [] else ThroughReady(ms[1..]);
      assert ThroughReady(ms) == [m] + later;
      LastFromFront(m, later, t.id, t.active);
      ReportEndFromFront(m, later);
      OneReport(m, t);
      if !m.Ready? {
        TxnIsAsLastReported(ms[1..], if IsAsync(m) then AdoptAsync(t, m) else t);
      }
    }
  }

  lemma OneReport(m: Message, t: Txn)
    ensures (if m.Ready? then AdoptReady(t, m.report) else if IsAsync(m) then AdoptAsync(t, m) else t)
         == Txn(LastId([m], t.id), LastActivity([m], t.active), t.explicit && !ReportsEnd(m))
  {
    assert [m][..0] == [];
  }

  function BeforeReady(ms: seq<Message>): seq<Message> {
    if ms == [] || ms[0].Ready? then [] else [ms[0]] + BeforeReady(ms[1..])
  }

  function LastCompletion(ms: seq<Message>, before: Completion): Completion {
    if ms == [] then before
    else
      var n := |ms| - 1;
      if ms[n].CommandComplete? && ms[n].completion.Some? then ms[n].completion.value
      else LastCompletion(ms[..n], before)
  }

  lemma {:induction false} LastCompletionFromFront(m: Message, ms: seq<Message>, before: Completion)
    ensures LastCompletion([m] + ms, before) == LastCompletion(ms, LastCompletion([m], before))
    decreases |ms|
  {
    var all := [m] + ms;
    if ms == [] {
      assert all == [m];
    } else {
      var n := |ms| - 1;
      assert all[..n + 1] == [m] + ms[..n] && all[n + 1] == ms[n];
      LastCompletionFromFront(m, ms[..n], before);
    }
  }

  /** Waiting for READY returns the last completion before it. */
  lemma {:induction false} DrainReturnsLast(s: State, last: Completion)
    requires Drain(s, last).1.Ok?
    ensures Drain(s, last).1.value == LastCompletion(BeforeReady(s.incoming), last)
    decreases |s.incoming|
  {
    var m := s.incoming[0];
    if !m.Ready? {
      var next := if m.CommandComplete? then m.completion.value else last;
      LastCompletionFromFront(m, BeforeReady(s.incoming[1..]), last);
      assert [m][..0] == [] && LastCompletion([m], last) == next;
      DrainReturnsLast(Take(s), next);
    }
  }

  /** What keeps a caller from READY: an error, or a completion that does not parse. */
  function InTheWay(ms: seq<Message>): Option<Failure> {
    if ms == [] || ms[0].Ready? then None
    else if ms[0].ErrorResponse? then Some(ServerError)
    else if ms[0].CommandComplete? && ms[0].completion.None? then Some(MalformedBody)
    else InTheWay(ms[1..])
  }

  lemma {:induction false} DrainFailsBecause(s: State, last: Completion)
    ensures var r := Drain(s, last).1;
      if InTheWay(s.incoming).Some? then r == Err(InTheWay(s.incoming).value)
      else if !HasReady(s.incoming) then r == Err(EndFailure(s))
      else r.Ok?
    decreases |s.incoming|
  {
    if s.incoming != [] {
      var m := s.incoming[0];
      if IsAsync(m) || !(m.ErrorResponse? || m.Ready? || (m.CommandComplete? && m.completion.None?)) {
        DrainFailsBecause(Take(s), if m.CommandComplete? then m.completion.value else last);
      }
    }
  }

  /** The outcome of a request, and why it failed. */
  lemma ExchangeOutcome(s: State, r: Request)
    ensures Exchange(s, r).1 ==
      if !s.raw then Some(NotOpen)
      else if !Writes(s) then Some(IoFailure)
      else if InTheWay(s.incoming).Some? then InTheWay(s.incoming)
      else if !HasReady(s.incoming) then Some(EndFailure(s))
      else None
  {
    DrainFailsBecause(Send(s, r).0, NO_COMPLETION);
  }

  /** Draining a reopened boundary without an error takes asynchronous messages and READY only, and
      leaves the first message of any other kind in place. */
  lemma {:induction false} ReopenLeavesTheRest(s: State)
    requires s.raw && DrainReopen(s).1.None?
    ensures var s1 := DrainReopen(s).0;
      && Consumes(s, s1) && (forall k :: 0 <= k < |Taken(s, s1)| ==> IsAsync(Taken(s, s1)[k]) || Taken(s, s1)[k].Ready?)
      && (s1.incoming != [] ==> !IsAsync(s1.incoming[0]) && !s1.incoming[0].Ready? && !s1.incoming[0].ErrorResponse?)
    decreases |s.incoming|
  {
    if s.incoming != [] && (IsAsync(s.incoming[0]) || s.incoming[0].Ready?) {
      var next, s1 := Take(s), DrainReopen(s).0;
      ReopenLeavesTheRest(next);
      TakenInTwo(s, next, s1);
      assert Taken(s, next) == [s.incoming[0]];
    }
  }

  // ----- begin against the answer of the server

  /** The begin is sent: nothing is active, and its options are supported. */
  predicate SendsBegin(s: State, o: BeginOptions) {
    EnsureOpen(s).None? && !HasActive(s.txn) && SupportedOptions(o)
  }

  predicate SentBegin(s: State, o: BeginOptions) {
    Begin(s, o).1.None? && !(s.txn.active && s.txn.id == 0)
  }

  /** Draining succeeds exactly when READY is reached, and applies every message up to it. */
  lemma {:induction false} DrainFollowsMessages(s: State, last: Completion)
    ensures Drain(s, last).1.Ok? <==> ReachesReady(s.incoming)
    ensures ReachesReady(s.incoming) ==>
      Drain(s, last).0 == s.(incoming := AfterReady(s.incoming), txn := TxnThroughReady(s.incoming, s.txn))
    decreases |s.incoming|
  {
    if s.incoming != [] {
      var m := s.incoming[0];
      if IsAsync(m) || !(m.ErrorResponse? || m.Ready? || (m.CommandComplete? && m.completion.None?)) {
        DrainFollowsMessages(Take(s), if m.CommandComplete? then m.completion.value else last);
      }
    }
  }

  lemma SentBeginOutcome(s: State, o: BeginOptions)
    ensures SentBegin(s, o) <==> SendsBegin(s, o) && Send(s, BeginRequest(o)).1.None? && ReachesReady(s.incoming)
    ensures SentBegin(s, o) ==>
      var s1 := Begin(s, o).0;
      && s1.txn == TxnThroughReady(s.incoming, s.txn).(explicit := true)
      && s1.incoming == AfterReady(s.incoming) && s1.raw == s.raw && s1.closed == s.closed
  {
    if SendsBegin(s, o) {
      DrainFollowsMessages(Send(s, BeginRequest(o)).0, NO_COMPLETION);
    }
  }

  /** After a begin that went to the server, the driver's view of the transaction is what the
      messages through READY say, whether or not their bodies parse; it is consistent exactly if
      they say that a transaction is active, and a second begin is refused as already active
      exactly if they say that or name an id. */
  lemma BeginFollowsReady(s: State, o: BeginOptions, second: BeginOptions)
    requires SentBegin(s, o)
    ensures var s1 := Begin(s, o).0; var t := TxnThroughReady(s.incoming, s.txn);
      && s1.txn == t.(explicit := true)
      && (ExplicitImpliesActive(s1.txn) <==> t.active)
      && (Begin(s1, second).1 == Some(AlreadyActive) <==> t.active || t.id != 0)
  {
    SentBeginOutcome(s, o);
    var s1 := Begin(s, o).0;
    if !HasActive(s1.txn) && SupportedOptions(second) {
      DrainNeverRefuses(Send(s1, BeginRequest(second)).0, NO_COMPLETION);
    }
  }

  lemma {:induction false} DrainNeverRefuses(s: State, last: Completion)
    ensures Drain(s, last).1 != Err(AlreadyActive)
    decreases |s.incoming|
  {
    if s.incoming != [] {
      var m := s.incoming[0];
      if IsAsync(m) || !(m.ErrorResponse? || m.Ready? || (m.CommandComplete? && m.completion.None?)) {
        DrainNeverRefuses(Take(s), if m.CommandComplete? then m.completion.value else last);
      }
    }
  }

  /** Two begins in a row do succeed, each with an answer of its own, exactly when the first
      answer leaves the driver without an active transaction and without an id. */
  lemma TwoBeginsSucceedExactlyWhen(s: State, o: BeginOptions, second: BeginOptions)
    requires SentBegin(s, o)
    ensures var t := TxnThroughReady(s.incoming, s.txn); var s1 := Begin(s, o).0;
      Begin(s1, second).1.None? <==>
        && !t.active && t.id == 0 && SupportedOptions(second)
        && Send(s1, BeginRequest(second)).1.None? && ReachesReady(AfterReady(s.incoming))
  {
    BeginFollowsReady(s, o, second);
    SentBeginOutcome(s, o);
    SentBeginOutcome(Begin(s, o).0, second);
  }

  /** So they do against a READY that reports no transaction, and against one whose body does
      not parse. */
  lemma TwoBeginsCanSucceed(report: Option<(byte, nat)>)
    requires report.Some? ==> report.value == (0, 0)
    ensures var s := State([Ready(report), Ready(report)], PeerClosed, [], [], true, false, NO_TXN);
      && Begin(s, DEFAULT_BEGIN).1.None?
      && Begin(Begin(s, DEFAULT_BEGIN).0, DEFAULT_BEGIN).1.None?
  {
    var s := State([Ready(report), Ready(report)], PeerClosed, [], [], true, false, NO_TXN);
    assert s.incoming[1..] == [Ready(report)];
    SentBeginOutcome(s, DEFAULT_BEGIN);
    TwoBeginsSucceedExactlyWhen(s, DEFAULT_BEGIN, DEFAULT_BEGIN);
  }

  // ----- runs

  /** `txnID != 0` implies `runtimeTxnActive` over every run, whatever the server sends. */
  lemma {:induction false} IdAlwaysImpliesActive(s: State, ops: seq<Op>)
    requires IdImpliesActive(s.txn)
    ensures IdImpliesActive(Run(s, ops).txn)
    decreases |ops|
  {
    if ops != [] {
      StepKeepsId(s, ops[0]);
      IdAlwaysImpliesActive(Step(s, ops[0]).0, ops[1..]);
    }
  }

  lemma StepKeepsId(s: State, op: Op)
    requires IdImpliesActive(s.txn)
    ensures IdImpliesActive(Step(s, op).0.txn)
  {
    match op
    case BeginOp(o) => ExchangeKeeps(s, BeginRequest(o));
    case CommitOp => EndKeeps(s, TxnCommit);
    case RollbackOp => EndKeeps(s, TxnRollback);
    case ResetOp => ExchangeKeeps(s, TxnRollback);
    case SavepointOp(_, r) => ExchangeKeeps(s, r);
    case CallOp(r) => ExchangeKeeps(s, r);
    case TakeOp => TakeKeeps(s);
    case PostOp(_) =>
    case DeliverOp(_) =>
    case CloseOp =>
  }

  lemma EndKeeps(s: State, r: Request)
    ensures IdImpliesActive(s.txn) ==> IdImpliesActive(End(s, r).0.txn)
    ensures ExplicitImpliesActive(s.txn) ==> ExplicitImpliesActive(End(s, r).0.txn)
  {
    ExchangeKeeps(s, r);
    var s1 := Exchange(s, r).0;
    DrainReopenKeeps(s1.(txn := s1.txn.(explicit := false)));
  }

  /** An answer that accepts a begin reports an active transaction by the time of its READY. */
  predicate HonestAnswer(ms: seq<Message>) {
    ReachesReady(ms) ==> TxnThroughReady(ms, NO_TXN).active
  }

  /** Whenever a begin is sent, the server's answer is honest. */
  predicate HonestStep(s: State, op: Op) {
    op.BeginOp? && SendsBegin(s, op.options) ==> HonestAnswer(s.incoming)
  }

  lemma {:induction false} ActivityIgnoresTheMark(ms: seq<Message>, t: Txn, u: Txn)
    requires t.id == u.id && t.active == u.active
    ensures TxnThroughReady(ms, t).active == TxnThroughReady(ms, u).active
    ensures TxnThroughReady(ms, t).id == TxnThroughReady(ms, u).id
  {
    if ms != [] && !ms[0].Ready? {
      ActivityIgnoresTheMark(ms[1..], if IsAsync(ms[0]) then AdoptAsync(t, ms[0]) else t,
                             if IsAsync(ms[0]) then AdoptAsync(u, ms[0]) else u);
    }
  }

  /** A begin breaks the implication exactly when it is sent, accepted and answered dishonestly. */
  lemma BeginKeepsExplicit(s: State, o: BeginOptions)
    requires ExplicitImpliesActive(s.txn)
    ensures ExplicitImpliesActive(Begin(s, o).0.txn) <==> !SentBegin(s, o) || HonestAnswer(s.incoming)
  {
    SentBeginOutcome(s, o);
    if SentBegin(s, o) {
      ActivityIgnoresTheMark(s.incoming, s.txn, NO_TXN);
    } else {
      ExchangeKeeps(s, BeginRequest(o));
    }
  }

  predicate HonestRun(s: State, ops: seq<Op>) {
    forall k :: 0 <= k < |ops| ==> HonestStep(At(s, ops, k), ops[k])
  }

  lemma StepKeepsExplicit(s: State, op: Op)
    requires ExplicitImpliesActive(s.txn) && HonestStep(s, op)
    ensures ExplicitImpliesActive(Step(s, op).0.txn)
  {
    match op
    case BeginOp(o) =>
      BeginKeepsExplicit(s, o);
      SentBeginOutcome(s, o);
    case CommitOp => EndKeeps(s, TxnCommit);
    case RollbackOp => EndKeeps(s, TxnRollback);
    case ResetOp => ExchangeKeeps(s, TxnRollback);
    case SavepointOp(_, r) => ExchangeKeeps(s, r);
    case CallOp(r) => ExchangeKeeps(s, r);
    case TakeOp => TakeKeeps(s);
    case PostOp(_) =>
    case DeliverOp(_) =>
    case CloseOp =>
  }

  lemma {:induction false} ExplicitAlwaysImpliesActive(s: State, ops: seq<Op>, k: nat)
    requires ExplicitImpliesActive(s.txn) && HonestRun(s, ops) && k <= |ops|
    ensures ExplicitImpliesActive(At(s, ops, k).txn)
    decreases k
  {
    if k != 0 {
      ExplicitAlwaysImpliesActive(s, ops, k - 1);
      AtNext(s, ops, k - 1);
      StepKeepsExplicit(At(s, ops, k - 1), ops[k - 1]);
    }
  }

  predicate IsEnd(op: Op) {
    op.CommitOp? || op.RollbackOp? || op.ResetOp?
  }

  /** From `s` to `s'` a message was read that reports an end. */
  predicate WasToldOfEnd(s: State, s': State) {
    Consumes(s, s') && ReportEnd(Taken(s, s'))
  }

  /** A step that drops the explicit mark is an end or reset call, or read that it ended. */
  lemma OnlyEndsDropExplicit(s: State, op: Op)
    requires s.txn.explicit && !Step(s, op).0.txn.explicit
    ensures IsEnd(op) || WasToldOfEnd(s, Step(s, op).0)
  {
    match op
    case BeginOp(o) => ExchangeKeeps(s, BeginRequest(o));
    case SavepointOp(_, r) => ExchangeKeeps(s, r);
    case CallOp(r) => ExchangeKeeps(s, r);
    case TakeOp => TakeKeeps(s);
    case _ =>
  }

  lemma {:induction false} FindDrop(s: State, ops: seq<Op>, i: nat, j: nat) returns (k: nat)
    requires i <= j <= |ops|
    requires At(s, ops, i).txn.explicit && !At(s, ops, j).txn.explicit
    ensures i <= k < j && At(s, ops, k).txn.explicit && !At(s, ops, k + 1).txn.explicit
    decreases j
  {
    if At(s, ops, j - 1).txn.explicit {
      k := j - 1;
    } else {
      k := FindDrop(s, ops, i, j - 1);
    }
  }

  /** Between two successful begins of an honest run some step ended the transaction: a
      commit, a rollback, a reset, or the reading of a message that reports the end. */
  lemma NoSecondBeginWithoutEnd(s: State, ops: seq<Op>, i: nat, j: nat) returns (k: nat)
    requires ExplicitImpliesActive(s.txn) && HonestRun(s, ops)
    requires i < j < |ops| && ops[i].BeginOp? && ops[j].BeginOp?
    requires Step(At(s, ops, i), ops[i]).1.None? && Step(At(s, ops, j), ops[j]).1.None?
    ensures i < k < j
    ensures At(s, ops, k).txn.explicit && !At(s, ops, k + 1).txn.explicit
    ensures IsEnd(ops[k]) || WasToldOfEnd(At(s, ops, k), At(s, ops, k + 1))
  {
    ExplicitAlwaysImpliesActive(s, ops, j);
    AtNext(s, ops, i);
    k := FindDrop(s, ops, i + 1, j);
    AtNext(s, ops, k);
    OnlyEndsDropExplicit(At(s, ops, k), ops[k]);
  }

  /** The reset asks the server to roll back. */
  predicate ResetSends(s: State) {
    !s.closed && s.raw && (s.txn.explicit || s.txn.id != 0)
  }

  /** When a reset succeeds, that it then leaves what the messages through READY say, that the
      explicit mark is gone in any case, and that a connection that is not open forgets everything. */
  lemma ResetOutcome(s: State)
    ensures Reset(s).1.None? <==>
      && !s.closed && s.raw
      && (ResetSends(s) ==> Send(s, TxnRollback).1.None? && ReachesReady(s.incoming))
    ensures Reset(s).1.None? ==>
      var t := if ResetSends(s) then TxnThroughReady(s.incoming, s.txn) else s.txn;
      var s1 := Reset(s).0;
      s1.txn == t.(explicit := false) && s1.raw == s.raw && s1.closed == s.closed
    ensures !Reset(s).0.txn.explicit && (Reset(s).1.Some? ==> Reset(s).1.value == BadConn)
    ensures s.closed || !s.raw ==> Reset(s).0 == s.(txn := NO_TXN)
  {
    if ResetSends(s) {
      DrainFollowsMessages(Send(s, TxnRollback).0, NO_COMPLETION);
    }
  }

  /** After a successful reset a default begin is refused as already active exactly when the
      reset had something to roll back and the messages that answer it, through READY, leave a
      transaction id. */
  lemma ResetThenBegin(s: State)
    requires Reset(s).1.None?
    ensures var s1 := Reset(s).0;
      && !s1.txn.explicit
      && (Begin(s1, DEFAULT_BEGIN).1 == Some(AlreadyActive) <==>
            ResetSends(s) && TxnThroughReady(s.incoming, s.txn).id != 0)
  {
    ResetOutcome(s);
    var s1 := Reset(s).0;
    DrainNeverRefuses(Send(s1, BeginRequest(DEFAULT_BEGIN)).0, NO_COMPLETION);
  }
}
