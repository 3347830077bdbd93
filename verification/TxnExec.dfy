/** The transactional test runner of txn_exec_parity.cpp, driving a client that answers as it
    likes. */
module TxnExec {
  import opened Wrappers
  import opened StatementSplitter

  // ----- the client

  datatype Call = Begin | Commit | Rollback | Execute(sql: string)

  datatype Reply = Reply(ok: bool, affected: int, returned: int)

  /** A client's answer to a call may depend on all calls so far; the last is the one at hand. */
  type Behaviour = seq<Call> -> Reply

  class Client {
    const behaviour: Behaviour
    var log: seq<Call>

    constructor (b: Behaviour)
      ensures behaviour == b && log == []
    {
      behaviour := b;
      log := [];
    }

    method Answer(call: Call) returns (r: Reply)
      modifies this`log
      ensures log == old(log) + [call] && r == behaviour(log)
    {
      log := log + [call];
      r := behaviour(log);
    }
  }

  // ----- the test case

  /** A field that must be an integer or a boolean if it is there. */
  datatype Field = Absent | Integer(number: int) | Flag(flag: bool) | OtherField

  /** `None` is a txn_end that was not given. */
  datatype Case = Case(
    sql: string, txnEnd: Option<string>, savepointName: string, expectRowsAffected: Field,
    verifyExpectRows: Field, expectRows: Field, rollbackToSavepoint: Field, releaseSavepoint: Field,
    verifySql: string, cleanupSql: string)

  datatype Plan = Plan(
    sql: string, rollback: bool, savepoint: string, expectAffected: Option<int>, expectRows: Option<int>,
    toSavepoint: bool, release: bool, verify: string, cleanup: string)

  datatype Failure =
    | NoSql | BadTxnEnd | NotAnInteger | NotABoolean | BadSavepointName | NeedsSavepoint
    | BeginFailed | StatementFailed | AffectedMismatch(expected: int, got: int) | EndFailed
    | VerifyFailed | VerifyMismatch(expected: int, got: int) | CleanupFailed

  datatype Observation = Observation(affected: int, returned: int)

  function Lower(s: string): string {
    seq(|s|, i requires 0 <= i < |s| => if 'A' <= s[i] <= 'Z' then (s[i] as int + 32) as char else s[i])
  }

  predicate IsSimpleIdentifier(s: string) {
    s != "" && forall k :: 0 <= k < |s| ==> IsTagChar(s[k])
  }

  function OptionalInt(f: Field): Result<Option<int>, Failure> {
    if f.Absent? then Ok(None) else if f.Integer? then Ok(Some(f.number)) else Err(NotAnInteger)
  }

  function OptionalBool(f: Field): Result<bool, Failure> {
    if f.Absent? then Ok(false) else if f.Flag? then Ok(f.flag) else Err(NotABoolean)
  }

  /** The checks before the first call. */
  function PlanOf(c: Case): Result<Plan, Failure> {
    var sql, end, name := Trim(c.sql), Lower(Trim(if c.txnEnd.None? then "commit" else c.txnEnd.value)),
          Trim(c.savepointName);
    var affected := OptionalInt(c.expectRowsAffected);
    var verifyRows := OptionalInt(c.verifyExpectRows);
    var rows := if verifyRows == Ok(None) then OptionalInt(c.expectRows) else verifyRows;
    var toSavepoint, release := OptionalBool(c.rollbackToSavepoint), OptionalBool(c.releaseSavepoint);
    if sql == "" then Err(NoSql)
    else if end != "commit" && end != "rollback" then Err(BadTxnEnd)
    else if affected.Err? || rows.Err? then Err(NotAnInteger)
    else if toSavepoint.Err? || release.Err? then Err(NotABoolean)
    else if name != "" && !IsSimpleIdentifier(name) then Err(BadSavepointName)
    else if (toSavepoint.value || release.value) && name == "" then Err(NeedsSavepoint)
    else Ok(Plan(sql, end == "rollback", name, affected.value, rows.value, toSavepoint.value, release.value,
                 Trim(c.verifySql), Trim(c.cleanupSql)))
  }

  method CheckCase(c: Case) returns (r: Result<Plan, Failure>)
    ensures r == PlanOf(c)
  {
    var sql := TrimCopy(c.sql);
    if sql == "" {
      return Err(NoSql);
    }
    var txnEnd := TrimCopy(if c.txnEnd.None? then "commit" else c.txnEnd.value);
    txnEnd := Lower(txnEnd);
    if txnEnd != "commit" && txnEnd != "rollback" {
      return Err(BadTxnEnd);
    }
    var savepointName := TrimCopy(c.savepointName);
    var affected := OptionalInt(c.expectRowsAffected);
    if affected.Err? {
      return Err(NotAnInteger);
    }
    var rows := OptionalInt(c.verifyExpectRows);
    if rows.Err? {
      return Err(NotAnInteger);
    }
    if rows.value.None? {
      rows := OptionalInt(c.expectRows);
      if rows.Err? {
        return Err(NotAnInteger);
      }
    }
    var toSavepoint := OptionalBool(c.rollbackToSavepoint);
    if toSavepoint.Err? {
      return Err(NotABoolean);
    }
    var release := OptionalBool(c.releaseSavepoint);
    if release.Err? {
      return Err(NotABoolean);
    }
    var hasSavepoint := savepointName != "";
    if hasSavepoint && !IsSimpleIdentifier(savepointName) {
      return Err(BadSavepointName);
    }
    if toSavepoint.value && !hasSavepoint {
      return Err(NeedsSavepoint);
    }
    if release.value && !hasSavepoint {
      return Err(NeedsSavepoint);
    }
    var verifySql := TrimCopy(c.verifySql);
    var cleanupSql := TrimCopy(c.cleanupSql);
    return Ok(Plan(sql, txnEnd == "rollback", savepointName, affected.value, rows.value, toSavepoint.value, release.value,
                   verifySql, cleanupSql));
  }

  // ----- the run, as the calls it makes

  const SAVEPOINT := "SAVEPOINT "
  const ROLLBACK_TO := "ROLLBACK TO SAVEPOINT "
  const RELEASE := "RELEASE SAVEPOINT "

  /** The statements up to the one under test, and those behind it. */
  function Opening(p: Plan): seq<string> {
    (if p.savepoint != "" then [SAVEPOINT + p.savepoint] else []) + [p.sql]
  }

  function Closing(p: Plan): seq<string> {
    (if p.savepoint != "" && p.toSavepoint then [ROLLBACK_TO + p.savepoint] else [])
    + (if p.savepoint != "" && p.release then [RELEASE + p.savepoint] else [])
  }

  /** Executes statements up to the first that fails. */
  function Executed(b: Behaviour, log: seq<Call>, stmts: seq<string>): (seq<Call>, bool)
    decreases |stmts|
  {
    if stmts == [] then (log, true)
    else
      var next := log + [Execute(stmts[0])];
      if b(next).ok then Executed(b, next, stmts[1..]) else (next, false)
  }

  function Mismatch(expected: Option<int>, got: int): bool {
    expected.Some? && got != expected.value
  }

  function EndCall(p: Plan): Call {
    if p.rollback then Rollback else Commit
  }

  /** The calls up to and including the end of the transaction; if it went well, the reply to
      the statement under test. */
  function Transaction(b: Behaviour, log: seq<Call>, p: Plan): (seq<Call>, Result<Reply, Failure>) {
    var begun := log + [Begin];
    if !b(begun).ok then (begun, Err(BeginFailed)) else Begun(b, begun, p)
  }

  function Begun(b: Behaviour, log: seq<Call>, p: Plan): (seq<Call>, Result<Reply, Failure>) {
    var (before, ok) := Executed(b, log, Opening(p));
    if ok then Observed(b, before, p, b(before)) else (before + [Rollback], Err(StatementFailed))
  }

  function Observed(b: Behaviour, log: seq<Call>, p: Plan, observed: Reply): (seq<Call>, Result<Reply, Failure>) {
    var (closed, ok) := Executed(b, log, Closing(p));
    if !ok then (closed + [Rollback], Err(StatementFailed))
    else if Mismatch(p.expectAffected, observed.affected) then
      (closed + [Rollback], Err(AffectedMismatch(p.expectAffected.value, observed.affected)))
    else
      var ended := closed + [EndCall(p)];
      (ended, if b(ended).ok then Ok(observed) else Err(EndFailed))
  }

  /** Verification and cleanup, after the transaction. */
  function Afterwards(b: Behaviour, log: seq<Call>, p: Plan, observed: Reply): (seq<Call>, Result<Observation, Failure>) {
    if p.verify == "" then Cleanup(b, log, p, observed)
    else
      var verified := log + [Execute(p.verify)];
      var reply := b(verified);
      if !reply.ok then (verified, Err(VerifyFailed))
      else if Mismatch(p.expectRows, reply.returned) then
        (verified, Err(VerifyMismatch(p.expectRows.value, reply.returned)))
      else Cleanup(b, verified, p, reply)
  }

  function Cleanup(b: Behaviour, log: seq<Call>, p: Plan, final: Reply): (seq<Call>, Result<Observation, Failure>) {
    var observation := Observation(final.affected, final.returned);
    if p.cleanup == "" then (log, Ok(observation))
    else
      var cleaned := log + [Execute(p.cleanup)];
      (cleaned, if b(cleaned).ok then Ok(observation) else Err(CleanupFailed))
  }

  function Run(b: Behaviour, log: seq<Call>, c: Case): (seq<Call>, Result<Observation, Failure>) {
    var plan := PlanOf(c);
    if plan.Err? then (log, Err(plan.error))
    else
      var (ended, observed) := Transaction(b, log, plan.value);
      if observed.Err? then (ended, Err(observed.error)) else Afterwards(b, ended, plan.value, observed.value)
  }

  /** One more statement inside the transaction; on failure it is rolled back. */
  method ExecuteOrRollback(client: Client, sql: string) returns (r: Reply)
    modifies client`log
    ensures var next := old(client.log) + [Execute(sql)];
      r == client.behaviour(next) && client.log == if r.ok then next else next + [Rollback]
  {
    r := client.Answer(Execute(sql));
    if !r.ok {
      var _ := client.Answer(Rollback);
    }
  }

  /** The part of runTxnExecCase between begin and end. */
  method RunTransaction(client: Client, p: Plan) returns (r: Result<Reply, Failure>)
    modifies client`log
    ensures (client.log, r) == Transaction(client.behaviour, old(client.log), p)
  {
    var b := client.behaviour;
    var status := client.Answer(Begin);
    if !status.ok {
      return Err(BeginFailed);
    }
    ghost var begun := client.log;
    OpeningSteps(b, begun, p);
    if p.savepoint != "" {
      status := ExecuteOrRollback(client, SAVEPOINT + p.savepoint);
      if !status.ok {
        return Err(StatementFailed);
      }
    }
    var observed := ExecuteOrRollback(client, p.sql);
    if !observed.ok {
      return Err(StatementFailed);
    }
    ClosingSteps(b, client.log, p);
    if p.savepoint != "" && p.toSavepoint {
      status := ExecuteOrRollback(client, ROLLBACK_TO + p.savepoint);
      if !status.ok {
        return Err(StatementFailed);
      }
    }
    if p.savepoint != "" && p.release {
      status := ExecuteOrRollback(client, RELEASE + p.savepoint);
      if !status.ok {
        return Err(StatementFailed);
      }
    }
    if p.expectAffected.Some? && observed.affected != p.expectAffected.value {
      var _ := client.Answer(Rollback);
      return Err(AffectedMismatch(p.expectAffected.value, observed.affected));
    }
    if p.rollback {
      status := client.Answer(Rollback);
    } else {
      status := client.Answer(Commit);
    }
    if !status.ok {
      return Err(EndFailed);
    }
    return Ok(observed);
  }

  lemma ExecutedOne(b: Behaviour, log: seq<Call>, x: string)
    ensures Executed(b, log, [x]) == One(b, log, x)
  {
    assert [x][1..] == [];
  }

  lemma ExecutedTwo(b: Behaviour, log: seq<Call>, x: string, y: string)
    ensures Executed(b, log, [x, y]) == if One(b, log, x).1 then One(b, log + [Execute(x)], y) else One(b, log, x)
  {
    assert [x, y][1..] == [y];
    ExecutedOne(b, log + [Execute(x)], y);
  }

  lemma OpeningSteps(b: Behaviour, log: seq<Call>, p: Plan)
    ensures p.savepoint == "" ==> Executed(b, log, Opening(p)) == One(b, log, p.sql)
    ensures p.savepoint != "" ==>
      var first := One(b, log, SAVEPOINT + p.savepoint);
      Executed(b, log, Opening(p)) == if first.1 then One(b, first.0, p.sql) else first
  {
    if p.savepoint == "" {
      assert Opening(p) == [p.sql];
      ExecutedOne(b, log, p.sql);
    } else {
      assert Opening(p) == [SAVEPOINT + p.savepoint, p.sql];
      ExecutedTwo(b, log, SAVEPOINT + p.savepoint, p.sql);
    }
  }

  lemma ClosingSteps(b: Behaviour, log: seq<Call>, p: Plan)
    ensures
      var first := if p.savepoint != "" && p.toSavepoint then One(b, log, ROLLBACK_TO + p.savepoint) else (log, true);
      Executed(b, log, Closing(p)) ==
        if first.1 && p.savepoint != "" && p.release then One(b, first.0, RELEASE + p.savepoint) else first
  {
    var to, release := ROLLBACK_TO + p.savepoint, RELEASE + p.savepoint;
    if p.savepoint == "" || (!p.toSavepoint && !p.release) {
      assert Closing(p) == [];
    } else if !p.release {
      assert Closing(p) == [to];
      ExecutedOne(b, log, to);
    } else if !p.toSavepoint {
      assert Closing(p) == [release];
      ExecutedOne(b, log, release);
    } else {
      assert Closing(p) == [to, release];
      ExecutedTwo(b, log, to, release);
    }
  }

  function One(b: Behaviour, log: seq<Call>, sql: string): (seq<Call>, bool) {
    var next := log + [Execute(sql)];
    (next, b(next).ok)
  }

  method RunTxnExecCase(client: Client, c: Case) returns (r: Result<Observation, Failure>)
    modifies client`log
    ensures (client.log, r) == Run(client.behaviour, old(client.log), c)
  {
    var checked := CheckCase(c);
    if checked.Err? {
      return Err(checked.error);
    }
    var p := checked.value;
    var observed := RunTransaction(client, p);
    if observed.Err? {
      return Err(observed.error);
    }
    var final := observed.value;
    if p.verify != "" {
      final := client.Answer(Execute(p.verify));
      if !final.ok {
        return Err(VerifyFailed);
      }
      if p.expectRows.Some? && final.returned != p.expectRows.value {
        return Err(VerifyMismatch(p.expectRows.value, final.returned));
      }
    }
    if p.cleanup != "" {
      var status := client.Answer(Execute(p.cleanup));
      if !status.ok {
        return Err(CleanupFailed);
      }
    }
    return Ok(Observation(final.affected, final.returned));
  }

  // ----- every run is one bracketed transaction

  predicate IsEnd(call: Call) {
    call == Commit || call == Rollback
  }

  predicate AllExecute(calls: seq<Call>) {
    forall k :: 0 <= k < |calls| ==> calls[k].Execute?
  }

  lemma {:induction false} ExecutedOnlyExecutes(b: Behaviour, log: seq<Call>, stmts: seq<string>)
    returns (calls: seq<Call>)
    ensures Executed(b, log, stmts).0 == log + calls && AllExecute(calls) && |calls| <= |stmts|
    ensures forall k :: 0 <= k < |calls| ==> calls[k] == Execute(stmts[k])
    ensures forall k :: 0 < k < |calls| ==> b(log + calls[..k]).ok
    ensures calls != [] ==> b(log + calls).ok == Executed(b, log, stmts).1
    ensures Executed(b, log, stmts).1 ==> |calls| == |stmts|
    ensures calls == [] <==> stmts == []
    decreases |stmts|
  {
    if stmts == [] {
      calls := [];
      assert log + [] == log;
    } else {
      var call := Execute(stmts[0]);
      var next := log + [call];
      if b(next).ok {
        var others := ExecutedOnlyExecutes(b, next, stmts[1..]);
        calls := [call] + others;
        assert log + calls == next + others;
        forall k | 0 < k < |calls|
          ensures b(log + calls[..k]).ok
        {
          assert log + calls[..k] == next + others[..k - 1];
          if k == 1 {
            assert next + others[..0] == next;
          }
        }
      } else {
        calls := [call];
      }
    }
  }

  /** A run makes no call at all, or a begin that fails, or: a begin that succeeds, statements,
      one commit or rollback, and at most two statements behind it. */
  ghost predicate Bracketed(b: Behaviour, log: seq<Call>, calls: seq<Call>, inner: seq<Call>, end: seq<Call>,
        after: seq<Call>) {
    if calls == [] then inner == end == after == []
    else if !b(log + [Begin]).ok then calls == [Begin] && inner == end == after == []
    else
      && calls == [Begin] + inner + end + after && |end| == 1 && IsEnd(end[0])
      && AllExecute(inner) && AllExecute(after) && |after| <= 2
      && (after != [] ==> b(log + [Begin] + inner + end).ok)
  }

  lemma BegunIsBracketed(b: Behaviour, begun: seq<Call>, p: Plan) returns (inner: seq<Call>, end: seq<Call>)
    ensures Begun(b, begun, p).0 == begun + inner + end
    ensures |end| == 1 && IsEnd(end[0]) && AllExecute(inner)
    ensures Begun(b, begun, p).1.Ok? ==> b(begun + inner + end).ok
  {
    inner := ExecutedOnlyExecutes(b, begun, Opening(p));
    var (opening, okOpening) := Executed(b, begun, Opening(p));
    end := [Rollback];
    if okOpening {
      var closing := ExecutedOnlyExecutes(b, opening, Closing(p));
      var okClosing := Executed(b, opening, Closing(p)).1;
      assert opening + closing == begun + (inner + closing);
      inner := inner + closing;
      if okClosing && !Mismatch(p.expectAffected, b(opening).affected) {
        end := [EndCall(p)];
      }
    }
  }

  /** The pieces of a run's log: what it adds, and where the transaction ends. */
  lemma TransactionIsBracketed(b: Behaviour, log: seq<Call>, p: Plan) returns (inner: seq<Call>, end: seq<Call>)
    ensures Transaction(b, log, p).0 == log + ([Begin] + inner + end)
    ensures !b(log + [Begin]).ok ==> inner == end == []
    ensures b(log + [Begin]).ok ==> |end| == 1 && IsEnd(end[0]) && AllExecute(inner)
    ensures Transaction(b, log, p).1.Ok? ==> b(log + [Begin]).ok && b(log + [Begin] + inner + end).ok
  {
    hide Begun;
    var begun := log + [Begin];
    inner, end := [], [];
    if b(begun).ok {
      inner, end := BegunIsBracketed(b, begun, p);
    }
    assert log + ([Begin] + inner + end) == begun + inner + end;
  }

  /** For every client and every case, a successful begin is followed by exactly one commit or
      rollback, before any verification or cleanup. */
  lemma RunIsBracketed(b: Behaviour, log: seq<Call>, c: Case)
    returns (calls: seq<Call>, inner: seq<Call>, end: seq<Call>, after: seq<Call>)
    ensures Run(b, log, c).0 == log + calls && Bracketed(b, log, calls, inner, end, after)
    ensures calls == [] <==> PlanOf(c).Err?
  {
    calls, inner, end, after := [], [], [], [];
    if PlanOf(c).Err? {
      assert log + [] == log;
    } else {
      var p := PlanOf(c).value;
      inner, end := TransactionIsBracketed(b, log, p);
      var (ended, observed) := Transaction(b, log, p);
      if observed.Ok? {
        after := AfterwardsExecutes(b, ended, p, observed.value);
      }
      calls := [Begin] + inner + end + after;
      assert log + calls == log + ([Begin] + inner + end) + after;
    }
  }

  lemma AfterwardsExecutes(b: Behaviour, log: seq<Call>, p: Plan, observed: Reply) returns (after: seq<Call>)
    ensures Afterwards(b, log, p, observed).0 == log + after && AllExecute(after) && |after| <= 2
  {
    after := Afterwards(b, log, p, observed).0[|log|..];
  }

  // ----- a snapshot store with savepoints

  /** `working` is what the open transaction sees. */
  datatype Store<D> = Store(committed: D, working: Option<D>, savepoints: seq<(string, D)>)

  /** What a statement does to the data it sees, when it succeeds and when it fails. */
  type Effect<!D> = (string, bool, D) -> D

  datatype Statement = Save(name: string) | RollbackTo(name: string) | Release(name: string) | Plain

  function Classify(sql: string): Statement {
    if SAVEPOINT <= sql then Save(sql[|SAVEPOINT|..])
    else if ROLLBACK_TO <= sql then RollbackTo(sql[|ROLLBACK_TO|..])
    else if RELEASE <= sql then Release(sql[|RELEASE|..])
    else Plain
  }

  lemma ClassifyOwn(name: string)
    ensures Classify(SAVEPOINT + name) == Save(name)
    ensures Classify(ROLLBACK_TO + name) == RollbackTo(name)
    ensures Classify(RELEASE + name) == Release(name)
  {
    assert (ROLLBACK_TO + name)[0] == 'R' && (RELEASE + name)[0] == 'R' && SAVEPOINT[0] == 'S';
    assert (RELEASE + name)[1] == 'E' && ROLLBACK_TO[1] == 'O';
    assert (SAVEPOINT + name)[|SAVEPOINT|..] == name;
    assert (ROLLBACK_TO + name)[|ROLLBACK_TO|..] == name;
    assert (RELEASE + name)[|RELEASE|..] == name;
  }

  /** The latest savepoint of a name, or the number of savepoints. */
  function Latest<D>(savepoints: seq<(string, D)>, name: string): (i: nat)
    ensures i <= |savepoints|
  {
    if savepoints == [] then 0
    else
      var last := |savepoints| - 1;
      if savepoints[last].0 == name then last
      else
        var i := Latest(savepoints[..last], name);
        if i == last then |savepoints| else i
  }

  function InTransaction<D>(effect: Effect<D>, s: Store<D>, sql: string, ok: bool): Store<D>
    requires s.working.Some?
  {
    match Classify(sql)
    case Save(name) => if ok then s.(savepoints := s.savepoints + [(name, s.working.value)]) else s
    case RollbackTo(name) =>
      var i := Latest(s.savepoints, name);
      if ok && i < |s.savepoints| then s.(working := Some(s.savepoints[i].1), savepoints := s.savepoints[..i + 1]) else s
    case Release(name) =>
      var i := Latest(s.savepoints, name);
      if ok && i < |s.savepoints| then s.(savepoints := s.savepoints[..i]) else s
    case Plain => s.(working := Some(effect(sql, ok, s.working.value)))
  }

  /** A statement outside a transaction commits by itself; a failed begin, commit or rollback
      changes nothing. */
  function Step<D>(effect: Effect<D>, s: Store<D>, call: Call, ok: bool): Store<D> {
    match call
    case Begin => if ok then Store(s.committed, Some(s.committed), []) else s
    case Commit => if ok && s.working.Some? then Store(s.working.value, None, []) else s
    case Rollback => if ok then Store(s.committed, None, []) else s
    case Execute(sql) =>
      if s.working.Some? then InTransaction(effect, s, sql, ok)
      else if Classify(sql) == Plain then s.(committed := effect(sql, ok, s.committed))
      else s
  }

  /** The store after the calls of `log` behind the first `from`. */
  function After<D>(effect: Effect<D>, s: Store<D>, b: Behaviour, from: nat, log: seq<Call>): Store<D>
    decreases |log|
  {
    if |log| <= from then s
    else Step(effect, After(effect, s, b, from, log[..|log| - 1]), log[|log| - 1], b(log).ok)
  }

  lemma AfterOne<D>(effect: Effect<D>, s: Store<D>, b: Behaviour, from: nat, log: seq<Call>, call: Call)
    requires from <= |log|
    ensures After(effect, s, b, from, log + [call])
        == Step(effect, After(effect, s, b, from, log), call, b(log + [call]).ok)
  {
    assert (log + [call])[..|log|] == log;
  }

  lemma {:induction false} ExecutedStaysInside<D>(effect: Effect<D>, s: Store<D>, b: Behaviour, from: nat, log: seq<Call>,
                                                  stmts: seq<string>)
    requires from <= |log| && After(effect, s, b, from, log).working.Some?
    ensures var after := After(effect, s, b, from, Executed(b, log, stmts).0);
      after.working.Some? && after.committed == After(effect, s, b, from, log).committed
    ensures |log| <= |Executed(b, log, stmts).0|
    decreases |stmts|
  {
    if stmts != [] {
      var next := log + [Execute(stmts[0])];
      AfterOne(effect, s, b, from, log, Execute(stmts[0]));
      if b(next).ok {
        ExecutedStaysInside(effect, s, b, from, next, stmts[1..]);
      }
    }
  }

  /** The store when the statement under test has succeeded. */
  lemma AfterOpening<D>(effect: Effect<D>, s: Store<D>, b: Behaviour, from: nat, log: seq<Call>, p: Plan)
    requires from <= |log| && Classify(p.sql) == Plain && Executed(b, log, Opening(p)).1
    requires After(effect, s, b, from, log) == Store(s.committed, Some(s.committed), [])
    ensures After(effect, s, b, from, Executed(b, log, Opening(p)).0)
         == Store(s.committed, Some(effect(p.sql, true, s.committed)),
                  if p.savepoint == "" then [] else [(p.savepoint, s.committed)])
  {
    OpeningSteps(b, log, p);
    ClassifyOwn(p.savepoint);
    if p.savepoint == "" {
      AfterOne(effect, s, b, from, log, Execute(p.sql));
    } else {
      var call := Execute(SAVEPOINT + p.savepoint);
      AfterOne(effect, s, b, from, log, call);
      AfterOne(effect, s, b, from, log + [call], Execute(p.sql));
    }
  }

  lemma RolledBackTo<D>(effect: Effect<D>, s: Store<D>, name: string, c: D)
    requires s.working.Some? && s.savepoints == [(name, c)]
    ensures InTransaction(effect, s, ROLLBACK_TO + name, true) == Store(s.committed, Some(c), [(name, c)])
    ensures InTransaction(effect, s, RELEASE + name, true) == Store(s.committed, s.working, [])
  {
    ClassifyOwn(name);
  }

  /** What is about to be committed when the closing statements have succeeded. */
  lemma AfterClosing<D>(effect: Effect<D>, s: Store<D>, b: Behaviour, from: nat, log: seq<Call>, p: Plan, c: D)
    requires from <= |log| && Executed(b, log, Closing(p)).1
    requires var now := After(effect, s, b, from, log);
      now.working.Some? && now.savepoints == if p.savepoint == "" then [] else [(p.savepoint, c)]
    ensures After(effect, s, b, from, Executed(b, log, Closing(p)).0).working
         == if p.savepoint != "" && p.toSavepoint then Some(c) else After(effect, s, b, from, log).working
  {
    ClosingSteps(b, log, p);
    if p.savepoint != "" {
      var now, to := After(effect, s, b, from, log), Execute(ROLLBACK_TO + p.savepoint);
      RolledBackTo(effect, now, p.savepoint, c);
      if p.toSavepoint {
        AfterOne(effect, s, b, from, log, to);
        RolledBackTo(effect, After(effect, s, b, from, log + [to]), p.savepoint, c);
        AfterOne(effect, s, b, from, log + [to], Execute(RELEASE + p.savepoint));
      } else {
        AfterOne(effect, s, b, from, log, Execute(RELEASE + p.savepoint));
      }
    }
  }

  /** The committed data when the transaction of a case is over: a case that rolls back, rolls
      back to its savepoint or does not get as far as an accepted commit leaves it as it was, and
      any other applies the statement under test to it, once. */
  ghost function Outcome<D>(effect: Effect<D>, c: D, p: Plan, ended: Result<Reply, Failure>): D {
    if ended.Err? || p.rollback || (p.savepoint != "" && p.toSavepoint) then c else effect(p.sql, true, c)
  }

  /** The transaction begun over the committed data `c` is over. */
  ghost predicate Ends<D>(effect: Effect<D>, s: Store<D>, b: Behaviour, from: nat, c: D, p: Plan,
                          ended: seq<Call>, r: Result<Reply, Failure>) {
    var after := After(effect, s, b, from, ended);
    after.committed == Outcome(effect, c, p, r) && (r.Ok? ==> after.working.None?) && from <= |ended|
  }

  lemma RollbackEnds<D>(effect: Effect<D>, s: Store<D>, b: Behaviour, from: nat, c: D, p: Plan, log: seq<Call>,
                        r: Result<Reply, Failure>)
    requires from <= |log| && After(effect, s, b, from, log).committed == c
    requires r.Ok? ==> p.rollback && b(log + [Rollback]).ok
    ensures Ends(effect, s, b, from, c, p, log + [Rollback], r)
  {
    AfterOne(effect, s, b, from, log, Rollback);
  }

  lemma CommitEnds<D>(effect: Effect<D>, s: Store<D>, b: Behaviour, from: nat, c: D, p: Plan, log: seq<Call>,
                      r: Result<Reply, Failure>)
    requires from <= |log| && !p.rollback && (r.Ok? <==> b(log + [Commit]).ok)
    requires var now := After(effect, s, b, from, log);
      now.committed == c
      && now.working == Some(if p.savepoint != "" && p.toSavepoint then c else effect(p.sql, true, c))
    ensures Ends(effect, s, b, from, c, p, log + [Commit], r)
  {
    AfterOne(effect, s, b, from, log, Commit);
  }

  lemma ObservedOutcome<D>(effect: Effect<D>, s: Store<D>, b: Behaviour, from: nat, c: D, p: Plan, log: seq<Call>,
        observed: Reply)
    requires from <= |log|
    requires After(effect, s, b, from, log)
          == Store(c, Some(effect(p.sql, true, c)), if p.savepoint == "" then [] else [(p.savepoint, c)])
    ensures var (ended, r) := Observed(b, log, p, observed);
      Ends(effect, s, b, from, c, p, ended, r)
  {
    var (closed, ok) := Executed(b, log, Closing(p));
    var (ended, r) := Observed(b, log, p, observed);
    ExecutedStaysInside(effect, s, b, from, log, Closing(p));
    if !ok || Mismatch(p.expectAffected, observed.affected) || p.rollback {
      RollbackEnds(effect, s, b, from, c, p, closed, r);
    } else {
      AfterClosing(effect, s, b, from, log, p, c);
      CommitEnds(effect, s, b, from, c, p, closed, r);
    }
  }

  lemma BegunOutcome<D>(effect: Effect<D>, s: Store<D>, b: Behaviour, from: nat, p: Plan, log: seq<Call>)
    requires from <= |log| && Classify(p.sql) == Plain
    requires After(effect, s, b, from, log) == Store(s.committed, Some(s.committed), [])
    ensures var (ended, r) := Begun(b, log, p);
      Ends(effect, s, b, from, s.committed, p, ended, r)
  {
    var (before, ok) := Executed(b, log, Opening(p));
    ExecutedStaysInside(effect, s, b, from, log, Opening(p));
    if ok {
      AfterOpening(effect, s, b, from, log, p);
      ObservedOutcome(effect, s, b, from, s.committed, p, before, b(before));
    } else {
      RollbackEnds(effect, s, b, from, s.committed, p, before, Err(StatementFailed));
    }
  }

  lemma TransactionOutcome<D>(effect: Effect<D>, s: Store<D>, b: Behaviour, log: seq<Call>, p: Plan)
    requires s.working.None? && Classify(p.sql) == Plain
    ensures var (ended, r) := Transaction(b, log, p);
      Ends(effect, s, b, |log|, s.committed, p, ended, r)
  {
    AfterOne(effect, s, b, |log|, log, Begin);
    if b(log + [Begin]).ok {
      BegunOutcome(effect, s, b, |log|, p, log + [Begin]);
    }
  }

  /** A statement that only reads. */
  ghost predicate ReadsOnly<D(!new)>(effect: Effect<D>, sql: string) {
    forall ok, d :: effect(sql, ok, d) == d
  }

  lemma ReadsOnlyStep<D(!new)>(effect: Effect<D>, s: Store<D>, b: Behaviour, from: nat, log: seq<Call>, sql: string)
    requires from <= |log| && ReadsOnly(effect, sql) && After(effect, s, b, from, log).working.None?
    ensures After(effect, s, b, from, log + [Execute(sql)]) == After(effect, s, b, from, log)
  {
    AfterOne(effect, s, b, from, log, Execute(sql));
  }

  /** The same for whole runs, where verification and cleanup only read. */
  lemma RunOutcome<D(!new)>(effect: Effect<D>, s: Store<D>, b: Behaviour, log: seq<Call>, c: Case)
    requires s.working.None? && PlanOf(c).Ok? && Classify(PlanOf(c).value.sql) == Plain
    requires PlanOf(c).value.verify != "" ==> ReadsOnly(effect, PlanOf(c).value.verify)
    requires PlanOf(c).value.cleanup != "" ==> ReadsOnly(effect, PlanOf(c).value.cleanup)
    ensures After(effect, s, b, |log|, Run(b, log, c).0).committed
         == Outcome(effect, s.committed, PlanOf(c).value, Transaction(b, log, PlanOf(c).value).1)
  {
    var p := PlanOf(c).value;
    var (ended, observed) := Transaction(b, log, p);
    TransactionOutcome(effect, s, b, log, p);
    if observed.Ok? {
      var next := ended;
      if p.verify != "" {
        ReadsOnlyStep(effect, s, b, |log|, ended, p.verify);
        next := ended + [Execute(p.verify)];
      }
      if p.cleanup != "" {
        ReadsOnlyStep(effect, s, b, |log|, next, p.cleanup);
      }
    }
  }
}
