/** What the transactional test runner makes of the fields of a case: which cases it accepts,
    which calls it makes, when it succeeds, and what is committed. */
module TxnCases {
  import opened Wrappers
  import opened StatementSplitter
  import opened TxnExec

  // ----- the fields

  /** `s` is the lower-case word, in any case. */
  predicate Means(s: string, word: string) {
    && |s| == |word|
    && forall i :: 0 <= i < |s| ==> s[i] == word[i] || ('A' <= s[i] <= 'Z' && s[i] as int + 32 == word[i] as int)
  }

  predicate Commits(c: Case) {
    c.txnEnd.None? || Means(Trim(c.txnEnd.value), "commit")
  }

  predicate RollsBack(c: Case) {
    c.txnEnd.Some? && Means(Trim(c.txnEnd.value), "rollback")
  }

  function Savepoint(c: Case): string {
    Trim(c.savepointName)
  }

  function ExpectedRows(c: Case): Field {
    if c.verifyExpectRows.Absent? then c.expectRows else c.verifyExpectRows
  }

  predicate Accepted(c: Case) {
    && Trim(c.sql) != "" && (Commits(c) || RollsBack(c))
    && (c.expectRowsAffected.Absent? || c.expectRowsAffected.Integer?)
    && (ExpectedRows(c).Absent? || ExpectedRows(c).Integer?)
    && (c.rollbackToSavepoint.Absent? || c.rollbackToSavepoint.Flag?)
    && (c.releaseSavepoint.Absent? || c.releaseSavepoint.Flag?)
    && (forall k :: 0 <= k < |Savepoint(c)| ==> IsTagChar(Savepoint(c)[k]))
    && (c.rollbackToSavepoint == Flag(true) || c.releaseSavepoint == Flag(true) ==> Savepoint(c) != "")
  }

  // ----- the calls of a case that goes well

  function When(condition: bool, sql: string): seq<Call> {
    if condition then [Execute(sql)] else []
  }

  /** Up to the statement under test, and from it up to the end of the transaction. */
  function Before(c: Case): seq<Call> {
    When(Savepoint(c) != "", "SAVEPOINT " + Savepoint(c)) + [Execute(Trim(c.sql))]
  }

  function Behind(c: Case): seq<Call> {
    When(c.rollbackToSavepoint == Flag(true), "ROLLBACK TO SAVEPOINT " + Savepoint(c))
    + When(c.releaseSavepoint == Flag(true), "RELEASE SAVEPOINT " + Savepoint(c))
  }

  /** The whole transaction. */
  function Inside(c: Case): seq<Call> {
    [Begin] + Before(c) + Behind(c) + [if RollsBack(c) then Rollback else Commit]
  }

  function Verification(c: Case): seq<Call> {
    When(Trim(c.verifySql) != "", Trim(c.verifySql))
  }

  function CleanupCalls(c: Case): seq<Call> {
    When(Trim(c.cleanupSql) != "", Trim(c.cleanupSql))
  }

  function Script(c: Case): seq<Call> {
    Inside(c) + (Verification(c) + CleanupCalls(c))
  }

  /** Every one of the calls is answered well. */
  predicate AllOk(b: Behaviour, log: seq<Call>, calls: seq<Call>) {
    forall k :: 0 < k <= |calls| ==> b(log + calls[..k]).ok
  }

  /** The reply to the statement under test, and to the verification. */
  function StatementReply(b: Behaviour, log: seq<Call>, c: Case): Reply {
    b(log + ([Begin] + Before(c)))
  }

  function FinalReply(b: Behaviour, log: seq<Call>, c: Case): Reply {
    if Verification(c) == [] then StatementReply(b, log, c) else b(log + (Inside(c) + Verification(c)))
  }

  predicate AsExpected(b: Behaviour, log: seq<Call>, c: Case) {
    && (c.expectRowsAffected.Integer? ==> StatementReply(b, log, c).affected == c.expectRowsAffected.number)
    && (Verification(c) != [] && ExpectedRows(c).Integer? ==> FinalReply(b, log, c).returned == ExpectedRows(c).number)
  }

  // ----- plans against fields

  lemma LowerMeans(s: string, word: string)
    requires forall i :: 0 <= i < |word| ==> 'a' <= word[i] <= 'z'
    ensures Lower(s) == word <==> Means(s, word)
  {
    assert |Lower(s)| == |s|;
    assert forall i :: 0 <= i < |s| ==> Lower(s)[i] == if 'A' <= s[i] <= 'Z' then (s[i] as int + 32) as char else s[i];
    if Means(s, word) {
      assert Lower(s) == word;
    }
  }

  lemma EndsOf(c: Case)
    ensures var end := Lower(Trim(if c.txnEnd.None? then "commit" else c.txnEnd.value));
      && (end == "commit" <==> Commits(c)) && (end == "rollback" <==> RollsBack(c))
  {
    if c.txnEnd.None? {
      CommitIsTrimmed();
    }
    var end := Trim(if c.txnEnd.None? then "commit" else c.txnEnd.value);
    LowerMeans(end, "commit");
    LowerMeans(end, "rollback");
  }

  lemma CommitIsTrimmed()
    ensures Trim("commit") == "commit"
  {
  }

  /** Exactly the accepted cases have a plan, and it says what the fields say. */
  lemma PlanIsTheFields(c: Case)
    ensures PlanOf(c).Ok? <==> Accepted(c)
    ensures Accepted(c) ==>
      var p := PlanOf(c).value;
      && p.sql == Trim(c.sql) && p.rollback == RollsBack(c) && p.savepoint == Savepoint(c)
      && p.expectAffected == (if c.expectRowsAffected.Integer? then Some(c.expectRowsAffected.number) else None)
      && p.expectRows == (if ExpectedRows(c).Integer? then Some(ExpectedRows(c).number) else None)
      && p.toSavepoint == (c.rollbackToSavepoint == Flag(true)) && p.release == (c.releaseSavepoint == Flag(true))
      && p.verify == Trim(c.verifySql) && p.cleanup == Trim(c.cleanupSql)
      && (p.toSavepoint || p.release ==> p.savepoint != "")
  {
    hide Trim, Means, Lower;
    EndsOf(c);
    var end := Lower(Trim(if c.txnEnd.None? then "commit" else c.txnEnd.value));
    assert Accepted(c) ==> end == "commit" || end == "rollback";
    assert Savepoint(c) == "" || (IsSimpleIdentifier(Savepoint(c)) <==>
      forall k :: 0 <= k < |Savepoint(c)| ==> IsTagChar(Savepoint(c)[k]));
    assert Accepted(c) ==> OptionalInt(ExpectedRows(c)).Ok? && OptionalInt(c.expectRowsAffected).Ok?;
    assert Accepted(c) ==> OptionalBool(c.rollbackToSavepoint).Ok? && OptionalBool(c.releaseSavepoint).Ok?;
  }

  // ----- runs

  function Execs(stmts: seq<string>): seq<Call> {
    seq(|stmts|, k requires 0 <= k < |stmts| => Execute(stmts[k]))
  }

  lemma AllOkConcat(b: Behaviour, log: seq<Call>, x: seq<Call>, y: seq<Call>)
    ensures AllOk(b, log, x + y) <==> AllOk(b, log, x) && AllOk(b, log + x, y)
  {
    forall k | 0 < k <= |x|
      ensures (x + y)[..k] == x[..k]
    {
    }
    forall k | 0 < k <= |y|
      ensures log + (x + y)[..|x| + k] == log + x + y[..k]
    {
    }
    if AllOk(b, log, x + y) {
      forall k | 0 < k <= |y|
        ensures b(log + x + y[..k]).ok
      {
        assert b(log + (x + y)[..|x| + k]).ok;
      }
      forall k | 0 < k <= |x|
        ensures b(log + x[..k]).ok
      {
        assert b(log + (x + y)[..k]).ok;
      }
    }
    if AllOk(b, log, x) && AllOk(b, log + x, y) {
      forall k | 0 < k <= |x + y|
        ensures b(log + (x + y)[..k]).ok
      {
        if k > |x| {
          assert b(log + x + y[..k - |x|]).ok;
        } else {
          assert b(log + x[..k]).ok;
        }
      }
    }
  }

  lemma AllOkOne(b: Behaviour, log: seq<Call>, call: Call)
    ensures AllOk(b, log, [call]) <==> b(log + [call]).ok
    ensures AllOk(b, log, [])
  {
    assert [call][..1] == [call];
  }

  lemma {:induction false} ExecutedAll(b: Behaviour, log: seq<Call>, stmts: seq<string>)
    ensures Executed(b, log, stmts).1 <==> AllOk(b, log, Execs(stmts))
    ensures Executed(b, log, stmts).1 ==> Executed(b, log, stmts).0 == log + Execs(stmts)
    decreases |stmts|
  {
    if stmts == [] {
      assert Execs(stmts) == [] && log + [] == log;
    } else {
      var call := Execute(stmts[0]);
      assert Execs(stmts) == [call] + Execs(stmts[1..]);
      AllOkConcat(b, log, [call], Execs(stmts[1..]));
      AllOkOne(b, log, call);
      ExecutedAll(b, log + [call], stmts[1..]);
      assert log + [call] + Execs(stmts[1..]) == log + Execs(stmts);
    }
  }

  lemma Steps(c: Case)
    requires PlanOf(c).Ok?
    ensures Execs(Opening(PlanOf(c).value)) == Before(c) && Execs(Closing(PlanOf(c).value)) == Behind(c)
  {
    hide Trim, PlanOf;
    PlanIsTheFields(c);
  }

  /** The transaction goes well exactly if every call of it does and the affected rows are those
      expected. */
  lemma TransactionSucceeds(b: Behaviour, log: seq<Call>, c: Case)
    requires PlanOf(c).Ok?
    ensures var (calls, r) := Transaction(b, log, PlanOf(c).value);
      && (r.Ok? <==>
            && AllOk(b, log, Inside(c))
            && (c.expectRowsAffected.Integer? ==> StatementReply(b, log, c).affected == c.expectRowsAffected.number))
      && (r.Ok? ==> calls == log + Inside(c) && r.value == StatementReply(b, log, c))
  {
    hide Trim, PlanOf, Accepted, AllOk, Before, Behind;
    var p := PlanOf(c).value;
    PlanIsTheFields(c);
    Steps(c);
    var end := if RollsBack(c) then Rollback else Commit;
    var begun := log + [Begin];
    var before := begun + Before(c);
    var closed := before + Behind(c);
    ExecutedAll(b, begun, Opening(p));
    ExecutedAll(b, before, Closing(p));
    AllOkOne(b, log, Begin);
    AllOkOne(b, closed, end);
    AllOkConcat(b, log, [Begin], Before(c));
    AllOkConcat(b, log, [Begin] + Before(c), Behind(c));
    AllOkConcat(b, log, [Begin] + Before(c) + Behind(c), [end]);
    assert log + ([Begin] + Before(c)) == before;
    assert log + ([Begin] + Before(c) + Behind(c)) == closed;
    assert log + Inside(c) == closed + [end];
  }

  /** Verification and cleanup behind the transaction. */
  lemma AfterwardsSucceeds(b: Behaviour, ended: seq<Call>, c: Case, observed: Reply)
    requires PlanOf(c).Ok?
    ensures var (calls, r) := Afterwards(b, ended, PlanOf(c).value, observed);
      var last := if Verification(c) == [] then observed else b(ended + Verification(c));
      && (r.Ok? <==>
            && AllOk(b, ended, Verification(c) + CleanupCalls(c))
            && (Verification(c) != [] && ExpectedRows(c).Integer? ==> last.returned == ExpectedRows(c).number))
      && (r.Ok? ==>
            calls == ended + (Verification(c) + CleanupCalls(c)) && r.value == Observation(last.affected, last.returned))
  {
    hide Trim, PlanOf, Accepted, AllOk;
    PlanIsTheFields(c);
    var p, verified := PlanOf(c).value, ended + Verification(c);
    AllOkConcat(b, ended, Verification(c), CleanupCalls(c));
    AllOkOne(b, ended, Execute(p.verify));
    AllOkOne(b, verified, Execute(p.cleanup));
    assert ended + (Verification(c) + CleanupCalls(c)) == verified + CleanupCalls(c);
    assert verified + [] == verified && (p.verify == "" ==> verified == ended);
  }

  /** Main result: a run succeeds exactly if its case is accepted, every call of its script is
      answered well, and the affected and returned rows are those its fields expect. It then
      has made the calls of the script and no others, and reports the last reply observed. */
  lemma RunSucceedsExactlyWhen(b: Behaviour, log: seq<Call>, c: Case)
    ensures var (calls, r) := Run(b, log, c);
      && (r.Ok? <==> Accepted(c) && AllOk(b, log, Script(c)) && AsExpected(b, log, c))
      && (r.Ok? ==>
            && calls == log + Script(c)
            && r.value == Observation(FinalReply(b, log, c).affected, FinalReply(b, log, c).returned))
  {
    hide Trim, PlanOf, Accepted, AllOk, Inside, Transaction, Afterwards, CleanupCalls, Verification, ExpectedRows;
    PlanIsTheFields(c);
    if Accepted(c) {
      var p, ended, later := PlanOf(c).value, log + Inside(c), Verification(c) + CleanupCalls(c);
      TransactionSucceeds(b, log, c);
      AllOkConcat(b, log, Inside(c), later);
      AfterwardsSucceeds(b, ended, c, StatementReply(b, log, c));
      assert log + Script(c) == ended + later;
      assert log + (Inside(c) + Verification(c)) == ended + Verification(c);
      var r := Run(b, log, c).1;
      var observed := StatementReply(b, log, c);
      var rowsRight := c.expectRowsAffected.Integer? ==> observed.affected == c.expectRowsAffected.number;
      var last := if Verification(c) == [] then StatementReply(b, log, c) else b(ended + Verification(c));
      assert last == FinalReply(b, log, c);
      assert Transaction(b, log, p).1.Err? ==> r.Err?;
      assert Transaction(b, log, p).1.Ok? ==> r == Afterwards(b, ended, p, StatementReply(b, log, c)).1;
      assert AllOk(b, log, Script(c)) <==> AllOk(b, log, Inside(c)) && AllOk(b, ended, later);
      assert Transaction(b, log, p).1.Ok? <==> AllOk(b, log, Inside(c)) && rowsRight;
      assert AsExpected(b, log, c) <==>
        rowsRight && (Verification(c) != [] && ExpectedRows(c).Integer? ==> last.returned == ExpectedRows(c).number);
    }
  }

  lemma {:induction false} ExecutedPrefix(b: Behaviour, log: seq<Call>, stmts: seq<string>) returns (n: nat)
    ensures n <= |stmts| && Executed(b, log, stmts).0 == log + Execs(stmts)[..n]
    ensures stmts != [] ==> n > 0
    decreases |stmts|
  {
    if stmts == [] {
      n := 0;
      assert log + [] == log;
    } else {
      var call := Execute(stmts[0]);
      assert Execs(stmts) == [call] + Execs(stmts[1..]);
      n := 1;
      if b(log + [call]).ok {
        var m := ExecutedPrefix(b, log + [call], stmts[1..]);
        n := m + 1;
        assert Execs(stmts)[..n] == [call] + Execs(stmts[1..])[..m];
        assert log + [call] + Execs(stmts[1..])[..m] == log + Execs(stmts)[..n];
      } else {
        assert Execs(stmts)[..1] == [call];
      }
    }
  }

  /** Calls that follow `script` up to the k-th, or that far and then roll back. */
  predicate Follows(calls: seq<Call>, log: seq<Call>, script: seq<Call>, k: nat, inside: nat) {
    && k <= |script|
    && (calls == log + script[..k] || (1 < k < inside && calls == log + script[..k] + [Rollback]))
  }

  lemma FollowsInFront(calls: seq<Call>, log: seq<Call>, front: seq<Call>, more: seq<Call>, k: nat, inside: nat)
    requires Follows(calls, log, front, k, inside)
    ensures Follows(calls, log, front + more, k, inside)
  {
    assert (front + more)[..k] == front[..k];
  }

  lemma PartOf(x: seq<Call>, y: seq<Call>, z: seq<Call>, n: nat)
    requires n <= |y|
    ensures (x + y + z)[..|x| + n] == x + y[..n]
  {
  }

  /** The transaction follows its script up to its end, or rolls back before. */
  lemma TransactionFollows(b: Behaviour, log: seq<Call>, c: Case) returns (k: nat)
    requires PlanOf(c).Ok?
    ensures var (calls, r) := Transaction(b, log, PlanOf(c).value);
      Follows(calls, log, Inside(c), k, |Inside(c)|) && (r.Ok? ==> k == |Inside(c)|)
  {
    hide Trim, PlanOf, Accepted, Inside, Begun;
    if b(log + [Begin]).ok {
      k := BegunFollows(b, log, c);
    } else {
      k := 1;
      BeginsInside(c);
    }
  }

  lemma BeginsInside(c: Case)
    ensures Inside(c)[..1] == [Begin] && |Inside(c)| > 1
  {
    assert Inside(c) == [Begin] + (Before(c) + Behind(c) + [if RollsBack(c) then Rollback else Commit]);
  }

  lemma BegunFollows(b: Behaviour, log: seq<Call>, c: Case) returns (k: nat)
    requires PlanOf(c).Ok?
    ensures var (calls, r) := Begun(b, log + [Begin], PlanOf(c).value);
      Follows(calls, log, Inside(c), k, |Inside(c)|) && (r.Ok? ==> k == |Inside(c)|)
  {
    hide Trim, PlanOf, Accepted, Before, Behind, TxnExec.Observed, AllOk;
    var p, begun, whole := PlanOf(c).value, log + [Begin], Inside(c);
    PlanIsTheFields(c);
    Steps(c);
    var rest := Behind(c) + [if RollsBack(c) then Rollback else Commit];
    assert whole == [Begin] + Before(c) + rest;
    ExecutedAll(b, begun, Opening(p));
    if Executed(b, begun, Opening(p)).1 {
      assert begun + Before(c) == log + ([Begin] + Before(c));
      k := ObservedFollows(b, log, c);
    } else {
      var n := ExecutedPrefix(b, begun, Opening(p));
      PartOf([Begin], Before(c), rest, n);
      Assoc(log, [Begin], Before(c)[..n]);
      k := 1 + n;
    }
  }

  lemma ObservedFollows(b: Behaviour, log: seq<Call>, c: Case) returns (k: nat)
    requires PlanOf(c).Ok?
    ensures var before := log + ([Begin] + Before(c));
      var (calls, r) := TxnExec.Observed(b, before, PlanOf(c).value, b(before));
      Follows(calls, log, Inside(c), k, |Inside(c)|) && (r.Ok? ==> k == |Inside(c)|)
  {
    hide Trim, PlanOf, Accepted, Before, Behind, AllOk;
    var p, front, whole := PlanOf(c).value, [Begin] + Before(c), Inside(c);
    var end, closed := if RollsBack(c) then Rollback else Commit, front + Behind(c);
    PlanIsTheFields(c);
    Steps(c);
    ExecutedAll(b, log + front, Closing(p));
    if Executed(b, log + front, Closing(p)).1 {
      Assoc(log, front, Behind(c));
      Assoc(log, closed, [end]);
      assert whole[..|closed|] == closed && whole[..|whole|] == closed + [end];
      k := if Mismatch(p.expectAffected, b(log + front).affected) then |closed| else |whole|;
    } else {
      var m := ExecutedPrefix(b, log + front, Closing(p));
      PartOf(front, Behind(c), [end], m);
      Assoc(log, front, Behind(c)[..m]);
      k := |front| + m;
    }
  }

  /** Whatever the client answers, a run makes the calls of the script of its case, as far as it
      gets, and no others but a rollback where the transaction goes wrong. */
  lemma RunFollowsScript(b: Behaviour, log: seq<Call>, c: Case) returns (k: nat)
    ensures var calls := Run(b, log, c).0;
      if Accepted(c) then Follows(calls, log, Script(c), k, |Inside(c)|) else calls == log
  {
    hide Trim, PlanOf, Accepted, Inside, Transaction;
    k := 0;
    PlanIsTheFields(c);
    if Accepted(c) {
      var p, later := PlanOf(c).value, Verification(c) + CleanupCalls(c);
      k := TransactionFollows(b, log, c);
      var (ended, r) := Transaction(b, log, p);
      if r.Err? {
        FollowsInFront(ended, log, Inside(c), later, k, |Inside(c)|);
      } else {
        assert ended == log + Inside(c) by { assert Inside(c)[..k] == Inside(c); }
        var m := AfterwardsFollow(b, ended, c, r.value);
        k := |Inside(c)| + m;
        assert Script(c)[..k] == Inside(c) + later[..m];
        assert ended + later[..m] == log + Script(c)[..k];
      }
    }
  }

  lemma AfterwardsFollow(b: Behaviour, ended: seq<Call>, c: Case, observed: Reply) returns (m: nat)
    requires PlanOf(c).Ok?
    ensures var later := Verification(c) + CleanupCalls(c);
      m <= |later| && Afterwards(b, ended, PlanOf(c).value, observed).0 == ended + later[..m]
  {
    hide Trim, PlanOf, Accepted;
    PlanIsTheFields(c);
    var later := Verification(c) + CleanupCalls(c);
    m := |Afterwards(b, ended, PlanOf(c).value, observed).0| - |ended|;
  }

  /** A mismatch names what the fields expect and what the client has replied. */
  lemma MismatchIsReported(b: Behaviour, log: seq<Call>, c: Case, expected: int, got: int)
    ensures Run(b, log, c).1 == Err(AffectedMismatch(expected, got)) ==>
      c.expectRowsAffected == Integer(expected) && got == StatementReply(b, log, c).affected != expected
    ensures Run(b, log, c).1 == Err(VerifyMismatch(expected, got)) ==>
      ExpectedRows(c) == Integer(expected) && got == FinalReply(b, log, c).returned != expected
  {
    hide Trim, PlanOf, Accepted, Before, Behind, AllOk, Inside, Executed;
    PlanIsTheFields(c);
    if Accepted(c) {
      var p := PlanOf(c).value;
      Steps(c);
      ExecutedAll(b, log + [Begin], Opening(p));
      Assoc(log, [Begin], Before(c));
      TransactionSucceeds(b, log, c);
      Assoc(log, Inside(c), Verification(c));
    } else {
      RefusalIsNoMismatch(c);
    }
  }

  lemma RefusalIsNoMismatch(c: Case)
    requires PlanOf(c).Err?
    ensures !PlanOf(c).error.AffectedMismatch? && !PlanOf(c).error.VerifyMismatch?
  {
    hide Trim, Lower;
  }

  // ----- what is committed

  /** Every call of the transaction is answered well, and the affected rows are those expected. */
  predicate GoesWell(b: Behaviour, log: seq<Call>, c: Case) {
    && AllOk(b, log, Inside(c))
    && (c.expectRowsAffected.Integer? ==> StatementReply(b, log, c).affected == c.expectRowsAffected.number)
  }

  /** Main result: against a snapshot store, with verification and cleanup that only read, the
      statement is applied to the committed data, once, exactly if the case is accepted, is to
      commit, does not roll back to its savepoint, and goes well. */
  lemma CommittedData<D(!new)>(effect: Effect<D>, s: Store<D>, b: Behaviour, log: seq<Call>, c: Case)
    requires s.working.None? && Classify(Trim(c.sql)) == Statement.Plain
    requires Verification(c) != [] ==> ReadsOnly(effect, Trim(c.verifySql))
    requires CleanupCalls(c) != [] ==> ReadsOnly(effect, Trim(c.cleanupSql))
    ensures After(effect, s, b, |log|, Run(b, log, c).0).committed ==
      if Accepted(c) && Commits(c) && c.rollbackToSavepoint != Flag(true) && GoesWell(b, log, c)
      then effect(Trim(c.sql), true, s.committed) else s.committed
  {
    hide Trim, PlanOf, Accepted, Inside, Transaction, Classify, After;
    PlanIsTheFields(c);
    if Accepted(c) {
      OneEnd(c);
      TransactionSucceeds(b, log, c);
      RunOutcome(effect, s, b, log, c);
    } else {
      NothingHappened(effect, s, b, log);
    }
  }

  lemma NothingHappened<D>(effect: Effect<D>, s: Store<D>, b: Behaviour, log: seq<Call>)
    ensures After(effect, s, b, |log|, log) == s
  {
  }

  lemma OneEnd(c: Case)
    requires Accepted(c)
    ensures Commits(c) <==> !RollsBack(c)
  {
  }
}
