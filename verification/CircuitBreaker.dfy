/** The circuit breaker of the Go driver. Each method is one atomic step; the theorems are
    about every interleaving of such steps. */
module CircuitBreaker {

  const WRAP := 0x1_0000_0000  // counters are uint32

  datatype CircuitState = Closed | Open | HalfOpen

  datatype Config = Config(failureThreshold: nat, recoveryTimeout: int, successThreshold: nat, halfOpenMax: nat) {
    predicate Valid() {
      failureThreshold < WRAP && successThreshold < WRAP && halfOpenMax < WRAP
    }
  }

  /** `changes` is what the state-change callback has been told. */
  datatype Breaker = Breaker(
    state: CircuitState, failures: nat, successes: nat, halfOpenRequests: nat, lastFailure: int,
    changes: seq<(CircuitState, CircuitState)>)

  const NEW := Breaker(Closed, 0, 0, 0, 0, [])

  function Change(b: Breaker, to: CircuitState): Breaker {
    b.(state := to, changes := b.changes + [(b.state, to)])
  }

  function AllowHalfOpen(b: Breaker, c: Config): (Breaker, bool) {
    if b.halfOpenRequests >= c.halfOpenMax then (b, false)
    else (b.(halfOpenRequests := (b.halfOpenRequests + 1) % WRAP), true)
  }

  function Allow(b: Breaker, c: Config, now: int): (Breaker, bool) {
    match b.state
    case Closed => (b, true)
    case HalfOpen => AllowHalfOpen(b, c)
    case Open =>
      if now - b.lastFailure < c.recoveryTimeout then (b, false)
      else AllowHalfOpen(Change(b, HalfOpen).(failures := 0, successes := 0, halfOpenRequests := 0), c)
  }

  function Succeed(b: Breaker, c: Config): Breaker {
    match b.state
    case Closed => b.(failures := 0)
    case Open => b
    case HalfOpen =>
      var b1 := b.(halfOpenRequests := (b.halfOpenRequests + WRAP - 1) % WRAP, successes := (b.successes + 1) % WRAP);
      if b1.successes >= c.successThreshold then Change(b1, Closed).(failures := 0, successes := 0) else b1
  }

  function Fail(b: Breaker, c: Config, now: int): Breaker {
    match b.state
    case Closed =>
      var b1 := b.(failures := (b.failures + 1) % WRAP);
      if b1.failures >= c.failureThreshold then Change(b1, Open).(lastFailure := now) else b1
    case HalfOpen =>
      Change(b, Open).(halfOpenRequests := (b.halfOpenRequests + WRAP - 1) % WRAP, lastFailure := now)
    case Open => b.(lastFailure := now)
  }

  function Reset(b: Breaker): Breaker {
    (if b.state == Closed then b else Change(b, Closed)).(failures := 0, successes := 0, halfOpenRequests := 0)
  }

  // ----- the object

  datatype Outcome = Refused | Ran(ok: bool)

  class Circuit {
    const config: Config
    var state: CircuitState
    var failureCount: nat
    var successCount: nat
    var halfOpenRequests: nat
    var lastFailureTime: int
    var changes: seq<(CircuitState, CircuitState)>

    ghost function Value(): Breaker
      reads this
    {
      Breaker(state, failureCount, successCount, halfOpenRequests, lastFailureTime, changes)
    }

    constructor (config: Config)
      ensures Value() == NEW && this.config == config
    {
      this.config := config;
      state, failureCount, successCount, halfOpenRequests, lastFailureTime, changes := Closed, 0, 0, 0, 0, [];
    }

    method NotifyStateChange(from: CircuitState, to: CircuitState)
      modifies this`changes
      ensures changes == old(changes) + [(from, to)]
    {
      changes := changes + [(from, to)];
    }

    method AllowHalfOpenRequest() returns (allowed: bool)
      modifies this`halfOpenRequests
      ensures (Value(), allowed) == AllowHalfOpen(old(Value()), config)
    {
      if halfOpenRequests >= config.halfOpenMax {
        return false;
      }
      halfOpenRequests := (halfOpenRequests + 1) % WRAP;
      return true;
    }

    method AllowRequest(now: int) returns (allowed: bool)
      modifies this
      ensures (Value(), allowed) == Allow(old(Value()), config, now)
    {
      match state
      case Closed => return true;
      case HalfOpen => allowed := AllowHalfOpenRequest();
      case Open =>
        if now - lastFailureTime < config.recoveryTimeout {
          return false;
        }
        state, failureCount, successCount, halfOpenRequests := HalfOpen, 0, 0, 0;
        NotifyStateChange(Open, HalfOpen);
        allowed := AllowHalfOpenRequest();
    }

    method RecordSuccess()
      modifies this
      ensures Value() == Succeed(old(Value()), config)
    {
      match state
      case Closed => failureCount := 0;
      case Open =>
      case HalfOpen =>
        halfOpenRequests := (halfOpenRequests + WRAP - 1) % WRAP;
        successCount := (successCount + 1) % WRAP;
        if successCount >= config.successThreshold {
          state, failureCount, successCount := Closed, 0, 0;
          NotifyStateChange(HalfOpen, Closed);
        }
    }

    method RecordFailure(now: int)
      modifies this
      ensures Value() == Fail(old(Value()), config, now)
    {
      match state
      case Closed =>
        failureCount := (failureCount + 1) % WRAP;
        if failureCount >= config.failureThreshold {
          state, lastFailureTime := Open, now;
          NotifyStateChange(Closed, Open);
        }
      case HalfOpen =>
        halfOpenRequests := (halfOpenRequests + WRAP - 1) % WRAP;
        state, lastFailureTime := Open, now;
        NotifyStateChange(HalfOpen, Open);
      case Open => lastFailureTime := now;
    }

    method ResetCircuit()
      modifies this
      ensures Value() == Reset(old(Value()))
    {
      var before := state;
      state, failureCount, successCount, halfOpenRequests := Closed, 0, 0, 0;
      if before != Closed {
        NotifyStateChange(before, Closed);
      }
    }

    /** Execute with no other call in between; `ok` is what the protected function returns. */
    method Execute(now: int, ok: bool, later: int) returns (r: Outcome)
      modifies this
      ensures var (b, allowed) := Allow(old(Value()), config, now);
        && (r == if allowed then Ran(ok) else Refused)
        && Value() == if !allowed then b else if ok then Succeed(b, config) else Fail(b, config, later)
    {
      var allowed := AllowRequest(now);
      if !allowed {
        return Refused;
      }
      if ok {
        RecordSuccess();
      } else {
        RecordFailure(later);
      }
      return Ran(ok);
    }
  }

  // ----- all interleavings

  /** When a call was admitted: while closed, or by the n-th half-open episode. */
  datatype Ticket = Ordinary | Probe(episode: nat)

  /** The breaker with the calls that are still out. `strays` counts the outcomes recorded in
      the current half-open episode that it did not admit; `recorded` are the outcomes since
      the breaker last changed state or was reset. */
  datatype System = System(b: Breaker, out: multiset<Ticket>, episode: nat, strays: nat, recorded: seq<bool>)

  datatype Event =
    | Ask(now: int)
    | Finish(ticket: Ticket, ok: bool, now: int)  // an admitted call records its outcome
    | Intrude(ok: bool, now: int)                 // an outcome without an admission
    | ResetAll

  const START := System(NEW, multiset{}, 0, 0, [])

  function Record(s: System, c: Config, own: bool, ok: bool, now: int): System {
    var b := if ok then Succeed(s.b, c) else Fail(s.b, c, now);
    s.(b := b,
       strays := if s.b.state == HalfOpen && !own then s.strays + 1 else s.strays,
       recorded := if b.state == s.b.state then s.recorded + [ok] else [])
  }

  function Step(s: System, c: Config, e: Event): System {
    match e
    case Ask(now) =>
      var (b, allowed) := Allow(s.b, c, now);
      var entered := b.state != s.b.state;
      var episode := if entered then s.episode + 1 else s.episode;
      System(b,
             if allowed then s.out + multiset{if b.state == HalfOpen then Probe(episode) else Ordinary} else s.out,
             episode, if entered then 0 else s.strays, if entered then [] else s.recorded)
    case Finish(ticket, ok, now) =>
      if ticket !in s.out then s
      else Record(s.(out := s.out - multiset{ticket}), c, ticket == Probe(s.episode), ok, now)
    case Intrude(ok, now) => Record(s, c, false, ok, now)
    case ResetAll => s.(b := Reset(s.b), recorded := [])
  }

  function Run(s: System, c: Config, events: seq<Event>): System
    decreases |events|
  {
    if events == [] then s else Run(Step(s, c, events[0]), c, events[1..])
  }

  function Trailing(outcomes: seq<bool>): nat {
    if outcomes == [] || outcomes[|outcomes| - 1] then 0 else 1 + Trailing(outcomes[..|outcomes| - 1])
  }

  /** The callback hears a path from Closed to the current state. */
  predicate Path(changes: seq<(CircuitState, CircuitState)>, to: CircuitState) {
    if changes == [] then to == Closed
    else
      var last := changes[|changes| - 1];
      && last.1 == to && last.0 != to
      && (last.0 == Closed ==> to == Open) && (last.0 == Open ==> to != Open)
      && Path(changes[..|changes| - 1], last.0)
  }

  predicate Slots(s: System, c: Config) {
    && s.b.halfOpenRequests < WRAP
    && (forall t :: t in s.out && t.Probe? ==> t.episode <= s.episode)
    && (s.b.state == HalfOpen ==>
          && Balanced(s.b.halfOpenRequests, s.strays, s.out[Probe(s.episode)])
          && (s.strays == 0 ==> s.out[Probe(s.episode)] == s.b.halfOpenRequests <= c.halfOpenMax))
  }

  predicate Balanced(slots: nat, strays: nat, probes: nat) {
    (slots + strays - probes) % WRAP == 0
  }

  predicate Counts(s: System, c: Config) {
    && (s.b.state == HalfOpen ==>
          s.b.successes == |s.recorded| && (|s.recorded| == 0 || |s.recorded| < c.successThreshold))
    && (s.b.state == Closed ==>
          s.b.failures == Trailing(s.recorded) && (s.b.failures == 0 || s.b.failures < c.failureThreshold))
  }

  predicate Invariant(s: System, c: Config) {
    c.Valid() && Slots(s, c) && Counts(s, c) && Path(s.b.changes, s.b.state)
  }

  lemma DownByOne(slots: nat, strays: nat, probes: nat)
    requires slots < WRAP && Balanced(slots, strays, probes)
    ensures Balanced((slots + WRAP - 1) % WRAP, strays + 1, probes)
    ensures probes > 0 ==> Balanced((slots + WRAP - 1) % WRAP, strays, probes - 1)
  {
    if slots == 0 {
      assert (slots + WRAP - 1) % WRAP + (strays + 1) - probes == (slots + strays - probes) + WRAP;
    } else {
      assert (slots + WRAP - 1) % WRAP == slots - 1;
    }
  }

  lemma PathExtends(changes: seq<(CircuitState, CircuitState)>, from: CircuitState, to: CircuitState)
    requires Path(changes, from) && from != to && (from == Closed ==> to == Open)
    ensures Path(changes + [(from, to)], to)
  {
    assert (changes + [(from, to)])[..|changes|] == changes;
  }

  lemma TrailingSnoc(outcomes: seq<bool>, ok: bool)
    ensures Trailing(outcomes + [ok]) == if ok then 0 else 1 + Trailing(outcomes)
  {
    assert (outcomes + [ok])[..|outcomes|] == outcomes;
  }

  lemma AskKeepsSlots(s: System, c: Config, now: int)
    requires Invariant(s, c)
    ensures Slots(Step(s, c, Ask(now)), c)
  {
  }

  lemma AskKeepsRest(s: System, c: Config, now: int)
    requires Invariant(s, c)
    ensures var s1 := Step(s, c, Ask(now)); Counts(s1, c) && Path(s1.b.changes, s1.b.state)
  {
    if s.b.state == Open {
      PathExtends(s.b.changes, Open, HalfOpen);
    }
  }

  /** The calls out after an outcome, which belongs to the current episode if `own`. */
  predicate OutAfter(s: System, out: multiset<Ticket>, own: bool) {
    && out <= s.out
    && (own ==> s.out[Probe(s.episode)] > 0 && out[Probe(s.episode)] == s.out[Probe(s.episode)] - 1)
    && (!own ==> out[Probe(s.episode)] == s.out[Probe(s.episode)])
  }

  lemma RecordKeepsSlots(s: System, c: Config, out: multiset<Ticket>, own: bool, ok: bool, now: int)
    requires Invariant(s, c) && OutAfter(s, out, own)
    ensures Slots(Record(s.(out := out), c, own, ok, now), c)
  {
    if s.b.state == HalfOpen {
      DownByOne(s.b.halfOpenRequests, s.strays, s.out[Probe(s.episode)]);
    }
  }

  lemma RecordKeepsCounts(s: System, c: Config, out: multiset<Ticket>, own: bool, ok: bool, now: int)
    requires Invariant(s, c)
    ensures Counts(Record(s.(out := out), c, own, ok, now), c)
  {
    TrailingSnoc(s.recorded, ok);
  }

  lemma RecordKeepsPath(s: System, c: Config, out: multiset<Ticket>, own: bool, ok: bool, now: int)
    requires Invariant(s, c)
    ensures var b := Record(s.(out := out), c, own, ok, now).b; Path(b.changes, b.state)
  {
    if s.b.state == Closed {
      PathExtends(s.b.changes, Closed, Open);
    } else if s.b.state == HalfOpen {
      PathExtends(s.b.changes, HalfOpen, Closed);
      PathExtends(s.b.changes, HalfOpen, Open);
    }
  }

  lemma RecordKeeps(s: System, c: Config, out: multiset<Ticket>, own: bool, ok: bool, now: int)
    requires Invariant(s, c) && OutAfter(s, out, own)
    ensures Invariant(Record(s.(out := out), c, own, ok, now), c)
  {
    RecordKeepsSlots(s, c, out, own, ok, now);
    RecordKeepsCounts(s, c, out, own, ok, now);
    RecordKeepsPath(s, c, out, own, ok, now);
  }

  lemma StepKeeps(s: System, c: Config, e: Event)
    requires Invariant(s, c)
    ensures Invariant(Step(s, c, e), c)
  {
    match e
    case Ask(now) =>
      AskKeepsSlots(s, c, now);
      AskKeepsRest(s, c, now);
    case Finish(ticket, ok, now) =>
      if ticket in s.out {
        RecordKeeps(s, c, s.out - multiset{ticket}, ticket == Probe(s.episode), ok, now);
      }
    case Intrude(ok, now) => RecordKeeps(s, c, s.out, false, ok, now);
    case ResetAll =>
      if s.b.state != Closed {
        PathExtends(s.b.changes, s.b.state, Closed);
      }
  }

  lemma {:induction false} RunKeeps(s: System, c: Config, events: seq<Event>)
    requires Invariant(s, c)
    ensures Invariant(Run(s, c, events), c)
    decreases |events|
  {
    if events != [] {
      StepKeeps(s, c, events[0]);
      RunKeeps(Step(s, c, events[0]), c, events[1..]);
    }
  }

  lemma SameRemainder(h: nat, d: int)
    requires h < WRAP && (h - d) % WRAP == 0
    ensures h == d % WRAP
  {
  }

  lemma SlotsOf(s: System, c: Config)
    requires Invariant(s, c) && s.b.state == HalfOpen
    ensures var probes := s.out[Probe(s.episode)];
      && s.b.halfOpenRequests == (probes - s.strays) % WRAP
      && (probes < WRAP ==> (s.b.halfOpenRequests == probes <==> s.strays % WRAP == 0))
      && (s.strays == 0 ==> probes <= c.halfOpenMax)
  {
    var probes := s.out[Probe(s.episode)];
    SameRemainder(s.b.halfOpenRequests, probes - s.strays);
    if probes < WRAP && s.strays % WRAP == 0 {
      SameRemainder(s.b.halfOpenRequests, probes);
    }
  }

  /** Over every run, without any assumption: while half-open the slot counter is the number of
      probes out minus the stray outcomes, modulo 2^32. So it is that number exactly when the
      strays are a multiple of 2^32, and with no stray at all the probes stay within the maximum. */
  lemma SlotsCountProbes(c: Config, events: seq<Event>)
    requires c.Valid()
    ensures var s := Run(START, c, events); var probes := s.out[Probe(s.episode)];
      s.b.state == HalfOpen ==>
        && s.b.halfOpenRequests == (probes - s.strays) % WRAP
        && (probes < WRAP ==> (s.b.halfOpenRequests == probes <==> s.strays % WRAP == 0))
        && (s.strays == 0 ==> probes <= c.halfOpenMax)
  {
    var s := Run(START, c, events);
    RunKeeps(START, c, events);
    if s.b.state == HalfOpen {
      SlotsOf(s, c);
    }
  }

  lemma FailuresOf(s: System, c: Config, now: int)
    requires Invariant(s, c) && s.b.state == Closed
    ensures s.b.failures == Trailing(s.recorded)
    ensures Fail(s.b, c, now).state == Open <==> Trailing(s.recorded + [false]) >= c.failureThreshold
  {
    TrailingSnoc(s.recorded, false);
  }

  /** In Closed the failure count is the length of the trailing run of failures, and one more
      failure opens the breaker exactly when that run reaches the threshold. */
  lemma FailuresAreTheTrailingRun(c: Config, events: seq<Event>, now: int)
    requires c.Valid()
    ensures var s := Run(START, c, events);
      s.b.state == Closed ==>
        && s.b.failures == Trailing(s.recorded)
        && (Fail(s.b, c, now).state == Open <==> Trailing(s.recorded + [false]) >= c.failureThreshold)
  {
    var s := Run(START, c, events);
    RunKeeps(START, c, events);
    if s.b.state == Closed {
      FailuresOf(s, c, now);
    }
  }

  /** In half-open every recorded outcome was a success, and one more closes the breaker
      exactly when their number reaches the threshold; and over every run the callback hears a
      path of permitted changes that leads from Closed to the current state. */
  lemma SuccessesAndChanges(c: Config, events: seq<Event>)
    requires c.Valid()
    ensures var s := Run(START, c, events);
      && (s.b.state == HalfOpen ==>
            && s.b.successes == |s.recorded|
            && (Succeed(s.b, c).state == Closed <==> |s.recorded| + 1 >= c.successThreshold))
      && Path(s.b.changes, s.b.state)
  {
    RunKeeps(START, c, events);
  }

  predicate During(e: Event, from: int, until: int) {
    match e
    case Ask(now) => now < until
    case Finish(_, _, now) => from <= now
    case Intrude(_, now) => from <= now
    case ResetAll => false
  }

  lemma OpenStays(s: System, c: Config, e: Event, from: int)
    requires s.b.state == Open && s.b.lastFailure >= from && During(e, from, from + c.recoveryTimeout)
    ensures var s1 := Step(s, c, e); s1.b.state == Open && s1.b.lastFailure >= from && s1.out <= s.out
  {
  }

  /** While open, and until the recovery timeout has passed since the last failure, nothing is
      admitted and the breaker stays open, whatever outcomes are recorded meanwhile. */
  lemma {:induction false} NothingAdmittedBeforeRecovery(s: System, c: Config, events: seq<Event>, from: int)
    requires s.b.state == Open && s.b.lastFailure >= from
    requires forall k :: 0 <= k < |events| ==> During(events[k], from, from + c.recoveryTimeout)
    ensures Run(s, c, events).b.state == Open && Run(s, c, events).out <= s.out
    decreases |events|
  {
    if events != [] {
      OpenStays(s, c, events[0], from);
      NothingAdmittedBeforeRecovery(Step(s, c, events[0]), c, events[1..], from);
    }
  }

  /** The event records a failure. */
  predicate FailsAt(s: System, e: Event) {
    (e.Finish? && e.ticket in s.out && !e.ok) || (e.Intrude? && !e.ok)
  }

  /** The time of the last failure that a run records, or `before`. */
  function LastFailure(s: System, c: Config, events: seq<Event>, before: int): int
    decreases |events|
  {
    if events == [] then before
    else LastFailure(Step(s, c, events[0]), c, events[1..], if FailsAt(s, events[0]) then events[0].now else before)
  }

  lemma OpenKeepsTime(s: System, c: Config, e: Event, t: int)
    requires s.b.state == Open ==> s.b.lastFailure == t
    ensures var s1 := Step(s, c, e);
      s1.b.state == Open ==> s1.b.lastFailure == if FailsAt(s, e) then e.now else t
  {
    match e
    case Ask(_) =>
    case Finish(ticket, ok, now) =>
      RecordKeepsTime(s, c, s.out - multiset{ticket}, ticket == Probe(s.episode), ok, now, t);
    case Intrude(ok, now) => RecordKeepsTime(s, c, s.out, false, ok, now, t);
    case ResetAll =>
  }

  lemma RecordKeepsTime(s: System, c: Config, out: multiset<Ticket>, own: bool, ok: bool, now: int, t: int)
    requires s.b.state == Open ==> s.b.lastFailure == t
    ensures var b := Record(s.(out := out), c, own, ok, now).b;
      b.state == Open ==> b.lastFailure == if ok then t else now
  {
  }

  lemma {:induction false} OpenSince(s: System, c: Config, events: seq<Event>, t: int)
    requires s.b.state == Open ==> s.b.lastFailure == t
    ensures var s1 := Run(s, c, events); s1.b.state == Open ==> s1.b.lastFailure == LastFailure(s, c, events, t)
    decreases |events|
  {
    hide Step;
    if events != [] {
      OpenKeepsTime(s, c, events[0], t);
      OpenSince(Step(s, c, events[0]), c, events[1..], if FailsAt(s, events[0]) then events[0].now else t);
    }
  }

  /** Over every run, an open breaker admits a request exactly if the recovery timeout has passed
      since the last failure recorded, and there is a slot at all. */
  lemma AdmitsExactlyAfterRecovery(c: Config, events: seq<Event>, now: int)
    ensures var s := Run(START, c, events);
      s.b.state == Open ==>
        (Allow(s.b, c, now).1 <==> now - LastFailure(START, c, events, 0) >= c.recoveryTimeout && c.halfOpenMax > 0)
  {
    OpenSince(START, c, events, 0);
  }

  lemma {:induction false} RunConcat(s: System, c: Config, a: seq<Event>, b: seq<Event>)
    ensures Run(s, c, a + b) == Run(Run(s, c, a), c, b)
    decreases |a|
  {
    if a == [] {
      assert a + b == b;
    } else {
      assert (a + b)[1..] == a[1..] + b;
      RunConcat(Step(s, c, a[0]), c, a[1..], b);
    }
  }

  /** Calls that are admitted at time 0 and fail at once. */
  function Failing(n: nat): seq<Event> {
    if n == 0 then [] else [Ask(0), Finish(Ordinary, false, 0)] + Failing(n - 1)
  }

  function Limit(c: Config): nat {
    if c.failureThreshold == 0 then 1 else c.failureThreshold
  }

  lemma RunTwo(s: System, c: Config, e0: Event, e1: Event, rest: seq<Event>)
    ensures Run(s, c, [e0, e1] + rest) == Run(Step(Step(s, c, e0), c, e1), c, rest)
  {
    var events := [e0, e1] + rest;
    assert events[1..] == [e1] + rest;
    assert events[1..][1..] == rest;
  }

  lemma AskWhileClosed(s: System, c: Config)
    requires s.b.state == Closed
    ensures Step(s, c, Ask(0)) == s.(out := s.out + multiset{Ordinary})
  {
  }

  /** An ordinary call that fails counts, and opens the breaker at the limit. */
  lemma FailureStep(s: System, c: Config)
    requires c.Valid() && s.b.state == Closed && s.b.failures < Limit(c)
    ensures var s1 := Step(Step(s, c, Ask(0)), c, Finish(Ordinary, false, 0));
      && s1.out == s.out && s1.episode == s.episode
      && (s.b.failures + 1 < Limit(c) ==> s1.b.state == Closed && s1.b.failures == s.b.failures + 1)
      && (s.b.failures + 1 == Limit(c) ==> s1.b.state == Open && s1.b.lastFailure == 0)
  {
    var s1 := s.(out := s.out + multiset{Ordinary});
    AskWhileClosed(s, c);
    assert s1.out - multiset{Ordinary} == s.out;
    assert Step(s1, c, Finish(Ordinary, false, 0)) == Record(s, c, false, false, 0);
  }

  lemma {:induction false} FailuresOpen(s: System, c: Config, n: nat)
    requires c.Valid() && s.b.state == Closed && s.b.failures + n == Limit(c) && n > 0
    ensures var s1 := Run(s, c, Failing(n));
      s1.b.state == Open && s1.b.lastFailure == 0 && s1.out == s.out && s1.episode == s.episode
    decreases n
  {
    hide Step;
    var s1 := Step(Step(s, c, Ask(0)), c, Finish(Ordinary, false, 0));
    FailureStep(s, c);
    RunTwo(s, c, Ask(0), Finish(Ordinary, false, 0), Failing(n - 1));
    if n > 1 {
      FailuresOpen(s1, c, n - 1);
    } else {
      assert Run(s1, c, Failing(0)) == s1;
    }
  }

  /** Half-open with no call out, and every request is refused without a change. */
  ghost predicate Jammed(s: System, c: Config) {
    s.b.state == HalfOpen && s.out == multiset{} && forall now :: !Allow(s.b, c, now).1 && Step(s, c, Ask(now)) == s
  }

  ghost predicate JamsAfter(c: Config, events: seq<Event>) {
    Jammed(Run(START, c, events), c)
  }

  /** One call is out while others fail; behind the recovery timeout a probe comes back well, and
      then the late call does. */
  function StrayRun(c: Config): seq<Event> {
    [Ask(0)] + (Failing(Limit(c)) + StrayEnd(c.recoveryTimeout))
  }

  function StrayEnd(now: int): seq<Event> {
    [Ask(now), Finish(Probe(1), true, now)] + ([Finish(Ordinary, true, now)] + [])
  }

  lemma EntersHalfOpen(s: System, c: Config, now: int)
    requires c.Valid() && c.halfOpenMax > 0
    requires s.b.state == Open && now - s.b.lastFailure >= c.recoveryTimeout && s.episode == 0
    ensures var s1 := Step(s, c, Ask(now));
      && s1.out == s.out + multiset{Probe(1)} && s1.episode == 1
      && s1.b.state == HalfOpen && s1.b.halfOpenRequests == 1 && s1.b.successes == 0
  {
  }

  lemma SuccessStep(s: System, c: Config, ticket: Ticket, now: int)
    requires s.b.state == HalfOpen && ticket in s.out && s.b.successes + 1 < c.successThreshold < WRAP
    ensures var s1 := Step(s, c, Finish(ticket, true, now));
      && s1.out == s.out - multiset{ticket}
      && s1.b == s.b.(
           successes := s.b.successes + 1, halfOpenRequests := (s.b.halfOpenRequests + WRAP - 1) % WRAP)
  {
  }

  lemma NoSlotIsJam(s: System, c: Config)
    requires s.b.state == HalfOpen && s.out == multiset{} && s.b.halfOpenRequests >= c.halfOpenMax
    ensures Jammed(s, c)
  {
  }

  lemma StrayEndJams(s: System, c: Config, now: int)
    requires c.Valid() && c.halfOpenMax > 0 && c.successThreshold > 2
    requires s.b.state == Open && now - s.b.lastFailure >= c.recoveryTimeout
    requires s.out == multiset{Ordinary} && s.episode == 0
    ensures Jammed(Run(s, c, StrayEnd(now)), c)
  {
    hide Step, Jammed;
    var s1 := Step(s, c, Ask(now));
    var s2 := Step(s1, c, Finish(Probe(1), true, now));
    var s3 := Step(s2, c, Finish(Ordinary, true, now));
    RunTwo(s, c, Ask(now), Finish(Probe(1), true, now), [Finish(Ordinary, true, now)] + []);
    assert Run(s2, c, [Finish(Ordinary, true, now)] + []) == s3;
    EntersHalfOpen(s, c, now);
    SuccessStep(s1, c, Probe(1), now);
    assert s2.out == multiset{Ordinary};
    SuccessStep(s2, c, Ordinary, now);
    assert s3.out == multiset{} && s3.b.halfOpenRequests == WRAP - 1;
    NoSlotIsJam(s3, c);
  }

  lemma StrayRunJams(c: Config)
    requires c.Valid() && c.halfOpenMax > 0 && c.successThreshold > 2
    ensures JamsAfter(c, StrayRun(c))
  {
    var first := Step(START, c, Ask(0));
    var rest := Failing(Limit(c)) + StrayEnd(c.recoveryTimeout);
    assert first.out == multiset{Ordinary};
    assert StrayRun(c)[1..] == rest;
    FailuresOpen(first, c, Limit(c));
    RunConcat(first, c, Failing(Limit(c)), StrayEnd(c.recoveryTimeout));
    StrayEndJams(Run(first, c, Failing(Limit(c))), c, c.recoveryTimeout);
  }

  /** Without a single slot the first request behind the recovery timeout is enough. */
  lemma NoSlotsJam(c: Config)
    requires c.Valid() && c.halfOpenMax == 0
    ensures JamsAfter(c, Failing(Limit(c)) + [Ask(c.recoveryTimeout)])
  {
    var s := Run(START, c, Failing(Limit(c)));
    FailuresOpen(START, c, Limit(c));
    RunConcat(START, c, Failing(Limit(c)), [Ask(c.recoveryTimeout)]);
    assert Run(s, c, [Ask(c.recoveryTimeout)]) == Step(s, c, Ask(c.recoveryTimeout));
  }

  /** The request that entered the episode is out, or one of the recorded outcomes is its own. */
  predicate HasProbe(s: System) {
    s.b.state == HalfOpen ==> s.strays <= |s.recorded| && |s.recorded| - s.strays + s.out[Probe(s.episode)] >= 1
  }

  lemma RecordHasProbe(s: System, c: Config, out: multiset<Ticket>, own: bool, ok: bool, now: int)
    requires HasProbe(s) && OutAfter(s, out, own)
    ensures HasProbe(Record(s.(out := out), c, own, ok, now))
  {
  }

  lemma StepHasProbe(s: System, c: Config, e: Event)
    requires c.halfOpenMax > 0 && HasProbe(s)
    ensures HasProbe(Step(s, c, e))
  {
    match e
    case Ask(_) =>
    case Finish(ticket, ok, now) =>
      if ticket in s.out {
        RecordHasProbe(s, c, s.out - multiset{ticket}, ticket == Probe(s.episode), ok, now);
      }
    case Intrude(ok, now) => RecordHasProbe(s, c, s.out, false, ok, now);
    case ResetAll =>
  }

  lemma {:induction false} RunHasProbe(s: System, c: Config, events: seq<Event>)
    requires c.halfOpenMax > 0 && HasProbe(s)
    ensures HasProbe(Run(s, c, events))
    decreases |events|
  {
    if events != [] {
      StepHasProbe(s, c, events[0]);
      RunHasProbe(Step(s, c, events[0]), c, events[1..]);
    }
  }

  lemma FewSuccessesDoNotJam(c: Config, events: seq<Event>)
    requires c.Valid() && c.halfOpenMax > 0 && c.successThreshold <= 2
    ensures !JamsAfter(c, events)
  {
    var s := Run(START, c, events);
    RunKeeps(START, c, events);
    RunHasProbe(START, c, events);
    if s.b.state == HalfOpen && s.out == multiset{} {
      SlotsOf(s, c);
      assert s.b.halfOpenRequests == 0;
      assert Allow(s.b, c, 0).1;
    }
  }

  /** A run from the start can jam the breaker, so that every admitted call has come back and
      still no request is admitted, exactly if the configuration has no slot at all or needs
      three successes to close: then the outcome of a call from before the episode takes the
      slot counter below zero. */
  lemma StrayOutcomeJams(c: Config)
    requires c.Valid()
    ensures (exists events :: JamsAfter(c, events)) <==> c.halfOpenMax == 0 || c.successThreshold > 2
  {
    if c.halfOpenMax == 0 {
      NoSlotsJam(c);
    } else if c.successThreshold > 2 {
      StrayRunJams(c);
    } else {
      forall events ensures !JamsAfter(c, events) {
        FewSuccessesDoNotJam(c, events);
      }
    }
  }
}
