/**
 The per-host breakers of internal/resilience/circuitbreaker.go: created on first
 use in a sharded map, and removed by Cleanup when closed with no failures.  The main
 law is that Cleanup cannot be observed through Allow, Success, Failure, State and
 Reset, and that its guard is exactly the one with that property.
 */
module HostBreakers {
  import opened Breaker
  import B = Breaker
  import ShardedMap

  type Hosts = map<string, Breaker>

  /** getOrCreate: a host without a breaker has a new one. */
  function Lookup(cfg: Config, hosts: Hosts, h: string): Breaker {
    if h in hosts then hosts[h] else New(cfg)
  }

  datatype HostOp = On(host: string, event: Event, at: int) | Cleanup

  predicate Idle(b: Breaker) {
    b.state == Closed && b.failureCount == 0
  }

  function Cleaned(hosts: Hosts): Hosts {
    map h | h in hosts && !Idle(hosts[h]) :: hosts[h]
  }

  function Step(cfg: Config, hosts: Hosts, op: HostOp): (Hosts, Answer) {
    match op
    case On(h, e, t) =>
      var (b, a) := Apply(cfg, Lookup(cfg, hosts, h), e, t);
      (hosts[h := b], a)
    case Cleanup => (Cleaned(hosts), Done)
  }

  /** The answers to the calls of a sequence, Cleanup itself giving none. */
  function Answers(cfg: Config, hosts: Hosts, ops: seq<HostOp>): seq<Answer>
    decreases |ops|
  {
    if ops == [] then []
    else
      var (hosts', a) := Step(cfg, hosts, ops[0]);
      (if ops[0].Cleanup? then [] else [a]) + Answers(cfg, hosts', ops[1..])
  }

  function WithoutCleanups(ops: seq<HostOp>): seq<HostOp> {
    if ops == [] then []
    else (if ops[0].Cleanup? then [] else [ops[0]]) + WithoutCleanups(ops[1..])
  }

  // ---------- what of a breaker can be observed ----------

  /** Two breakers no sequence of calls can tell apart: same state, and the same values of the fields
      that state will ever read, or two closed breakers that the next failure trips. */
  ghost predicate Alike(cfg: Config, a: Breaker, b: Breaker) {
    && a.state == b.state
    && (a.state == Closed ==> a.failureCount == b.failureCount || (TripsNext(cfg, a) && TripsNext(cfg, b)))
    && (a.state == Open ==> a.lastFailure == b.lastFailure)
    && (a.state == HalfOpen ==>
          a.successCount == b.successCount && a.halfOpenSince == b.halfOpenSince && a.probes == b.probes)
  }

  predicate TripsNext(cfg: Config, b: Breaker) {
    b.failureCount + 1 >= cfg.failureThreshold
  }

  lemma AlikeStep(cfg: Config, a: Breaker, b: Breaker, e: Event, t: int)
    requires Alike(cfg, a, b)
    ensures Alike(cfg, Apply(cfg, a, e, t).0, Apply(cfg, b, e, t).0)
    ensures Apply(cfg, a, e, t).1 == Apply(cfg, b, e, t).1
  {
  }

  ghost predicate AllAlike(cfg: Config, g: Hosts, h: Hosts) {
    forall k :: Alike(cfg, Lookup(cfg, g, k), Lookup(cfg, h, k))
  }

  lemma CleanedAlike(cfg: Config, g: Hosts, h: Hosts)
    requires AllAlike(cfg, g, h)
    ensures AllAlike(cfg, Cleaned(g), h)
  {
  }

  lemma CallAlike(cfg: Config, g: Hosts, h: Hosts, host: string, e: Event, t: int)
    requires AllAlike(cfg, g, h)
    ensures AllAlike(cfg, Step(cfg, g, On(host, e, t)).0, Step(cfg, h, On(host, e, t)).0)
    ensures Step(cfg, g, On(host, e, t)).1 == Step(cfg, h, On(host, e, t)).1
  {
    hide Alike, Apply;
    AlikeStep(cfg, Lookup(cfg, g, host), Lookup(cfg, h, host), e, t);
    var g', h' := Step(cfg, g, On(host, e, t)).0, Step(cfg, h, On(host, e, t)).0;
    forall k ensures Alike(cfg, Lookup(cfg, g', k), Lookup(cfg, h', k)) {
      assert Alike(cfg, Lookup(cfg, g, k), Lookup(cfg, h, k));
    }
  }

  lemma {:induction false} CleanupsInvisible(cfg: Config, g: Hosts, h: Hosts, ops: seq<HostOp>)
    requires AllAlike(cfg, g, h)
    ensures Answers(cfg, g, ops) == Answers(cfg, h, WithoutCleanups(ops))
    decreases |ops|
  {
    hide AllAlike, Apply, Lookup, Cleaned;
    if ops != [] {
      var rest := WithoutCleanups(ops[1..]);
      if ops[0].Cleanup? {
        CleanedAlike(cfg, g, h);
        CleanupsInvisible(cfg, Cleaned(g), h, ops[1..]);
        assert [] + rest == rest;
      } else {
        var op := ops[0];
        CallAlike(cfg, g, h, op.host, op.event, op.at);
        CleanupsInvisible(cfg, Step(cfg, g, op).0, Step(cfg, h, op).0, ops[1..]);
        assert WithoutCleanups(ops)[1..] == rest;
      }
    }
  }

  /** Cleanup is unobservable: from any breakers, inserting any number of Cleanups anywhere into any
      sequence of calls on any hosts changes no answer. */
  lemma CleanupUnobservable(cfg: Config, hosts: Hosts, ops: seq<HostOp>)
    ensures Answers(cfg, hosts, ops) == Answers(cfg, hosts, WithoutCleanups(ops))
  {
    CleanupsInvisible(cfg, hosts, hosts, ops);
  }

  // ---------- the guard is exact ----------

  /** Calls on one host, all at the same time. */
  function Repeat(host: string, e: Event, at: int, n: nat): (ops: seq<HostOp>)
    ensures |ops| == n
  {
    seq(n, _ => On(host, e, at))
  }

  ghost predicate Distinguishes(cfg: Config, host: string, b: Breaker, ops: seq<HostOp>) {
    Answers(cfg, map[host := b], ops) != Answers(cfg, map[], ops)
  }

  lemma {:induction false} AfterFailures(cfg: Config, host: string, hosts: Hosts, at: int, n: nat)
    requires Lookup(cfg, hosts, host).state == Closed && n > 0
    ensures var ops := Repeat(host, DoFailure, at, n) + [On(host, DoState, at)];
      var answers := Answers(cfg, hosts, ops);
      |answers| == n + 1 &&
      answers[n] == Is(if Lookup(cfg, hosts, host).failureCount + n >= cfg.failureThreshold then Open else Closed)
    decreases n
  {
    var ops := Repeat(host, DoFailure, at, n) + [On(host, DoState, at)];
    var hosts' := Step(cfg, hosts, ops[0]).0;
    var b := Lookup(cfg, hosts, host);
    assert ops[1..] == Repeat(host, DoFailure, at, n - 1) + [On(host, DoState, at)];
    if n == 1 {
      AnswersToState(cfg, host, hosts', at);
      assert Repeat(host, DoFailure, at, 0) + [On(host, DoState, at)] == [On(host, DoState, at)];
    } else if b.failureCount + 1 < cfg.failureThreshold {
      AfterFailures(cfg, host, hosts', at, n - 1);
    } else {
      StaysOpen(cfg, host, hosts', at, n - 1);
    }
  }

  lemma AnswersToState(cfg: Config, host: string, hosts: Hosts, at: int)
    ensures Answers(cfg, hosts, [On(host, DoState, at)]) == [Is(Lookup(cfg, hosts, host).state)]
  {
  }

  lemma {:induction false} StaysOpen(cfg: Config, host: string, hosts: Hosts, at: int, n: nat)
    requires Lookup(cfg, hosts, host).state == Open
    ensures var ops := Repeat(host, DoFailure, at, n) + [On(host, DoState, at)];
      |Answers(cfg, hosts, ops)| == n + 1 && Answers(cfg, hosts, ops)[n] == Is(Open)
    decreases n
  {
    var ops := Repeat(host, DoFailure, at, n) + [On(host, DoState, at)];
    if n == 0 {
      AnswersToState(cfg, host, hosts, at);
      assert ops == [On(host, DoState, at)];
    } else {
      assert ops[1..] == Repeat(host, DoFailure, at, n - 1) + [On(host, DoState, at)];
      StaysOpen(cfg, host, Step(cfg, hosts, ops[0]).0, at, n - 1);
    }
  }

  /** Closed, and as many failures away from tripping as a new breaker is. */
  predicate Forgettable(cfg: Config, b: Breaker) {
    b.state == Closed && (b.failureCount == 0 || (TripsNext(cfg, b) && TripsNext(cfg, New(cfg))))
  }

  /** For every breaker: forgetting it is unobservable exactly when it is forgettable. */
  lemma ForgettableIff(cfg: Config, host: string, b: Breaker)
    ensures Forgettable(cfg, b) <==> forall ops :: !Distinguishes(cfg, host, b, ops)
  {
    if Forgettable(cfg, b) {
      forall ops ensures !Distinguishes(cfg, host, b, ops) {
        assert AllAlike(cfg, map[host := b], map[]);
        CleanupsInvisible(cfg, map[host := b], map[], ops);
        CleanupUnobservable(cfg, map[], ops);
      }
    } else {
      var ops := Telling(cfg, host, map[host := b], map[]);
      assert Distinguishes(cfg, host, b, ops);
    }
  }

  function FailuresToTrip(cfg: Config, b: Breaker): (n: nat)
    ensures n > 0
  {
    if TripsNext(cfg, b) then 1 else cfg.failureThreshold - b.failureCount
  }

  /** The breaker after any calls, Reset among them, on any clock. */
  function After(cfg: Config, calls: seq<Call>): Breaker {
    if calls == [] then New(cfg)
    else
      var c := calls[|calls| - 1];
      Apply(cfg, After(cfg, calls[..|calls| - 1]), c.event, c.at).0
  }

  lemma {:induction false} ClosedBelowThreshold(cfg: Config, calls: seq<Call>)
    ensures var b := After(cfg, calls);
      b.failureCount >= 0 && (b.state == Closed && b.failureCount > 0 ==> b.failureCount < cfg.failureThreshold)
  {
    if calls != [] {
      ClosedBelowThreshold(cfg, calls[..|calls| - 1]);
    }
  }

  /** So of every reachable breaker: forgetting it is unobservable exactly when Cleanup would remove it. */
  lemma CleanupGuardIsExact(cfg: Config, host: string, calls: seq<Call>)
    ensures Idle(After(cfg, calls)) <==> forall ops :: !Distinguishes(cfg, host, After(cfg, calls), ops)
  {
    hide Distinguishes;
    ClosedBelowThreshold(cfg, calls);
    ForgettableIff(cfg, host, After(cfg, calls));
  }

  /** After a Reset no sequence of calls can tell the breaker from a new one. */
  lemma ResetForgets(cfg: Config, host: string, b: Breaker)
    ensures forall ops :: !Distinguishes(cfg, host, Reset(b), ops)
  {
    hide Distinguishes;
    ForgettableIff(cfg, host, Reset(b));
  }

  // ---------- one host at a time ----------

  /** The calls on one host, with the Cleanups among them. */
  function Only(ops: seq<HostOp>, h: string): seq<HostOp> {
    if ops == [] then []
    else (if ops[0].On? && ops[0].host != h then [] else [ops[0]]) + Only(ops[1..], h)
  }

  /** The answers that the calls on one host get among all calls. */
  function AnswersOn(cfg: Config, hosts: Hosts, ops: seq<HostOp>, h: string): seq<Answer>
    decreases |ops|
  {
    if ops == [] then []
    else
      var (hosts', a) := Step(cfg, hosts, ops[0]);
      (if ops[0].On? && ops[0].host == h then [a] else []) + AnswersOn(cfg, hosts', ops[1..], h)
  }

  /** Hosts do not influence each other: the calls on a host get the answers that they would get alone. */
  lemma {:induction false} HostsAreIndependent(cfg: Config, hosts: Hosts, alone: Hosts, ops: seq<HostOp>, h: string)
    requires Lookup(cfg, alone, h) == Lookup(cfg, hosts, h)
    ensures AnswersOn(cfg, hosts, ops, h) == Answers(cfg, alone, Only(ops, h))
    decreases |ops|
  {
    hide Apply;
    if ops != [] {
      var op, rest := ops[0], Only(ops[1..], h);
      var hosts' := Step(cfg, hosts, op).0;
      if op.On? && op.host != h {
        HostsAreIndependent(cfg, hosts', alone, ops[1..], h);
        assert [] + rest == rest;
      } else {
        var alone' := Step(cfg, alone, op).0;
        if op.Cleanup? {
          CleanedLookup(cfg, hosts, alone, h);
        }
        HostsAreIndependent(cfg, hosts', alone', ops[1..], h);
        assert ([op] + rest)[1..] == rest;
      }
    }
  }

  lemma CleanedLookup(cfg: Config, g: Hosts, h: Hosts, host: string)
    requires Lookup(cfg, g, host) == Lookup(cfg, h, host)
    ensures Lookup(cfg, Cleaned(g), host) == Lookup(cfg, Cleaned(h), host)
  {
  }

  // ---------- calls between collecting and deleting ----------

  /** Cleanup as other goroutines see it: first the idle hosts are collected, then they are removed one by one. */
  datatype PhasedStep = Asked(host: string, event: Event, at: int) | Collect | Remove(host: string)

  function NextHosts(cfg: Config, hosts: Hosts, s: PhasedStep): Hosts {
    match s
    case Asked(h, e, t) => Step(cfg, hosts, On(h, e, t)).0
    case Collect => hosts
    case Remove(h) => hosts - {h}
  }

  function PhasedAnswers(cfg: Config, hosts: Hosts, steps: seq<PhasedStep>): seq<Answer>
    decreases |steps|
  {
    if steps == [] then []
    else
      (if steps[0].Asked? then [Step(cfg, hosts, On(steps[0].host, steps[0].event, steps[0].at)).1] else [])
      + PhasedAnswers(cfg, NextHosts(cfg, hosts, steps[0]), steps[1..])
  }

  function CallsOf(steps: seq<PhasedStep>): seq<HostOp> {
    if steps == [] then []
    else (if steps[0].Asked? then [On(steps[0].host, steps[0].event, steps[0].at)] else []) + CallsOf(steps[1..])
  }

  /** Every removal finds a breaker that can be forgotten. */
  predicate RemovesForgettable(cfg: Config, hosts: Hosts, steps: seq<PhasedStep>)
    decreases |steps|
  {
    steps == [] ||
    ((steps[0].Remove? ==> Forgettable(cfg, Lookup(cfg, hosts, steps[0].host)))
     && RemovesForgettable(cfg, NextHosts(cfg, hosts, steps[0]), steps[1..]))
  }

  lemma RemovedAlike(cfg: Config, g: Hosts, h: Hosts, host: string)
    requires AllAlike(cfg, g, h) && Forgettable(cfg, Lookup(cfg, g, host))
    ensures AllAlike(cfg, g - {host}, h)
  {
    forall k ensures Alike(cfg, Lookup(cfg, g - {host}, k), Lookup(cfg, h, k)) {
      assert Alike(cfg, Lookup(cfg, g, k), Lookup(cfg, h, k));
    }
  }

  lemma {:induction false} PhasedAlike(cfg: Config, g: Hosts, h: Hosts, steps: seq<PhasedStep>)
    requires AllAlike(cfg, g, h) && RemovesForgettable(cfg, g, steps)
    ensures PhasedAnswers(cfg, g, steps) == Answers(cfg, h, CallsOf(steps))
    decreases |steps|
  {
    hide AllAlike, Apply, Lookup, Forgettable;
    if steps != [] {
      var s, rest := steps[0], CallsOf(steps[1..]);
      if s.Asked? {
        CallAlike(cfg, g, h, s.host, s.event, s.at);
        PhasedAlike(cfg, NextHosts(cfg, g, s), Step(cfg, h, On(s.host, s.event, s.at)).0, steps[1..]);
        assert CallsOf(steps)[1..] == rest;
      } else {
        if s.Remove? {
          RemovedAlike(cfg, g, h, s.host);
        }
        PhasedAlike(cfg, NextHosts(cfg, g, s), h, steps[1..]);
        assert [] + rest == rest;
        var more := PhasedAnswers(cfg, NextHosts(cfg, g, s), steps[1..]);
        assert [] + more == more;
      }
    }
  }

  /** Hosts collected idle and not failed since. */
  function StillClean(cfg: Config, hosts: Hosts, clean: set<string>, s: PhasedStep): set<string> {
    match s
    case Asked(h, DoFailure, _) => clean - {h}
    case Asked(_, _, _) => clean
    case Collect => set h | h in hosts && Idle(hosts[h])
    case Remove(h) => clean
  }

  /** Only hosts collected idle are removed, and none on which a failure was recorded since. */
  predicate NoFailureBetween(cfg: Config, hosts: Hosts, clean: set<string>, steps: seq<PhasedStep>)
    decreases |steps|
  {
    steps == [] ||
    ((steps[0].Remove? ==> steps[0].host in clean)
     && NoFailureBetween(cfg, NextHosts(cfg, hosts, steps[0]), StillClean(cfg, hosts, clean, steps[0]), steps[1..]))
  }

  lemma {:induction false} CleanIsForgettable(cfg: Config, hosts: Hosts, clean: set<string>, steps: seq<PhasedStep>)
    requires NoFailureBetween(cfg, hosts, clean, steps) && forall h :: h in clean ==> Idle(Lookup(cfg, hosts, h))
    ensures RemovesForgettable(cfg, hosts, steps)
    decreases |steps|
  {
    hide Apply;
    if steps != [] {
      var s := steps[0];
      var hosts', clean' := NextHosts(cfg, hosts, s), StillClean(cfg, hosts, clean, s);
      forall h | h in clean' ensures Idle(Lookup(cfg, hosts', h)) {
        if s.Asked? {
          IdleStays(cfg, Lookup(cfg, hosts, h), s.event, s.at);
        }
      }
      CleanIsForgettable(cfg, hosts', clean', steps[1..]);
    }
  }

  lemma IdleStays(cfg: Config, b: Breaker, e: Event, t: int)
    requires Idle(b)
    ensures e != DoFailure ==> Idle(Apply(cfg, b, e, t).0)
  {
  }

  /** A Cleanup in two phases is unobservable as long as no failure is recorded on a collected host before it is
      removed, whatever other calls come in between. */
  lemma PhasedCleanupUnobservable(cfg: Config, hosts: Hosts, steps: seq<PhasedStep>)
    requires NoFailureBetween(cfg, hosts, {}, steps)
    ensures PhasedAnswers(cfg, hosts, steps) == Answers(cfg, hosts, CallsOf(steps))
  {
    hide NoFailureBetween, RemovesForgettable;
    CleanIsForgettable(cfg, hosts, {}, steps);
    PhasedAlike(cfg, hosts, hosts, steps);
  }

  /** And a single removal is unobservable exactly when the breaker can be forgotten at that moment. */
  lemma RemovalUnobservableIff(cfg: Config, hosts: Hosts, host: string)
    ensures Forgettable(cfg, Lookup(cfg, hosts, host)) <==>
      forall ops :: Answers(cfg, hosts - {host}, ops) == Answers(cfg, hosts, ops)
  {
    var b := Lookup(cfg, hosts, host);
    if Forgettable(cfg, b) {
      RemovedAlike(cfg, hosts, hosts, host);
      forall ops ensures Answers(cfg, hosts - {host}, ops) == Answers(cfg, hosts, ops) {
        CleanupsInvisible(cfg, hosts - {host}, hosts, ops);
        CleanupUnobservable(cfg, hosts, ops);
      }
    } else {
      var ops := Telling(cfg, host, hosts, hosts - {host});
    }
  }

  /** A failure recorded between collecting and removing is forgotten: with a threshold of two the next one does not
      trip the breaker. */
  lemma FailureForgotten(cfg: Config, host: string)
    requires cfg.failureThreshold == 2
    ensures var hosts, fails, asks := map[host := New(cfg)], Asked(host, DoFailure, 0), Asked(host, DoState, 0);
      && PhasedAnswers(cfg, hosts, [Collect, fails, Remove(host), fails, asks]) == [Done, Done, Is(Closed)]
      && Answers(cfg, hosts, CallsOf([Collect, fails, Remove(host), fails, asks])) == [Done, Done, Is(Open)]
  {
    hide PhasedAnswers, CallsOf, Answers;
    var hosts, fails, asks := map[host := New(cfg)], Asked(host, DoFailure, 0), Asked(host, DoState, 0);
    var once := NextHosts(cfg, hosts, fails);
    var removed := once - {host};
    var op, ask := On(host, DoFailure, 0), On(host, DoState, 0);
    FirstStep(cfg, NextHosts(cfg, removed, fails), asks, []);
    FirstStep(cfg, removed, fails, [asks]);
    FirstStep(cfg, once, Remove(host), [fails, asks]);
    FirstStep(cfg, hosts, fails, [Remove(host), fails, asks]);
    FirstStep(cfg, hosts, Collect, [fails, Remove(host), fails, asks]);
    assert Lookup(cfg, removed, host) == New(cfg);
    assert [Collect] + [fails, Remove(host), fails, asks] == [Collect, fails, Remove(host), fails, asks];
    assert [fails] + [Remove(host), fails, asks] == [fails, Remove(host), fails, asks];
    assert [Remove(host)] + [fails, asks] == [Remove(host), fails, asks];
    assert [fails] + [asks] == [fails, asks] && [asks] + [] == [asks];
    FirstStep(cfg, NextHosts(cfg, NextHosts(cfg, removed, fails), asks), asks, []);
    assert Lookup(cfg, NextHosts(cfg, removed, fails), host).state == Closed;
    assert PhasedAnswers(cfg, NextHosts(cfg, removed, fails), [asks]) == [Is(Closed)];
    assert PhasedAnswers(cfg, removed, [fails, asks]) == [Done, Is(Closed)];
    assert PhasedAnswers(cfg, once, [Remove(host), fails, asks]) == [Done, Is(Closed)];
    assert CallsOf([fails, asks]) == [op, ask] && CallsOf([Remove(host), fails, asks]) == [op, ask];
    assert CallsOf([fails, Remove(host), fails, asks]) == [op, op, ask];
    assert [op] + [op, ask] == [op, op, ask] && [op] + [ask] == [op, ask];
    FirstAnswer(cfg, once, op, [ask]);
    FirstAnswer(cfg, hosts, op, [op, ask]);
    assert Lookup(cfg, NextHosts(cfg, once, fails), host).state == Open;
    AnswersToState(cfg, host, NextHosts(cfg, once, fails), 0);
    assert Answers(cfg, once, [op, ask]) == [Done, Is(Open)];
    assert CallsOf([Collect, fails, Remove(host), fails, asks]) == [op, op, ask];
  }

  lemma FirstStep(cfg: Config, hosts: Hosts, s: PhasedStep, rest: seq<PhasedStep>)
    ensures PhasedAnswers(cfg, hosts, [s] + rest) ==
      (if s.Asked? then [Step(cfg, hosts, On(s.host, s.event, s.at)).1] else [])
      + PhasedAnswers(cfg, NextHosts(cfg, hosts, s), rest)
    ensures CallsOf([s] + rest) == (if s.Asked? then [On(s.host, s.event, s.at)] else []) + CallsOf(rest)
    ensures PhasedAnswers(cfg, hosts, []) == [] && CallsOf([]) == []
  {
    assert ([s] + rest)[1..] == rest;
  }

  lemma FirstAnswer(cfg: Config, hosts: Hosts, op: HostOp, rest: seq<HostOp>)
    requires op.On?
    ensures Answers(cfg, hosts, [op] + rest) == [Step(cfg, hosts, op).1] + Answers(cfg, Step(cfg, hosts, op).0, rest)
  {
    assert ([op] + rest)[1..] == rest;
  }

  /** Calls that tell two states of a host apart. */
  lemma Telling(cfg: Config, host: string, g: Hosts, h: Hosts) returns (ops: seq<HostOp>)
    requires Lookup(cfg, h, host) == New(cfg) && !Forgettable(cfg, Lookup(cfg, g, host))
    ensures Answers(cfg, g, ops) != Answers(cfg, h, ops)
  {
    var b := Lookup(cfg, g, host);
    if b.state != Closed {
      ops := [On(host, DoState, 0)];
      AnswersToState(cfg, host, g, 0);
      AnswersToState(cfg, host, h, 0);
    } else {
      var own, other := FailuresToTrip(cfg, b), FailuresToTrip(cfg, New(cfg));
      var n := if own < other then own else other;
      ops := Repeat(host, DoFailure, 0, n) + [On(host, DoState, 0)];
      AfterFailures(cfg, host, g, 0, n);
      AfterFailures(cfg, host, h, 0, n);
    }
  }

  // ---------- the breakers updated in place ----------

  class CircuitBreaker {
    const cfg: Config
    var state: State
    var failureCount: int
    var successCount: int
    var lastFailure: int
    var halfOpenSince: int
    var halfOpenProbes: int

    ghost function Value(): Breaker
      reads this
    {
      Breaker(state, failureCount, successCount, lastFailure, halfOpenSince, halfOpenProbes)
    }

    constructor (cfg: Config)
      ensures this.cfg == cfg && Value() == New(cfg)
    {
      this.cfg := cfg;
      state, failureCount, successCount := Closed, 0, 0;
      lastFailure, halfOpenSince, halfOpenProbes := ZERO_TIME, ZERO_TIME, cfg.maxProbes;
    }

    method Allow(now: int) returns (ok: bool)
      modifies this
      ensures (Value(), ok) == B.Allow(cfg, old(Value()), now)
    {
      match state
      case Closed => return true;
      case Open =>
        if now - lastFailure > cfg.timeout {
          state, successCount, failureCount, halfOpenSince := HalfOpen, 0, 0, now;
          halfOpenProbes := cfg.maxProbes;
          return true;
        }
        return false;
      case HalfOpen =>
        if now - halfOpenSince > cfg.timeout {
          state, lastFailure := Open, now;
          return false;
        }
        halfOpenProbes := Wrap32(halfOpenProbes - 1);
        return halfOpenProbes >= 0;
    }

    method Success()
      modifies this
      ensures Value() == B.Success(cfg, old(Value()))
    {
      match state
      case HalfOpen =>
        successCount := successCount + 1;
        if successCount >= cfg.successThreshold {
          state, failureCount, successCount := Closed, 0, 0;
        }
        halfOpenProbes := cfg.maxProbes;
      case Closed => failureCount := 0;
      case Open =>
    }

    method Failure(now: int)
      modifies this
      ensures Value() == B.Failure(cfg, old(Value()), now)
    {
      failureCount, lastFailure := failureCount + 1, now;
      match state
      case HalfOpen => state, successCount := Open, 0;
      case _ =>
        if failureCount >= cfg.failureThreshold {
          state := Open;
        }
    }

    method Reset()
      modifies this
      ensures Value() == B.Reset(old(Value()))
    {
      state, failureCount, successCount, lastFailure := Closed, 0, 0, ZERO_TIME;
    }

    /** Any one call. */
    method Handle(e: Event, now: int) returns (answer: Answer)
      modifies this
      ensures (Value(), answer) == Apply(cfg, old(Value()), e, now)
    {
      answer := Done;
      match e
      case DoAllow =>
        var ok := Allow(now);
        answer := Verdict(ok);
      case DoSuccess => Success();
      case DoFailure => Failure(now);
      case DoReset => Reset();
      case DoState => answer := Is(state);
    }
  }

  class HostCircuitBreaker {
    const cfg: Config
    const breakers: ShardedMap.ShardedMap<string, CircuitBreaker>

    /** No breaker serves two hosts. */
    ghost predicate Valid()
      reads this, breakers
    {
      && breakers.Valid()
      && (forall g, h :: g in breakers.contents && h in breakers.contents && g != h ==>
          breakers.contents[g] != breakers.contents[h])
      && (forall h :: h in breakers.contents ==> breakers.contents[h].cfg == cfg)
    }

    ghost function Objects(): set<CircuitBreaker>
      reads this, breakers
    {
      breakers.contents.Values
    }

    ghost function Value(): Hosts
      reads this, breakers, Objects()
    {
      map h | h in breakers.contents :: breakers.contents[h].Value()
    }

    constructor (cfg: Config, procs: bv64, hash: string -> nat)
      ensures procs <= 0x2000_0000 ==> Valid()
      ensures Value() == map[] && this.cfg == cfg && fresh(breakers)
    {
      this.cfg := cfg;
      this.breakers := new ShardedMap.ShardedMap(procs, hash);
    }

    method GetOrCreate(host: string) returns (cb: CircuitBreaker)
      requires Valid()
      modifies breakers
      ensures Valid() && host in breakers.contents && breakers.contents[host] == cb
      ensures cb.Value() == Lookup(cfg, old(Value()), host)
      ensures Value() == old(Value())[host := cb.Value()]
      ensures cb in old(Objects()) || fresh(cb)
      ensures Objects() <= old(Objects()) + {cb}
    {
      hide ShardedMap.Partitions;
      var ok, found := breakers.Get(host);
      if ok {
        cb := found[0];
        assert old(Value())[host] == cb.Value();
        return;
      }
      cb := new CircuitBreaker(cfg);
      breakers.Set(host, cb);
    }

    /** getOrCreate, then the call on that breaker. */
    method Run(host: string, e: Event, now: int) returns (answer: Answer)
      requires Valid()
      modifies breakers, Objects()
      ensures Valid() && (Value(), answer) == Step(cfg, old(Value()), On(host, e, now))
      ensures forall o :: o in Objects() ==> o in old(Objects()) || fresh(o)
    {
      hide ShardedMap.Partitions, Apply, Lookup;
      var cb := GetOrCreate(host);
      answer := cb.Handle(e, now);
      assert Value() == old(Value())[host := cb.Value()];
    }

    method Allow(host: string, now: int) returns (ok: bool)
      requires Valid()
      modifies breakers, Objects()
      ensures Valid() && (Value(), Verdict(ok)) == Step(cfg, old(Value()), On(host, DoAllow, now))
      ensures forall o :: o in Objects() ==> o in old(Objects()) || fresh(o)
    {
      hide ShardedMap.Partitions, Lookup;
      var answer := Run(host, DoAllow, now);
      ok := answer.allowed;
    }

    method Success(host: string, now: int)
      requires Valid()
      modifies breakers, Objects()
      ensures Valid() && (Value(), Done) == Step(cfg, old(Value()), On(host, DoSuccess, now))
      ensures forall o :: o in Objects() ==> o in old(Objects()) || fresh(o)
    {
      hide ShardedMap.Partitions, Lookup;
      var _ := Run(host, DoSuccess, now);
    }

    method Failure(host: string, now: int)
      requires Valid()
      modifies breakers, Objects()
      ensures Valid() && (Value(), Done) == Step(cfg, old(Value()), On(host, DoFailure, now))
      ensures forall o :: o in Objects() ==> o in old(Objects()) || fresh(o)
    {
      hide ShardedMap.Partitions, Lookup;
      var _ := Run(host, DoFailure, now);
    }

    method StateOf(host: string, now: int) returns (state: State)
      requires Valid()
      modifies breakers, Objects()
      ensures Valid() && (Value(), Is(state)) == Step(cfg, old(Value()), On(host, DoState, now))
      ensures forall o :: o in Objects() ==> o in old(Objects()) || fresh(o)
    {
      hide ShardedMap.Partitions, Lookup;
      var answer := Run(host, DoState, now);
      state := answer.state;
    }

    method Reset(host: string, now: int)
      requires Valid()
      modifies breakers, Objects()
      ensures Valid() && (Value(), Done) == Step(cfg, old(Value()), On(host, DoReset, now))
      ensures forall o :: o in Objects() ==> o in old(Objects()) || fresh(o)
    {
      hide ShardedMap.Partitions, Lookup;
      var _ := Run(host, DoReset, now);
    }

    /** The hosts whose breaker is closed with no failures. */
    method IdleHosts() returns (idle: seq<string>)
      requires Valid()
      ensures forall k :: k in idle <==> k in Value() && Idle(Value()[k])
    {
      hide ShardedMap.Partitions;
      var keys, _ := breakers.Range((_, _) => true);
      idle := [];
      for i := 0 to |keys|
        invariant forall k :: k in idle <==> k in keys[..i] && k in Value() && Idle(Value()[k])
      {
        assert keys[i] in keys;
        var _, found := breakers.Get(keys[i]);
        var cb := found[0];
        assert keys[..i + 1] == keys[..i] + [keys[i]];
        if cb.state == Closed && cb.failureCount == 0 {
          idle := idle + [keys[i]];
        }
      }
      assert keys[..|keys|] == keys;
    }

    /** Delete the collected hosts one by one. */
    method RemoveHosts(toDelete: seq<string>)
      requires Valid()
      modifies breakers
      ensures Valid() && Value() == old(Value()) - (set k | k in toDelete)
    {
      hide ShardedMap.Partitions;
      for i := 0 to |toDelete|
        invariant Valid()
        invariant breakers.contents == old(breakers.contents) - (set k | k in toDelete[..i])
      {
        assert toDelete[..i + 1] == toDelete[..i] + [toDelete[i]];
        breakers.Delete(toDelete[i]);
      }
      assert toDelete[..|toDelete|] == toDelete;
    }

    /** Collect and delete, with nothing in between. */
    method Cleanup()
      requires Valid()
      modifies breakers
      ensures Valid() && Value() == Step(cfg, old(Value()), HostOp.Cleanup).0
    {
      hide ShardedMap.Partitions;
      var toDelete := IdleHosts();
      RemoveHosts(toDelete);
    }
  }
}
