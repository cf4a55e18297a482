/**
 The circuit breaker of internal/resilience/circuitbreaker.go as a value, and what
 holds of it over whole runs.  Each method call is one atomic step; the clock is a
 parameter.  Times and durations share one integer unit.
 */
module Breaker {
  datatype State = Closed | HalfOpen | Open

  /** maxProbes is already an int32, as the breaker stores it. */
  datatype Config = Config(failureThreshold: int, successThreshold: int, timeout: int, maxProbes: int)

  datatype Breaker = Breaker(
    state: State,
    failureCount: int,
    successCount: int,
    lastFailure: int,
    halfOpenSince: int,
    probes: int)

  const ZERO_TIME := 0
  const TWO_TO_31 := 0x8000_0000
  const TWO_TO_32 := 0x1_0000_0000

  /** The value of an int32 counter after overflow. */
  function Wrap32(x: int): (r: int)
    ensures -TWO_TO_31 <= r < TWO_TO_31
    ensures -TWO_TO_31 <= x < TWO_TO_31 ==> r == x
  {
    (x + TWO_TO_31) % TWO_TO_32 - TWO_TO_31
  }

  function New(cfg: Config): Breaker {
    Breaker(Closed, 0, 0, ZERO_TIME, ZERO_TIME, cfg.maxProbes)
  }

  // ---------- the methods ----------

  function Allow(cfg: Config, b: Breaker, now: int): (Breaker, bool) {
    match b.state
    case Closed => (b, true)
    case Open =>
      if now - b.lastFailure > cfg.timeout
      then (b.(state := HalfOpen, successCount := 0, failureCount := 0, halfOpenSince := now,
               probes := cfg.maxProbes), true)
      else (b, false)
    case HalfOpen =>
      if now - b.halfOpenSince > cfg.timeout then (b.(state := Open, lastFailure := now), false)
      else
        var left := Wrap32(b.probes - 1);
        (b.(probes := left), left >= 0)
  }

  function Success(cfg: Config, b: Breaker): Breaker {
    match b.state
    case HalfOpen =>
      if b.successCount + 1 >= cfg.successThreshold
      then b.(state := Closed, failureCount := 0, successCount := 0, probes := cfg.maxProbes)
      else b.(successCount := b.successCount + 1, probes := cfg.maxProbes)
    case Closed => b.(failureCount := 0)
    case Open => b
  }

  function Failure(cfg: Config, b: Breaker, now: int): Breaker {
    var c := b.(failureCount := b.failureCount + 1, lastFailure := now);
    match b.state
    case HalfOpen => c.(state := Open, successCount := 0)
    case _ => if c.failureCount >= cfg.failureThreshold then c.(state := Open) else c
  }

  function Reset(b: Breaker): Breaker {
    b.(state := Closed, failureCount := 0, successCount := 0, lastFailure := ZERO_TIME)
  }

  datatype Event = DoAllow | DoSuccess | DoFailure | DoReset | DoState

  datatype Answer = Verdict(allowed: bool) | Is(state: State) | Done

  function Apply(cfg: Config, b: Breaker, e: Event, now: int): (Breaker, Answer) {
    match e
    case DoAllow => var (b', ok) := Allow(cfg, b, now); (b', Verdict(ok))
    case DoSuccess => (Success(cfg, b), Done)
    case DoFailure => (Failure(cfg, b, now), Done)
    case DoReset => (Reset(b), Done)
    case DoState => (b, Is(b.state))
  }

  // ---------- runs ----------

  datatype Call = Call(event: Event, at: int)

  /** The breaker before and after each call of a run, on a clock that does not go back and without Reset. */
  ghost predicate IsRun(cfg: Config, states: seq<Breaker>, calls: seq<Call>) {
    && |states| == |calls| + 1
    && states[0] == New(cfg)
    && (forall i :: 0 <= i < |calls| ==>
          calls[i].event != DoReset && calls[i].at >= ZERO_TIME
          && states[i + 1] == Apply(cfg, states[i], calls[i].event, calls[i].at).0)
    && (forall i, j :: 0 <= i < j < |calls| ==> calls[i].at <= calls[j].at)
  }

  predicate Admitted(cfg: Config, b: Breaker, c: Call) {
    c.event == DoAllow && Apply(cfg, b, c.event, c.at).1 == Verdict(true)
  }

  // ---------- reference quantities, from the history of the run ----------

  /** Failures recorded since the last success. */
  function FailuresSinceSuccess(calls: seq<Call>): nat {
    if calls == [] then 0
    else
      var n := |calls| - 1;
      if calls[n].event == DoSuccess then 0
      else FailuresSinceSuccess(calls[..n]) + (if calls[n].event == DoFailure then 1 else 0)
  }

  /** A call that turned a half-open breaker open: a failure, or a probe that found the window overdue. */
  predicate Reopens(states: seq<Breaker>, i: nat)
    requires i + 1 < |states|
  {
    states[i].state == HalfOpen && states[i + 1].state == Open
  }

  /** When the last failure or reopening happened. */
  function LastTrouble(states: seq<Breaker>, calls: seq<Call>, n: nat): int
    requires n <= |calls| && n < |states|
  {
    if n == 0 then ZERO_TIME
    else if calls[n - 1].event == DoFailure || Reopens(states, n - 1) then calls[n - 1].at
    else LastTrouble(states, calls, n - 1)
  }

  /** The number of calls up to the one that last entered half-open. */
  function WindowStart(states: seq<Breaker>, n: nat): (j: nat)
    requires n < |states|
    ensures j <= n
  {
    if n == 0 then 0
    else if states[n].state == HalfOpen && states[n - 1].state != HalfOpen then n
    else WindowStart(states, n - 1)
  }

  function Count(calls: seq<Call>, e: Event): nat {
    if calls == [] then 0 else Count(calls[..|calls| - 1], e) + (if calls[|calls| - 1].event == e then 1 else 0)
  }

  // ---------- the invariant of runs ----------

  ghost predicate Explained(cfg: Config, states: seq<Breaker>, calls: seq<Call>, n: nat)
    requires n <= |calls| && n < |states|
  {
    var b := states[n];
    var j := WindowStart(states, n);
    match b.state
    case Closed => b.failureCount == FailuresSinceSuccess(calls[..n])
    case Open => b.lastFailure == LastTrouble(states, calls, n)
    case HalfOpen =>
      && 0 < j <= n && (forall i :: j <= i <= n ==> states[i].state == HalfOpen)
      && b.halfOpenSince == calls[j - 1].at && calls[j - 1].event == DoAllow
      && Count(calls[j..n], DoFailure) == 0
      && Count(calls[j..n], DoSuccess) == b.successCount
      && (b.successCount > 0 ==> b.successCount < cfg.successThreshold)
  }

  lemma CountNext(calls: seq<Call>, j: nat, n: nat, e: Event)
    requires j <= n < |calls|
    ensures Count(calls[j..n + 1], e) == Count(calls[j..n], e) + (if calls[n].event == e then 1 else 0)
  {
    assert calls[j..n + 1][..n - j] == calls[j..n];
  }

  lemma CountNone(calls: seq<Call>, n: nat, e: Event)
    requires n <= |calls|
    ensures Count(calls[n..n], e) == 0
  {
  }

  lemma ExplainClosed(cfg: Config, states: seq<Breaker>, calls: seq<Call>, n: nat)
    requires IsRun(cfg, states, calls) && 0 < n <= |calls| && states[n].state == Closed
    requires Explained(cfg, states, calls, n - 1)
    ensures Explained(cfg, states, calls, n)
  {
    hide LastTrouble, WindowStart, Count;
    assert calls[..n][..n - 1] == calls[..n - 1];
    assert states[n] == Apply(cfg, states[n - 1], calls[n - 1].event, calls[n - 1].at).0;
  }

  lemma ExplainOpen(cfg: Config, states: seq<Breaker>, calls: seq<Call>, n: nat)
    requires IsRun(cfg, states, calls) && 0 < n <= |calls| && states[n].state == Open
    requires Explained(cfg, states, calls, n - 1)
    ensures Explained(cfg, states, calls, n)
  {
  }

  lemma ExplainHalfOpen(cfg: Config, states: seq<Breaker>, calls: seq<Call>, n: nat)
    requires IsRun(cfg, states, calls) && 0 < n <= |calls| && states[n].state == HalfOpen
    requires Explained(cfg, states, calls, n - 1)
    ensures Explained(cfg, states, calls, n)
  {
    hide FailuresSinceSuccess, LastTrouble, Count;
    var j := WindowStart(states, n);
    assert states[n] == Apply(cfg, states[n - 1], calls[n - 1].event, calls[n - 1].at).0;
    if states[n - 1].state == HalfOpen {
      CountNext(calls, j, n - 1, DoFailure);
      CountNext(calls, j, n - 1, DoSuccess);
    } else {
      CountNone(calls, n, DoFailure);
      CountNone(calls, n, DoSuccess);
    }
  }

  lemma {:induction false} RunExplained(cfg: Config, states: seq<Breaker>, calls: seq<Call>, n: nat)
    requires IsRun(cfg, states, calls) && n <= |calls|
    ensures Explained(cfg, states, calls, n)
  {
    if n > 0 {
      RunExplained(cfg, states, calls, n - 1);
      match states[n].state
      case Closed => ExplainClosed(cfg, states, calls, n);
      case Open => ExplainOpen(cfg, states, calls, n);
      case HalfOpen => ExplainHalfOpen(cfg, states, calls, n);
    }
  }

  // ---------- safety over whole runs ----------

  /** A closed breaker trips exactly when the failures since the last success reach the threshold. */
  lemma TripsAtThreshold(cfg: Config, states: seq<Breaker>, calls: seq<Call>, n: nat)
    requires IsRun(cfg, states, calls) && n < |calls| && states[n].state == Closed
    ensures states[n + 1].state != Closed <==>
      calls[n].event == DoFailure && FailuresSinceSuccess(calls[..n + 1]) >= cfg.failureThreshold
    ensures states[n + 1].state != HalfOpen
  {
    RunExplained(cfg, states, calls, n);
    assert calls[..n + 1][..n] == calls[..n];
  }

  /** An open breaker admits a call exactly when more than the timeout has passed since the last failure or
      reopening, and the admitted call makes it half-open. */
  lemma OpenAdmitsAfterTimeout(cfg: Config, states: seq<Breaker>, calls: seq<Call>, n: nat)
    requires IsRun(cfg, states, calls) && n < |calls| && states[n].state == Open && calls[n].event == DoAllow
    ensures Admitted(cfg, states[n], calls[n]) <==> calls[n].at - LastTrouble(states, calls, n) > cfg.timeout
    ensures states[n + 1].state == if Admitted(cfg, states[n], calls[n]) then HalfOpen else Open
  {
    RunExplained(cfg, states, calls, n);
  }

  /** A breaker closes only from half-open, by a success, and then the window since it was entered holds
      exactly successThreshold successes (at least one) and no failure. */
  lemma ClosesAfterEnoughSuccesses(cfg: Config, states: seq<Breaker>, calls: seq<Call>, n: nat)
    requires IsRun(cfg, states, calls) && n < |calls|
    requires states[n].state != Closed && states[n + 1].state == Closed
    ensures states[n].state == HalfOpen && calls[n].event == DoSuccess
    ensures var j := WindowStart(states, n);
      && 0 < j <= n && (forall i :: j <= i <= n ==> states[i].state == HalfOpen) && states[j - 1].state == Open
      && Count(calls[j..n + 1], DoSuccess) == (if cfg.successThreshold < 1 then 1 else cfg.successThreshold)
      && Count(calls[j..n + 1], DoFailure) == 0
  {
    RunExplained(cfg, states, calls, n);
    var j := WindowStart(states, n);
    RunExplained(cfg, states, calls, j - 1);
    CountNext(calls, j, n, DoSuccess);
    CountNext(calls, j, n, DoFailure);
    EntryIsFromOpen(cfg, states, calls, n);
  }

  lemma {:induction false} EntryIsFromOpen(cfg: Config, states: seq<Breaker>, calls: seq<Call>, n: nat)
    requires IsRun(cfg, states, calls) && n <= |calls| && states[n].state == HalfOpen
    ensures var j := WindowStart(states, n); 0 < j <= n && states[j - 1].state == Open && states[j].state == HalfOpen
  {
    assert n > 0;
    assert states[n] == Apply(cfg, states[n - 1], calls[n - 1].event, calls[n - 1].at).0;
    if states[n - 1].state == HalfOpen {
      EntryIsFromOpen(cfg, states, calls, n - 1);
    }
  }

  // ---------- recovery and probes ----------

  lemma {:induction false} TimesInPast(cfg: Config, states: seq<Breaker>, calls: seq<Call>, n: nat)
    requires IsRun(cfg, states, calls) && n <= |calls|
    ensures var last := if n == 0 then ZERO_TIME else calls[n - 1].at;
      states[n].lastFailure <= last && states[n].halfOpenSince <= last
  {
    if n > 0 {
      TimesInPast(cfg, states, calls, n - 1);
      assert states[n] == Apply(cfg, states[n - 1], calls[n - 1].event, calls[n - 1].at).0;
    }
  }

  /** Recovery: of two Allow calls in a row, each made after waiting more than the timeout, one is admitted,
      whatever state the run before them left. */
  lemma Recovers(cfg: Config, states: seq<Breaker>, calls: seq<Call>, n: nat)
    requires IsRun(cfg, states, calls) && n + 1 < |calls|
    requires calls[n].event == DoAllow && calls[n + 1].event == DoAllow
    requires calls[n].at - (if n == 0 then ZERO_TIME else calls[n - 1].at) > cfg.timeout
    requires calls[n + 1].at - calls[n].at > cfg.timeout
    ensures Admitted(cfg, states[n], calls[n]) || Admitted(cfg, states[n + 1], calls[n + 1])
  {
    TimesInPast(cfg, states, calls, n);
    assert states[n + 1] == Apply(cfg, states[n], calls[n].event, calls[n].at).0;
  }

  /** Calls admitted among calls[j..n]. */
  function AdmittedCount(cfg: Config, states: seq<Breaker>, calls: seq<Call>, j: nat, n: nat): nat
    requires j <= n <= |calls| && n <= |states|
  {
    if n == j then 0
    else AdmittedCount(cfg, states, calls, j, n - 1) + (if Admitted(cfg, states[n - 1], calls[n - 1]) then 1 else 0)
  }

  /** The number of calls up to the one that last filled the probe counter: the one that entered half-open, or the last
      success since. */
  function ProbeStart(states: seq<Breaker>, calls: seq<Call>, n: nat): (j: nat)
    requires n < |states| && n <= |calls|
    ensures j <= n
  {
    if n == 0 then 0
    else if states[n].state == HalfOpen && (states[n - 1].state != HalfOpen || calls[n - 1].event == DoSuccess) then n
    else ProbeStart(states, calls, n - 1)
  }

  /** In every half-open state the counter has gone down by one for each call since it was filled, in int32
      arithmetic. */
  lemma {:induction false} ProbesLeft(cfg: Config, states: seq<Breaker>, calls: seq<Call>, n: nat)
    requires IsRun(cfg, states, calls) && n <= |calls| && states[n].state == HalfOpen
    requires -TWO_TO_31 <= cfg.maxProbes < TWO_TO_31
    ensures states[n].probes == Wrap32(cfg.maxProbes - Count(calls[ProbeStart(states, calls, n)..n], DoAllow))
  {
    hide Wrap32, Count;
    assert n > 0;
    var j := ProbeStart(states, calls, n);
    assert states[n] == Apply(cfg, states[n - 1], calls[n - 1].event, calls[n - 1].at).0;
    if j == n {
      CountNone(calls, n, DoAllow);
    } else {
      CountNext(calls, j, n - 1, DoAllow);
      ProbesLeft(cfg, states, calls, n - 1);
      WrapPred(cfg.maxProbes - Count(calls[j..n - 1], DoAllow));
    }
  }

  /** Exactly which calls a half-open breaker admits: those within the timeout since it was entered that leave the
      counter non-negative. */
  lemma HalfOpenAdmitsIff(cfg: Config, states: seq<Breaker>, calls: seq<Call>, n: nat)
    requires IsRun(cfg, states, calls) && n < |calls| && states[n].state == HalfOpen && calls[n].event == DoAllow
    requires -TWO_TO_31 <= cfg.maxProbes < TWO_TO_31
    ensures WindowStart(states, n) > 0
    ensures var entered := calls[WindowStart(states, n) - 1].at;
      Admitted(cfg, states[n], calls[n]) <==>
        && calls[n].at - entered <= cfg.timeout
        && Wrap32(cfg.maxProbes - Count(calls[ProbeStart(states, calls, n)..n + 1], DoAllow)) >= 0
  {
    hide Wrap32, Count;
    RunExplained(cfg, states, calls, n);
    ProbesLeft(cfg, states, calls, n);
    var j := ProbeStart(states, calls, n);
    CountNext(calls, j, n, DoAllow);
    WrapPred(cfg.maxProbes - Count(calls[j..n], DoAllow));
  }

  /** Where a half-open breaker goes: open by a failure or a call that comes after the timeout, closed by the success
      that makes up the threshold; a state query changes nothing. */
  lemma HalfOpenLeavesIff(cfg: Config, states: seq<Breaker>, calls: seq<Call>, n: nat)
    requires IsRun(cfg, states, calls) && n < |calls| && states[n].state == HalfOpen
    ensures WindowStart(states, n) > 0
    ensures var j, c := WindowStart(states, n), calls[n];
      && (states[n + 1].state == Open <==>
            c.event == DoFailure || (c.event == DoAllow && c.at - calls[j - 1].at > cfg.timeout))
      && (states[n + 1].state == Closed <==>
            c.event == DoSuccess && Count(calls[j..n + 1], DoSuccess) >= cfg.successThreshold)
      && (c.event == DoState ==> states[n + 1] == states[n])
  {
    RunExplained(cfg, states, calls, n);
    CountNext(calls, WindowStart(states, n), n, DoSuccess);
  }

  /** An open breaker stays open but for an admitted call, and no outcome recorded then changes what it waits for
      except a failure. */
  lemma OpenStays(cfg: Config, states: seq<Breaker>, calls: seq<Call>, n: nat)
    requires IsRun(cfg, states, calls) && n < |calls| && states[n].state == Open
    ensures states[n + 1].state != Open <==> Admitted(cfg, states[n], calls[n])
    ensures calls[n].event != DoFailure && states[n + 1].state == Open ==> states[n + 1] == states[n]
  {
    assert states[n + 1] == Apply(cfg, states[n], calls[n].event, calls[n].at).0;
  }

  /** A stretch of half-open states, begun by call j - 1, which entered half-open or was a success, and in which no
      outcome is recorded. */
  ghost predicate Probing(cfg: Config, states: seq<Breaker>, calls: seq<Call>, j: nat, n: nat)
    requires |states| == |calls| + 1
  {
    && 0 < j <= n <= |calls|
    && (states[j - 1].state == Open || calls[j - 1].event == DoSuccess)
    && (forall i :: j <= i <= n ==> states[i].state == HalfOpen)
    && (forall i :: j <= i < n ==> calls[i].event == DoAllow || calls[i].event == DoState)
  }

  lemma {:induction false} ProbeStartOf(cfg: Config, states: seq<Breaker>, calls: seq<Call>, j: nat, n: nat)
    requires IsRun(cfg, states, calls) && Probing(cfg, states, calls, j, n)
    ensures ProbeStart(states, calls, n) == j
  {
    if j < n {
      ProbeStartOf(cfg, states, calls, j, n - 1);
    }
  }

  lemma WrapPred(x: int)
    ensures Wrap32(Wrap32(x) - 1) == Wrap32(x - 1)
  {
  }

  /** A call of the window passes exactly when it leaves the counter non-negative. */
  lemma PassesInWindow(cfg: Config, states: seq<Breaker>, calls: seq<Call>, j: nat, n: nat)
    requires IsRun(cfg, states, calls) && Probing(cfg, states, calls, j, n) && j < n
    requires -TWO_TO_31 <= cfg.maxProbes < TWO_TO_31
    requires calls[n - 1].event == DoAllow
    ensures Count(calls[j..n], DoAllow) == Count(calls[j..n - 1], DoAllow) + 1
    ensures Admitted(cfg, states[n - 1], calls[n - 1]) <==> Wrap32(cfg.maxProbes - Count(calls[j..n], DoAllow)) >= 0
  {
    hide Wrap32;
    CountNext(calls, j, n - 1, DoAllow);
    ProbeStartOf(cfg, states, calls, j, n);
    ProbesLeft(cfg, states, calls, n);
    assert states[n] == Apply(cfg, states[n - 1], calls[n - 1].event, calls[n - 1].at).0;
  }

  lemma WrapSign(max: int, count: nat)
    requires -TWO_TO_31 <= max < TWO_TO_31 && 0 < count <= max + TWO_TO_31 + 1
    ensures Wrap32(max - count) >= 0 <==> count <= max || count == max + TWO_TO_31 + 1
  {
  }

  /** The probes a window has, none for a negative setting. */
  function Probes(max: int): nat {
    if max < 0 then 0 else max
  }

  /** Calls of the window that pass: the first Probes(max), none after them until the counter wraps, then more. */
  function Passed(max: int, count: nat): nat {
    if count <= Probes(max) && count <= max + TWO_TO_31 then count
    else if count <= max + TWO_TO_31 then Probes(max)
    else Probes(max) + 1
  }

  lemma {:induction false} PassedInWindow(cfg: Config, states: seq<Breaker>, calls: seq<Call>, j: nat, n: nat)
    requires IsRun(cfg, states, calls) && Probing(cfg, states, calls, j, n) && -TWO_TO_31 <= cfg.maxProbes < TWO_TO_31
    ensures AdmittedCount(cfg, states, calls, j, n) >= Passed(cfg.maxProbes, Count(calls[j..n], DoAllow))
    ensures Count(calls[j..n], DoAllow) <= cfg.maxProbes + TWO_TO_31 + 1 ==>
      AdmittedCount(cfg, states, calls, j, n) == Passed(cfg.maxProbes, Count(calls[j..n], DoAllow))
  {
    hide IsRun, Wrap32, Apply;
    if n == j {
      CountNone(calls, j, DoAllow);
    } else {
      PassedInWindow(cfg, states, calls, j, n - 1);
      if calls[n - 1].event == DoAllow {
        PassesInWindow(cfg, states, calls, j, n);
        if Count(calls[j..n], DoAllow) <= cfg.maxProbes + TWO_TO_31 + 1 {
          WrapSign(cfg.maxProbes, Count(calls[j..n], DoAllow));
        }
      } else {
        CountNext(calls, j, n - 1, DoAllow);
      }
    }
  }

  /** So after a success that does not close the breaker the first Probes calls pass, and no more until the counter
      wraps. */
  lemma ProbesAfterSuccess(cfg: Config, states: seq<Breaker>, calls: seq<Call>, j: nat, n: nat)
    requires IsRun(cfg, states, calls) && Probing(cfg, states, calls, j, n) && -TWO_TO_31 <= cfg.maxProbes < TWO_TO_31
    requires calls[j - 1].event == DoSuccess
    ensures var count, passed := Count(calls[j..n], DoAllow), AdmittedCount(cfg, states, calls, j, n);
      && (count <= Probes(cfg.maxProbes) && count <= cfg.maxProbes + TWO_TO_31 ==> passed == count)
      && (Probes(cfg.maxProbes) <= count <= cfg.maxProbes + TWO_TO_31 ==> passed == Probes(cfg.maxProbes))
  {
    PassedInWindow(cfg, states, calls, j, n);
  }

  /** Probe bound: the entering call is admitted too, so between entering half-open and the next outcome or
      reopening at most Probes + 1 calls pass, exactly as long as the int32 counter has not wrapped. */
  lemma ProbeBoundIff(cfg: Config, states: seq<Breaker>, calls: seq<Call>, j: nat, n: nat)
    requires IsRun(cfg, states, calls) && Probing(cfg, states, calls, j, n) && -TWO_TO_31 <= cfg.maxProbes < TWO_TO_31
    requires states[j - 1].state == Open
    ensures var count, passed := Count(calls[j..n], DoAllow), AdmittedCount(cfg, states, calls, j - 1, n);
      && (passed <= Probes(cfg.maxProbes) + 1 <==> count <= cfg.maxProbes + TWO_TO_31)
      && (Probes(cfg.maxProbes) <= count <= cfg.maxProbes + TWO_TO_31 ==> passed == Probes(cfg.maxProbes) + 1)
  {
    PassedInWindow(cfg, states, calls, j, n);
    assert states[j] == Apply(cfg, states[j - 1], calls[j - 1].event, calls[j - 1].at).0;
    AdmittedSplit(cfg, states, calls, j - 1, j, n);
    assert AdmittedCount(cfg, states, calls, j - 1, j) == 1;
  }

  lemma {:induction false} AdmittedSplit(cfg: Config, states: seq<Breaker>, calls: seq<Call>, i: nat, j: nat, n: nat)
    requires i <= j <= n <= |calls| && n <= |states|
    ensures AdmittedCount(cfg, states, calls, i, n) ==
      AdmittedCount(cfg, states, calls, i, j) + AdmittedCount(cfg, states, calls, j, n)
    decreases n - j
  {
    if j < n {
      AdmittedSplit(cfg, states, calls, i, j, n - 1);
    }
  }

  // ---------- a window of any length ----------

  lemma ExtendRun(cfg: Config, states: seq<Breaker>, calls: seq<Call>, c: Call)
    returns (states': seq<Breaker>, calls': seq<Call>)
    requires IsRun(cfg, states, calls) && c.event != DoReset && c.at >= ZERO_TIME
    requires forall i :: 0 <= i < |calls| ==> calls[i].at <= c.at
    ensures IsRun(cfg, states', calls') && calls' == calls + [c]
    ensures states' == states + [Apply(cfg, states[|calls|], c.event, c.at).0]
  {
    hide Apply;
    states', calls' := states + [Apply(cfg, states[|calls|], c.event, c.at).0], calls + [c];
  }

  /** Failures from the start, up to the first that trips the breaker. */
  lemma {:induction false} RunToOpen(cfg: Config, n: nat) returns (states: seq<Breaker>, calls: seq<Call>)
    ensures IsRun(cfg, states, calls) && forall i :: 0 <= i < |calls| ==> calls[i].at == 0
    ensures var b := states[|calls|];
      b.lastFailure == 0 && (b.state == Open || (b.state == Closed && b.failureCount == n))
    ensures n > 0 && n >= cfg.failureThreshold ==> states[|calls|].state == Open
  {
    if n == 0 {
      states, calls := [New(cfg)], [];
    } else {
      states, calls := RunToOpen(cfg, n - 1);
      if states[|calls|].state == Closed {
        states, calls := ExtendRun(cfg, states, calls, Call(DoFailure, 0));
      }
    }
  }

  lemma {:induction false} LongWindow(cfg: Config, count: nat) returns (states: seq<Breaker>, calls: seq<Call>, j: nat)
    requires cfg.timeout >= 0
    ensures IsRun(cfg, states, calls) && Probing(cfg, states, calls, j, |calls|) && states[j - 1].state == Open
    ensures Count(calls[j..|calls|], DoAllow) == count && states[|calls|].halfOpenSince == cfg.timeout + 1
    ensures forall i :: 0 <= i < |calls| ==> calls[i].at <= cfg.timeout + 1
  {
    var probe := Call(DoAllow, cfg.timeout + 1);
    if count == 0 {
      states, calls := RunToOpen(cfg, if cfg.failureThreshold <= 1 then 1 else cfg.failureThreshold);
      states, calls := ExtendRun(cfg, states, calls, probe);
      j := |calls|;
      CountNone(calls, j, DoAllow);
    } else {
      states, calls, j := LongWindow(cfg, count - 1);
      ghost var n := |calls|;
      ghost var before := calls;
      states, calls := ExtendRun(cfg, states, calls, probe);
      assert calls[j..n] == before[j..n];
      CountNext(calls, j, n, DoAllow);
    }
  }

  /** So for every configuration there is a run whose window lets more than Probes + 1 calls through. */
  lemma ProbeBoundCanFail(cfg: Config) returns (states: seq<Breaker>, calls: seq<Call>, j: nat)
    requires cfg.timeout >= 0 && -TWO_TO_31 <= cfg.maxProbes < TWO_TO_31
    ensures IsRun(cfg, states, calls) && Probing(cfg, states, calls, j, |calls|) && states[j - 1].state == Open
    ensures AdmittedCount(cfg, states, calls, j - 1, |calls|) > Probes(cfg.maxProbes) + 1
  {
    states, calls, j := LongWindow(cfg, cfg.maxProbes + TWO_TO_31 + 1);
    ProbeBoundIff(cfg, states, calls, j, |calls|);
  }
}
