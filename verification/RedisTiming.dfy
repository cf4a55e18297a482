/**
 When the renewal ticker of internal/coordinator/redis_coordinator.go keeps a lock
 alive: if a goroutine is never held up for more than delay, and the TTL leaves room for
 one ticker period and delay more than renewals are lost in a row, then every renewal is
 timely, and two workers never hold one key.
 */
module RedisTiming {
  import opened RedisLock

  /** The TTL that callers use for each key, a bound on how late a goroutine or a request can be, and a bound on the
      renewals that are lost in a row. */
  datatype Setup = Setup(ttl: Key -> Ttl, delay: nat, losses: nat)

  /** What EXPIRE grants. */
  function Granting(x: Setup, k: Key): nat {
    WholeSeconds(x.ttl(k)) * SECOND
  }

  /** The time that n renewals can take, each a period and a delay after the one before. */
  function Rounds(x: Setup, ttl: Ttl, n: nat): nat {
    if n == 0 then 0 else Period(ttl) + x.delay + Rounds(x, ttl, n - 1)
  }

  predicate Fits(x: Setup, k: Key) {
    x.delay + Rounds(x, x.ttl(k), x.losses + 1) < Granting(x, k)
  }

  /** What is left for the losses that goroutine p may still meet. */
  function Slack(x: Setup, p: Proc): nat
    requires p.RenewIdle? || p.RenewSend?
  {
    if p.lost <= x.losses then Rounds(x, p.ttl, x.losses - p.lost) else 0
  }

  /** When goroutine p must have taken its next step at the latest. */
  function Deadline(x: Setup, p: Proc): int
    requires p.AcquireWon? || p.RenewIdle? || p.RenewSend?
  {
    match p
    case AcquireWon(_, _, _, at) => at + x.delay
    case RenewIdle(_, _, _, due, _) => due + x.delay
    case RenewSend(_, _, _, _, _, fired) => fired + x.delay
  }

  predicate Timed(p: Proc) {
    p.AcquireWon? || p.RenewIdle? || p.RenewSend?
  }

  /** The caller's discipline and the bounds; nothing here mentions the server's expiry times.  The context passed to
      AcquireLock, with which the renewal goroutine ends, outlives the lock. */
  ghost predicate Prompt(x: Setup, s: State, step: Step) {
    && Meets(s, step, NoOverlap)
    && (step.StartAcquire? ==> step.ttl == x.ttl(step.key) && Fits(x, step.key))
    && (step.Tick? ==> forall pid :: pid in s.procs && Timed(s.procs[pid]) ==>
        s.now + step.elapsed <= Deadline(x, s.procs[pid]))
    && (step.Abandon? && step.pid in s.procs ==>
          && (s.procs[step.pid].RenewIdle? ==> s.procs[step.pid].key !in Held(s, s.procs[step.pid].worker))
          && (s.procs[step.pid].RenewSend? ==> s.procs[step.pid].lost < x.losses))
  }

  ghost predicate PromptRun(x: Setup, states: seq<State>, steps: seq<Step>) {
    && IsRun(states, steps)
    && forall i :: 0 <= i < |steps| ==> Prompt(x, states[i], steps[i])
  }

  // ---------- the invariant ----------

  /** Clocks of a goroutine lie where they can. */
  predicate Clocked(x: Setup, now: int, p: Proc) {
    && (!p.ReleaseCall? ==> p.ttl == x.ttl(p.key) && Fits(x, p.key))
    && (p.AcquireWon? ==> p.at <= now <= p.at + x.delay)
    && (p.RenewIdle? ==> p.due <= now + Period(p.ttl) && now <= p.due + x.delay && p.lost <= x.losses)
    && (p.RenewSend? ==>
          && p.fired + Period(p.ttl) <= p.due <= now + Period(p.ttl)
          && p.due <= p.fired + x.delay + Period(p.ttl)
          && p.fired <= now <= p.fired + x.delay && p.lost <= x.losses)
  }

  ghost predicate AllClocked(x: Setup, s: State) {
    forall pid :: pid in s.procs ==> Clocked(x, s.now, s.procs[pid])
  }

  predicate Renews(p: Proc, w: WorkerId, k: Key) {
    (p.RenewIdle? || p.RenewSend?) && p.worker == w && p.key == k
  }

  /** A renewal goroutine of w for k that acts before the server forgets. */
  ghost predicate Renewed(x: Setup, s: State, w: WorkerId, k: Key) {
    exists pid :: pid in s.procs && Renews(s.procs[pid], w, k)
                  && k in s.server && Survives(x, s.procs[pid], s.server[k].expiresAt)
  }

  /** Even if the renewals of p are lost as often as they may be, one arrives before the time. */
  predicate Survives(x: Setup, p: Proc, time: int)
    requires p.RenewIdle? || p.RenewSend?
  {
    Deadline(x, p) + Slack(x, p) < time
  }

  ghost predicate Covered(x: Setup, s: State) {
    && (forall w, k :: k in Held(s, w) ==> Renewed(x, s, w, k))
    && (forall pid :: pid in s.procs && s.procs[pid].AcquireWon? ==>
          var p := s.procs[pid];
          p.key in s.server && p.at + Granting(x, p.key) <= s.server[p.key].expiresAt)
  }

  ghost predicate Inv(x: Setup, s: State) {
    AllClocked(x, s) && Covered(x, s) && Orderly(s) && Safe(s)
  }

  /** The goroutines' deadlines come before the expiry of every key that is believed held. */
  lemma PromptIsTimely(x: Setup, s: State, step: Step)
    requires Inv(x, s) && Enabled(s, step) && Prompt(x, s, step)
    ensures Disciplined(s, step)
  {
    if step.Tick? {
      forall w, k | Granted(s, w, k) && k in s.server ensures s.now + step.elapsed < s.server[k].expiresAt {
        if k in Held(s, w) {
          var pid :| pid in s.procs && Renews(s.procs[pid], w, k) && Survives(x, s.procs[pid], s.server[k].expiresAt);
          assert Timed(s.procs[pid]);
        } else {
          var pid :| pid in s.procs && Won(s.procs[pid], w, k);
          assert Timed(s.procs[pid]) && Clocked(x, s.now, s.procs[pid]);
        }
      }
    }
    if step.StartAcquire? {
      assert WholeSeconds(step.ttl) > 0;
    }
  }

  lemma ClockedStep(x: Setup, s: State, step: Step)
    requires AllClocked(x, s) && Enabled(s, step) && Prompt(x, s, step)
    ensures AllClocked(x, Next(s, step))
  {
    hide Fits, Period, Meets;
    var s' := Next(s, step);
    forall pid | pid in s'.procs ensures Clocked(x, s'.now, s'.procs[pid]) {
      if pid in s.procs {
        assert Clocked(x, s.now, s.procs[pid]);
      }
    }
  }

  /** What a step does to the expiry of a key that stays believed: an EXPIRE of its owner moves it, nothing else. */
  lemma ExpiryStep(x: Setup, s: State, step: Step, w: WorkerId, k: Key)
    requires Inv(x, s) && Enabled(s, step) && Prompt(x, s, step) && Granted(s, w, k)
    ensures k in s.server && s.server[k].owner == w
    ensures var s' := Next(s, step);
      && k in s'.server
      && (s'.server[k] == s.server[k] ||
          (s'.server[k].expiresAt == s.now + Granting(x, k) && s'.now == s.now))
  {
    PromptIsTimely(x, s, step);
    DisciplinedDoesNotBreak(s, step);
    assert Owns(s, w, k);
    if step.GuardedExpire? {
      assert Clocked(x, s.now, s.procs[step.pid]);
    }
  }

  /** A renewal goroutine that acts in time still does after the step. */
  lemma RenewedStep(x: Setup, s: State, step: Step, w: WorkerId, k: Key)
    requires Inv(x, s) && Enabled(s, step) && Prompt(x, s, step)
    requires k in Held(s, w) && k in Held(Next(s, step), w)
    ensures Renewed(x, Next(s, step), w, k)
  {
    hide Prompt, Orderly, Safe, Covered, Fits, Meets, Survives;
    var s' := Next(s, step);
    assert Granted(s, w, k);
    ExpiryStep(x, s, step, w, k);
    assert Renewed(x, s, w, k) by { CoveredHeld(x, s, w, k); }
    var pid :| pid in s.procs && Renews(s.procs[pid], w, k) && k in s.server &&
        Survives(x, s.procs[pid], s.server[k].expiresAt);
    InTime(x, s, step, pid, w, k);
    assert Renews(s'.procs[pid], w, k);
  }

  lemma CoveredHeld(x: Setup, s: State, w: WorkerId, k: Key)
    requires Inv(x, s) && k in Held(s, w)
    ensures Renewed(x, s, w, k)
  {
  }

  /** A renewal goroutine of a held key goes on renewing; unless it reaches the server, its last chance is no later. */
  lemma GoroutineStays(x: Setup, s: State, step: Step, pid: nat)
    requires Enabled(s, step) && Prompt(x, s, step) && pid in s.procs && AllClocked(x, s)
    requires s.procs[pid].RenewIdle? || s.procs[pid].RenewSend?
    requires s.procs[pid].key in Held(s, s.procs[pid].worker)
    ensures var p, s' := s.procs[pid], Next(s, step);
      && pid in s'.procs && Renews(s'.procs[pid], p.worker, p.key)
      && (step == GuardedExpire(pid) || forall t :: Survives(x, p, t) ==> Survives(x, s'.procs[pid], t))
  {
    hide Meets, Period, Fits;
    var p := s.procs[pid];
    assert Clocked(x, s.now, p);
    if step == Abandon(pid) {
      assert Rounds(x, p.ttl, x.losses - p.lost) == Period(p.ttl) + x.delay + Rounds(x, p.ttl, x.losses - p.lost - 1);
    }
  }

  lemma {:induction false} RoundsGrow(x: Setup, ttl: Ttl, m: nat, n: nat)
    requires m <= n
    ensures Rounds(x, ttl, m) <= Rounds(x, ttl, n)
  {
    if m < n {
      RoundsGrow(x, ttl, m, n - 1);
    }
  }

  /** A TTL granted now outlasts every renewal goroutine's last chance. */
  lemma GrantSuffices(x: Setup, now: int, p: Proc)
    requires Clocked(x, now, p) && (p.RenewIdle? || p.RenewSend?)
    ensures Survives(x, p, now + Granting(x, p.key))
  {
    hide Period, Granting;
    RoundsGrow(x, p.ttl, x.losses - p.lost, x.losses);
    assert Rounds(x, p.ttl, x.losses + 1) == Period(p.ttl) + x.delay + Rounds(x, p.ttl, x.losses);
  }

  lemma InTime(x: Setup, s: State, step: Step, pid: nat, w: WorkerId, k: Key)
    requires Inv(x, s) && Enabled(s, step) && Prompt(x, s, step) && Granted(s, w, k)
    requires pid in s.procs && Renews(s.procs[pid], w, k) && k in Held(s, w)
    requires k in s.server && Survives(x, s.procs[pid], s.server[k].expiresAt)
    ensures var s' := Next(s, step);
      && pid in s'.procs && Renews(s'.procs[pid], w, k)
      && k in s'.server && Survives(x, s'.procs[pid], s'.server[k].expiresAt)
  {
    hide Prompt, Orderly, Safe, Covered, Meets, Survives, Clocked;
    var s' := Next(s, step);
    ExpiryStep(x, s, step, w, k);
    GoroutineStays(x, s, step, pid);
    ClockedStep(x, s, step);
    GrantSuffices(x, s'.now, s'.procs[pid]);
    if step == GuardedExpire(pid) {
      assert Owns(s, w, k) by { SafeGranted(x, s, w, k); }
      assert s.procs[pid].ttl == x.ttl(k) by { TtlOf(x, s, pid); }
    }
  }

  lemma TtlOf(x: Setup, s: State, pid: nat)
    requires AllClocked(x, s) && pid in s.procs && s.procs[pid].RenewSend?
    ensures s.procs[pid].ttl == x.ttl(s.procs[pid].key)
  {
    assert Clocked(x, s.now, s.procs[pid]);
  }

  lemma SafeGranted(x: Setup, s: State, w: WorkerId, k: Key)
    requires Inv(x, s) && Granted(s, w, k)
    ensures Owns(s, w, k)
  {
  }

  lemma CoveredStep(x: Setup, s: State, step: Step)
    requires Inv(x, s) && Enabled(s, step) && Prompt(x, s, step)
    ensures Covered(x, Next(s, step))
  {
    hide Prompt, Orderly, Safe, Meets, Renewed;
    var s' := Next(s, step);
    forall w, k | k in Held(s', w) ensures Renewed(x, s', w, k) {
      if k in Held(s, w) {
        RenewedStep(x, s, step, w, k);
      } else {
        RecordRenews(x, s, step, w, k);
      }
    }
    forall pid | pid in s'.procs && s'.procs[pid].AcquireWon?
      ensures s'.procs[pid].key in s'.server
      ensures s'.procs[pid].at + Granting(x, s'.procs[pid].key) <= s'.server[s'.procs[pid].key].expiresAt
    {
      WonStep(x, s, step, pid);
    }
  }

  /** Recording a won lock starts a goroutine whose first EXPIRE is in time. */
  lemma RecordRenews(x: Setup, s: State, step: Step, w: WorkerId, k: Key)
    requires Inv(x, s) && Enabled(s, step) && k !in Held(s, w) && k in Held(Next(s, step), w)
    requires Prompt(x, s, step)
    ensures Renewed(x, Next(s, step), w, k)
  {
    hide Orderly, Safe, Meets;
    assert step.RecordLock?;
    var pid := step.pid;
    var p := s.procs[pid];
    assert Clocked(x, s.now, p) && Won(p, w, k);
    var s' := Next(s, step);
    assert s'.procs[pid] == RenewIdle(w, k, p.ttl, s.now + Period(p.ttl), 0);
    assert Rounds(x, p.ttl, x.losses + 1) == Period(p.ttl) + x.delay + Rounds(x, p.ttl, x.losses);
    assert Renews(s'.procs[pid], w, k) && Survives(x, s'.procs[pid], s'.server[k].expiresAt);
  }

  lemma WonStep(x: Setup, s: State, step: Step, pid: nat)
    requires Inv(x, s) && Enabled(s, step) && Prompt(x, s, step)
    requires pid in Next(s, step).procs && Next(s, step).procs[pid].AcquireWon?
    ensures var s' := Next(s, step); var p := s'.procs[pid];
      p.key in s'.server && p.at + Granting(x, p.key) <= s'.server[p.key].expiresAt
  {
    hide Orderly, Safe, Meets;
    var s' := Next(s, step);
    var p := s'.procs[pid];
    if pid in s.procs && s.procs[pid] == p {
      assert Won(p, p.worker, p.key) && Granted(s, p.worker, p.key);
      ExpiryStep(x, s, step, p.worker, p.key);
      assert Clocked(x, s.now, p);
    } else {
      assert Clocked(x, s.now, s.procs[pid]);
    }
  }

  lemma InvStep(x: Setup, s: State, step: Step)
    requires Inv(x, s) && Enabled(s, step) && Prompt(x, s, step)
    ensures Inv(x, Next(s, step)) && Disciplined(s, step)
  {
    hide Covered, AllClocked, Prompt, Orderly, Safe, Disciplined;
    PromptIsTimely(x, s, step);
    ClockedStep(x, s, step);
    CoveredStep(x, s, step);
    OrderlyStep(s, step);
    DisciplinedDoesNotBreak(s, step);
    SafeStep(s, step);
  }

  lemma {:induction false} PromptRunInv(x: Setup, states: seq<State>, steps: seq<Step>, n: nat)
    requires PromptRun(x, states, steps) && n < |states|
    ensures Inv(x, states[n])
  {
    hide Covered, AllClocked, Prompt;
    if n > 0 {
      PromptRunInv(x, states, steps, n - 1);
      InvStep(x, states[n - 1], steps[n - 1]);
    } else {
      StartInv(x);
    }
  }

  lemma StartInv(x: Setup)
    ensures Inv(x, START)
  {
  }

  /** In a run of prompt goroutines every renewal is timely. */
  lemma PromptRunIsDisciplined(x: Setup, states: seq<State>, steps: seq<Step>)
    requires PromptRun(x, states, steps)
    ensures DisciplinedRun(states, steps)
  {
    hide Covered, AllClocked, Prompt, Disciplined;
    forall i | 0 <= i < |steps| ensures Disciplined(states[i], steps[i]) {
      PromptRunInv(x, states, steps, i);
      InvStep(x, states[i], steps[i]);
    }
  }

  /** Mutual exclusion from the ticker: if goroutines and requests are at most delay late and each key's TTL has room
      for a third of itself and two delays, a key in a worker's lockKeys is that worker's on the server, and no two
      workers ever hold it. */
  lemma TickerKeepsLocks(x: Setup, states: seq<State>, steps: seq<Step>, n: nat)
    requires PromptRun(x, states, steps) && n < |states|
    ensures forall w, k :: k in Held(states[n], w) ==> Owns(states[n], w, k)
    ensures Exclusive(states[n])
  {
    PromptRunIsDisciplined(x, states, steps);
    MutualExclusion(states, steps, n);
  }

  /** Without losses TTLs of a second and more fit with any delay of up to a twelfth of a second. */
  lemma SecondsFit(x: Setup, k: Key)
    requires x.ttl(k) >= SECOND && 12 * x.delay < SECOND && x.losses == 0
    ensures Fits(x, k)
  {
    var ttl := x.ttl(k);
    assert ttl < (WholeSeconds(ttl) + 1) * SECOND;
    assert Rounds(x, ttl, 1) == Period(ttl) + x.delay + Rounds(x, ttl, 0);
  }

  /** A TTL of whole seconds bears one lost renewal with any delay of less than a ninth of it. */
  lemma OneLossFits(x: Setup, k: Key)
    requires WholeSeconds(x.ttl(k)) * SECOND == x.ttl(k) && 9 * x.delay < x.ttl(k) && x.losses == 1
    ensures Fits(x, k)
  {
    var ttl := x.ttl(k);
    assert Rounds(x, ttl, 2) == Period(ttl) + x.delay + Rounds(x, ttl, 1);
    assert Rounds(x, ttl, 1) == Period(ttl) + x.delay + Rounds(x, ttl, 0);
  }

  /** No TTL bears three: a third of it is lost with each. */
  lemma {:induction false} ThreeLossesDoNotFit(x: Setup, k: Key)
    requires x.losses >= 3
    ensures !Fits(x, k)
  {
    var ttl := x.ttl(k);
    RoundsGrow(x, ttl, 4, x.losses + 1);
    assert Rounds(x, ttl, 4) >= 4 * Period(ttl) by {
      assert Rounds(x, ttl, 1) == Period(ttl) + x.delay + Rounds(x, ttl, 0);
      assert Rounds(x, ttl, 2) == Period(ttl) + x.delay + Rounds(x, ttl, 1);
      assert Rounds(x, ttl, 3) == Period(ttl) + x.delay + Rounds(x, ttl, 2);
    }
  }

  // ---------- the context must outlive the lock ----------

  /** Every step is prompt, but goroutine pid may end at any time. */
  ghost predicate PromptBut(x: Setup, states: seq<State>, steps: seq<Step>, pid: nat) {
    && IsRun(states, steps)
    && forall i :: 0 <= i < |steps| ==> steps[i] == Abandon(pid) || Prompt(x, states[i], steps[i])
  }

  lemma ExtendPrompt(x: Setup, states: seq<State>, steps: seq<Step>, pid: nat, step: Step)
    returns (states': seq<State>, steps': seq<Step>)
    requires PromptBut(x, states, steps, pid) && Enabled(states[|steps|], step)
    requires step == Abandon(pid) || Prompt(x, states[|steps|], step)
    ensures PromptBut(x, states', steps', pid) && states'[|steps'|] == Next(states[|steps|], step)
  {
    hide Prompt;
    states', steps' := states + [Next(states[|steps|], step)], steps + [step];
  }

  lemma ExtendByAcquire(x: Setup, states: seq<State>, steps: seq<Step>, pid: nat, n: nat, w: WorkerId, k: Key)
    returns (states': seq<State>, steps': seq<Step>)
    requires PromptBut(x, states, steps, pid) && Fits(x, k)
    requires var s := states[|steps|];
      !Live(s, k) && k !in Held(s, w) && n !in s.procs && !Releasing(s, w, k)
    ensures PromptBut(x, states', steps', pid)
    ensures states'[|steps'|] == Taken(states[|steps|], n, w, k, x.ttl(k))
  {
    hide Fits, Period;
    var a, b := TakeSucceeds(states[|steps|], n, w, k, x.ttl(k));
    states', steps' := ExtendPrompt(x, states, steps, pid, StartAcquire(n, w, k, x.ttl(k)));
    states', steps' := ExtendPrompt(x, states', steps', pid, SetNX(n, false));
    states', steps' := ExtendPrompt(x, states', steps', pid, RecordLock(n));
  }

  /** The renewal goroutine ends with the context passed to AcquireLock while the key stays in lockKeys.  However
      prompt everything else is, the lock expires and a second worker takes it. */
  lemma ContextMustOutliveLock(x: Setup, w: WorkerId, v: WorkerId, k: Key)
    returns (states: seq<State>, steps: seq<Step>)
    requires w != v && Fits(x, k)
    ensures PromptBut(x, states, steps, 0) && !Exclusive(states[|steps|])
  {
    hide Fits, Period;
    states, steps := ExtendByAcquire(x, [START], [], 0, 0, w, k);
    states, steps := ExtendPrompt(x, states, steps, 0, Abandon(0));
    assert states[|steps|].procs == map[];
    states, steps := ExtendPrompt(x, states, steps, 0, Tick(x.ttl(k)));
    states, steps := ExtendByAcquire(x, states, steps, 0, 1, v, k);
    BothHold(states[|steps|], w, v, k);
  }
}
