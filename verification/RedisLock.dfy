/**
 The distributed lock of internal/coordinator/redis_coordinator.go as a timed
 step system.

 Any number of workers, and any number of concurrent calls inside one worker, run
 against one Redis server.  Every access to the server and every critical section
 of a worker's mutex is one atomic step; the steps of different goroutines
 interleave freely.  A request can be lost, and a successful reply can be lost
 after the server has acted on it.  Time is in nanoseconds.
 */
module RedisLock {
  type WorkerId = string
  type Key = string
  /** The renewal ticker panics on a zero period, a third of the TTL. */
  type Ttl = t: int | 3 <= t witness 3

  const SECOND := 1_000_000_000

  /** A lock key on the server: the value is the owner's worker ID. */
  datatype Entry = Entry(owner: WorkerId, expiresAt: int)

  /** A goroutine between two of its atomic steps.  A renewal goroutine has seen lost requests in a row fail. */
  datatype Proc =
    | AcquireCall(worker: WorkerId, key: Key, ttl: Ttl)  // lockKeys checked, SET NX not yet sent
    | AcquireWon(worker: WorkerId, key: Key, ttl: Ttl, at: int)  // SET NX succeeded, lockKeys not yet updated
    | ReleaseCall(worker: WorkerId, key: Key)            // dropped from lockKeys, guarded DEL not yet sent
    | RenewIdle(worker: WorkerId, key: Key, ttl: Ttl, due: int, lost: nat)  // waiting for the tick due then
    | RenewSend(worker: WorkerId, key: Key, ttl: Ttl, due: int, lost: nat, fired: int)  // guarded EXPIRE not yet sent

  datatype State = State(
    now: int,
    server: map<Key, Entry>,
    lockKeys: map<WorkerId, set<Key>>,
    procs: map<nat, Proc>)

  datatype Step =
    | Tick(elapsed: nat)
    | StartAcquire(pid: nat, worker: WorkerId, key: Key, ttl: Ttl)
    | SetNX(pid: nat, replyLost: bool)
    | RecordLock(pid: nat)
    | StartRelease(pid: nat, worker: WorkerId, key: Key)
    | GuardedDel(pid: nat)
    | RenewTick(pid: nat, due: int)  // the tick after this one is due then
    | GuardedExpire(pid: nat)
    | Abandon(pid: nat)  // the request is lost, or the goroutine's context is cancelled

  const START := State(0, map[], map[], map[])

  // ---------- server and worker state ----------

  /** GET on the server: an expired key is absent. */
  predicate Live(s: State, k: Key) {
    k in s.server && s.now < s.server[k].expiresAt
  }

  predicate Owns(s: State, w: WorkerId, k: Key) {
    Live(s, k) && s.server[k].owner == w
  }

  function Held(s: State, w: WorkerId): set<Key> {
    if w in s.lockKeys then s.lockKeys[w] else {}
  }

  /** EXPIRE takes int(ttl.Seconds()): the whole seconds of the TTL. */
  function WholeSeconds(ttl: Ttl): nat {
    ttl / SECOND
  }

  function Period(ttl: Ttl): (p: int)
    ensures p > 0
  {
    ttl / 3
  }

  // ---------- the steps ----------

  predicate Enabled(s: State, step: Step) {
    match step
    case Tick(_) => true
    case StartAcquire(pid, w, k, ttl) => pid !in s.procs
    case SetNX(pid, _) => pid in s.procs && s.procs[pid].AcquireCall?
    case RecordLock(pid) => pid in s.procs && s.procs[pid].AcquireWon?
    case StartRelease(pid, w, k) => pid !in s.procs
    case GuardedDel(pid) => pid in s.procs && s.procs[pid].ReleaseCall?
    case RenewTick(pid, due) =>  // a late receiver may find the next tick waiting, or wait a period for it
      && pid in s.procs && s.procs[pid].RenewIdle? && s.procs[pid].due <= s.now
      && s.procs[pid].due + Period(s.procs[pid].ttl) <= due <= s.now + Period(s.procs[pid].ttl)
    case GuardedExpire(pid) => pid in s.procs && s.procs[pid].RenewSend?
    case Abandon(pid) => pid in s.procs && !s.procs[pid].AcquireWon?
  }

  function Next(s: State, step: Step): (s': State)
    requires Enabled(s, step)
  {
    match step
    case Tick(d) => s.(now := s.now + d)
    case StartAcquire(pid, w, k, ttl) =>
      if k in Held(s, w) then s  // already held: AcquireLock answers true at once
      else s.(procs := s.procs[pid := AcquireCall(w, k, ttl)])
    case SetNX(pid, replyLost) =>
      var p := s.procs[pid];
      if Live(s, p.key) then s.(procs := s.procs - {pid})  // refused: AcquireLock answers false
      else
        s.(server := s.server[p.key := Entry(p.worker, s.now + p.ttl)],
           procs := if replyLost then s.procs - {pid}
                    else s.procs[pid := AcquireWon(p.worker, p.key, p.ttl, s.now)])
    case RecordLock(pid) =>
      var p := s.procs[pid];
      s.(lockKeys := s.lockKeys[p.worker := Held(s, p.worker) + {p.key}],
         procs := s.procs[pid := RenewIdle(p.worker, p.key, p.ttl, s.now + Period(p.ttl), 0)])
    case StartRelease(pid, w, k) =>
      if k !in Held(s, w) then s
      else s.(lockKeys := s.lockKeys[w := Held(s, w) - {k}],
              procs := s.procs[pid := ReleaseCall(w, k)])
    case GuardedDel(pid) =>
      var p := s.procs[pid];
      s.(server := if Owns(s, p.worker, p.key) then s.server - {p.key} else s.server,
         procs := s.procs - {pid})
    case RenewTick(pid, due) =>
      var p := s.procs[pid];
      s.(procs := if p.key in Held(s, p.worker)
                  then s.procs[pid := RenewSend(p.worker, p.key, p.ttl, due, p.lost, p.due)]
                  else s.procs - {pid})
    case GuardedExpire(pid) =>
      var p := s.procs[pid];
      s.(server := if !Owns(s, p.worker, p.key) then s.server
                   else if WholeSeconds(p.ttl) == 0 then s.server - {p.key}  // EXPIRE 0 deletes
                   else s.server[p.key := Entry(p.worker, s.now + WholeSeconds(p.ttl) * SECOND)],
         procs := s.procs[pid := RenewIdle(p.worker, p.key, p.ttl, p.due, 0)])
    case Abandon(pid) =>
      var p := s.procs[pid];
      if p.RenewSend?
      then s.(procs := s.procs[pid := RenewIdle(p.worker, p.key, p.ttl, p.due, p.lost + 1)])  // try again next tick
      else s.(procs := s.procs - {pid})
  }

  /** A run: consecutive states are related by the listed steps. */
  ghost predicate IsRun(states: seq<State>, steps: seq<Step>) {
    && |states| == |steps| + 1
    && states[0] == START
    && forall i :: 0 <= i < |steps| ==>
         Enabled(states[i], steps[i]) && states[i + 1] == Next(states[i], steps[i])
  }

  // ---------- who may change an owner ----------

  /** The step takes live key k away from worker w. */
  predicate Ends(s: State, step: Step, w: WorkerId, k: Key)
    requires Enabled(s, step) && Owns(s, w, k)
  {
    match step
    case Tick(d) => s.server[k].expiresAt <= s.now + d
    case GuardedDel(pid) => s.procs[pid] == ReleaseCall(w, k)
    case GuardedExpire(pid) =>
      s.procs[pid].worker == w && s.procs[pid].key == k && WholeSeconds(s.procs[pid].ttl) == 0
    case _ => false
  }

  /** For every state and step: ownership survives exactly unless the step ends it. */
  lemma OwnershipStep(s: State, step: Step, w: WorkerId, k: Key)
    requires Enabled(s, step) && Owns(s, w, k)
    ensures Owns(Next(s, step), w, k) <==> !Ends(s, step, w, k)
    ensures Live(Next(s, step), k) ==> Next(s, step).server[k].owner == w
  {
  }

  /** In every run, if a key passes from one owner to another then some step in between ended the first
      ownership: its own guarded DEL, its expiry, or its own renewal with a sub-second TTL. */
  lemma {:induction false} OwnerHandover(states: seq<State>, steps: seq<Step>, i: nat, j: nat, w: WorkerId,
                                         v: WorkerId, k: Key)
    requires IsRun(states, steps) && i <= j < |states|
    requires w != v && Owns(states[i], w, k) && Owns(states[j], v, k)
    ensures exists n :: i <= n < j && Owns(states[n], w, k) && Ends(states[n], steps[n], w, k)
    decreases j - i
  {
    assert i < j;
    OwnershipStep(states[i], steps[i], w, k);
    if !Ends(states[i], steps[i], w, k) {
      OwnerHandover(states, steps, i + 1, j, w, v, k);
    }
  }

  // ---------- mutual exclusion ----------

  /** Worker w believes it has k: recorded in lockKeys, or about to be. */
  ghost predicate Granted(s: State, w: WorkerId, k: Key) {
    k in Held(s, w) || exists pid :: pid in s.procs && Won(s.procs[pid], w, k)
  }

  predicate Won(p: Proc, w: WorkerId, k: Key) {
    p.AcquireWon? && p.worker == w && p.key == k
  }

  /** What a worker believes it has, it has. */
  ghost predicate Safe(s: State) {
    forall w, k :: Granted(s, w, k) ==> Owns(s, w, k)
  }

  ghost predicate Exclusive(s: State) {
    forall w, v, k :: k in Held(s, w) && k in Held(s, v) ==> w == v
  }

  /** The three ways a step can pull a lock from under its holder. */
  ghost predicate Breaks(s: State, step: Step)
    requires Enabled(s, step)
  {
    match step
    case Tick(d) => exists w, k :: Granted(s, w, k) && k in s.server && s.server[k].expiresAt <= s.now + d
    case GuardedDel(pid) => Granted(s, s.procs[pid].worker, s.procs[pid].key)
    case GuardedExpire(pid) =>
      Granted(s, s.procs[pid].worker, s.procs[pid].key) && WholeSeconds(s.procs[pid].ttl) == 0
    case _ => false
  }

  /** Which beliefs a step creates: only a successful SET NX whose reply arrives. */
  lemma GrantedOrigin(s: State, step: Step, w: WorkerId, k: Key)
    requires Enabled(s, step) && Granted(Next(s, step), w, k) && !Granted(s, w, k)
    ensures step.SetNX? && !step.replyLost && !Live(s, k)
    ensures s.procs[step.pid].worker == w && s.procs[step.pid].key == k
  {
  }

  /** Worker w calls ReleaseLock for k. */
  predicate Releases(step: Step, w: WorkerId, k: Key) {
    step.StartRelease? && step.worker == w && step.key == k
  }

  /** A belief outlives every step except a release of that very key by that very worker. */
  lemma GrantedSurvives(s: State, step: Step, w: WorkerId, k: Key)
    requires Enabled(s, step) && Granted(s, w, k) && !Releases(step, w, k)
    ensures Granted(Next(s, step), w, k)
  {
    var s' := Next(s, step);
    if k !in Held(s, w) {
      var pid :| pid in s.procs && Won(s.procs[pid], w, k);
      assert k in Held(s', w) || (pid in s'.procs && Won(s'.procs[pid], w, k));
    }
  }

  /** So in every run a belief that is gone was released in between. */
  lemma {:induction false} BeliefEnds(states: seq<State>, steps: seq<Step>, m: nat, n: nat, w: WorkerId, k: Key)
    requires IsRun(states, steps) && m <= n < |states| && Granted(states[m], w, k) && !Granted(states[n], w, k)
    ensures exists i :: m <= i < n && Releases(steps[i], w, k)
    decreases n - m
  {
    hide Granted, Next, Enabled;
    assert m < n;
    assert Enabled(states[m], steps[m]) && states[m + 1] == Next(states[m], steps[m]);
    if !Releases(steps[m], w, k) {
      GrantedSurvives(states[m], steps[m], w, k);
      BeliefEnds(states, steps, m + 1, n, w, k);
    }
  }

  /** Worker w records k: its SET NX had succeeded. */
  predicate Records(s: State, step: Step, w: WorkerId, k: Key) {
    step.RecordLock? && step.pid in s.procs && Won(s.procs[step.pid], w, k)
  }

  /** Recorded, and not released since. */
  predicate HeldByHistory(states: seq<State>, steps: seq<Step>, n: nat, w: WorkerId, k: Key)
    requires |states| == |steps| + 1 && n <= |steps|
  {
    n > 0 && (Records(states[n - 1], steps[n - 1], w, k) ||
              (HeldByHistory(states, steps, n - 1, w, k) && !Releases(steps[n - 1], w, k)))
  }

  /** In every run lockKeys holds exactly the keys that the worker recorded and has not released since. */
  lemma {:induction false} HeldIff(states: seq<State>, steps: seq<Step>, n: nat, w: WorkerId, k: Key)
    requires IsRun(states, steps) && n <= |steps|
    ensures k in Held(states[n], w) <==> HeldByHistory(states, steps, n, w, k)
  {
    if n > 0 {
      HeldIff(states, steps, n - 1, w, k);
      assert states[n] == Next(states[n - 1], steps[n - 1]);
    }
  }

  // ---------- what a step does to one key and to one goroutine ----------

  /** The server's entry for k, if there is one. */
  function Found(s: State, k: Key): set<Entry> {
    if k in s.server then {s.server[k]} else {}
  }

  /** A request of worker w for key k reaches the server. */
  predicate Requests(s: State, step: Step, w: WorkerId, k: Key) {
    && (step.SetNX? || step.GuardedDel? || step.GuardedExpire?)
    && step.pid in s.procs && s.procs[step.pid].worker == w && s.procs[step.pid].key == k
  }

  /** The server's entry for a key changes only by a request for that key: a SET NX when it is free, and a guarded
      DEL or EXPIRE when its sender owns it.  An EXPIRE grants the whole seconds of the TTL from now on. */
  lemma EntryChangesOnly(s: State, step: Step, k: Key)
    requires Enabled(s, step) && Found(Next(s, step), k) != Found(s, k)
    ensures exists w :: Requests(s, step, w, k) && if step.SetNX? then !Live(s, k) else Owns(s, w, k)
    ensures step.SetNX? ==>
      Found(Next(s, step), k) == {Entry(s.procs[step.pid].worker, s.now + s.procs[step.pid].ttl)}
    ensures step.GuardedDel? ==> Found(Next(s, step), k) == {}
    ensures step.GuardedExpire? && WholeSeconds(s.procs[step.pid].ttl) > 0 ==>
      Found(Next(s, step), k) == {s.server[k].(expiresAt := s.now + WholeSeconds(s.procs[step.pid].ttl) * SECOND)}
  {
    assert Requests(s, step, s.procs[step.pid].worker, k);
  }

  /** AcquireLock asks the server exactly when the key is not recorded; its SET NX wins exactly a free key, and then
      it goes on to record it; refused, or with its reply lost, it is over. */
  lemma AcquireGoesOn(s: State, step: Step)
    requires Enabled(s, step)
    ensures step.StartAcquire? ==>
      (step.pid in Next(s, step).procs <==> step.key !in Held(s, step.worker))
    ensures step.SetNX? ==>
      var p := s.procs[step.pid];
      && (!Live(s, p.key) ==> Owns(Next(s, step), p.worker, p.key))
      && (step.pid in Next(s, step).procs <==> !Live(s, p.key) && !step.replyLost)
    ensures step.RecordLock? ==>
      step.pid in Next(s, step).procs && Next(s, step).procs[step.pid].RenewIdle?
  {
  }

  /** ReleaseLock sends its DEL exactly when the key is recorded, and is over with it. */
  lemma ReleaseGoesOn(s: State, step: Step)
    requires Enabled(s, step)
    ensures step.StartRelease? ==>
      (step.pid in Next(s, step).procs <==> step.key in Held(s, step.worker))
    ensures step.GuardedDel? ==> step.pid !in Next(s, step).procs
  {
  }

  /** A renewal goroutine ends at the first tick that finds its key released; otherwise it sends an EXPIRE, whose loss
      it counts, and waits for the next tick. */
  lemma RenewalGoesOn(s: State, step: Step)
    requires Enabled(s, step)
    ensures step.RenewTick? ==>
      var p := s.procs[step.pid];
      && (step.pid in Next(s, step).procs <==> p.key in Held(s, p.worker))
      && (step.pid in Next(s, step).procs ==> Next(s, step).procs[step.pid].RenewSend?)
    ensures step.GuardedExpire? ==>
      step.pid in Next(s, step).procs && Next(s, step).procs[step.pid].RenewIdle?
      && Next(s, step).procs[step.pid].lost == 0
    ensures step.Abandon? && s.procs[step.pid].RenewSend? ==>
      step.pid in Next(s, step).procs && Next(s, step).procs[step.pid].RenewIdle?
      && Next(s, step).procs[step.pid].lost == s.procs[step.pid].lost + 1
    ensures step.Abandon? && !s.procs[step.pid].RenewSend? ==> step.pid !in Next(s, step).procs
  {
  }

  /** Time passes by ticks alone. */
  lemma TimePasses(s: State, step: Step)
    requires Enabled(s, step)
    ensures Next(s, step).now == s.now + if step.Tick? then step.elapsed else 0
  {
  }

  /** No step touches another goroutine. */
  lemma OthersUntouched(s: State, step: Step, pid: nat)
    requires Enabled(s, step) && (step.Tick? || step.pid != pid)
    ensures pid in Next(s, step).procs <==> pid in s.procs
    ensures pid in s.procs ==> Next(s, step).procs[pid] == s.procs[pid]
  {
  }

  /** Exactly when a step keeps every belief true. */
  lemma SafeStep(s: State, step: Step)
    requires Safe(s) && Enabled(s, step)
    ensures Safe(Next(s, step)) <==> !Breaks(s, step)
  {
    var s' := Next(s, step);
    if !Breaks(s, step) {
      forall w, k | Granted(s', w, k) ensures Owns(s', w, k) {
        if Granted(s, w, k) {
          OwnershipStep(s, step, w, k);
        } else {
          GrantedOrigin(s, step, w, k);
        }
      }
    } else {
      var w, k :| Granted(s, w, k) && Owns(s, w, k) && Ends(s, step, w, k);
      OwnershipStep(s, step, w, k);
      GrantedSurvives(s, step, w, k);
    }
  }

  /** What the protocol needs of its callers and of the network. */
  datatype Assumption = LongTtl | NoOverlap | TimelyRenewal

  ghost predicate Meets(s: State, step: Step, a: Assumption) {
    match a
    case LongTtl =>  // every TTL is at least a second
      step.StartAcquire? ==> WholeSeconds(step.ttl) > 0
    case NoOverlap =>  // no AcquireLock and ReleaseLock of one key overlap inside one worker
      && (step.StartAcquire? ==> !Releasing(s, step.worker, step.key))
      && (step.StartRelease? ==> !Acquiring(s, step.worker, step.key))
    case TimelyRenewal =>  // a renewal reaches the server before the TTL runs out
      step.Tick? ==> forall w, k :: Granted(s, w, k) && k in s.server ==> s.now + step.elapsed < s.server[k].expiresAt
  }

  ghost predicate Disciplined(s: State, step: Step) {
    Meets(s, step, LongTtl) && Meets(s, step, NoOverlap) && Meets(s, step, TimelyRenewal)
  }

  ghost predicate Releasing(s: State, w: WorkerId, k: Key) {
    exists pid :: pid in s.procs && s.procs[pid] == ReleaseCall(w, k)
  }

  predicate IsAcquire(p: Proc, w: WorkerId, k: Key) {
    (p.AcquireCall? || p.AcquireWon?) && p.worker == w && p.key == k
  }

  ghost predicate Acquiring(s: State, w: WorkerId, k: Key) {
    exists pid :: pid in s.procs && IsAcquire(s.procs[pid], w, k)
  }

  ghost predicate DisciplinedRun(states: seq<State>, steps: seq<Step>) {
    && IsRun(states, steps)
    && forall i :: 0 <= i < |steps| ==> Disciplined(states[i], steps[i])
  }

  /** No release is in flight for a key its worker has or is acquiring, and every TTL reaches a second. */
  ghost predicate Orderly(s: State) {
    && (forall pid :: pid in s.procs && !s.procs[pid].ReleaseCall? ==> WholeSeconds(s.procs[pid].ttl) > 0)
    && (forall w, k :: Releasing(s, w, k) ==> !Acquiring(s, w, k) && k !in Held(s, w))
  }

  lemma OrderlyStep(s: State, step: Step)
    requires Orderly(s) && Enabled(s, step) && Disciplined(s, step)
    ensures Orderly(Next(s, step))
  {
    hide Releasing, Acquiring;
    var s' := Next(s, step);
    forall w, k | Releasing(s', w, k) ensures !Acquiring(s', w, k) && k !in Held(s', w) {
      ReleaseStaysAlone(s, step, w, k);
    }
  }

  lemma ReleaseStaysAlone(s: State, step: Step, w: WorkerId, k: Key)
    requires Orderly(s) && Enabled(s, step) && Meets(s, step, NoOverlap) && Releasing(Next(s, step), w, k)
    ensures !Acquiring(Next(s, step), w, k) && k !in Held(Next(s, step), w)
  {
    var s' := Next(s, step);
    var r :| r in s'.procs && s'.procs[r] == ReleaseCall(w, k);
    if r in s.procs && s.procs[r] == ReleaseCall(w, k) {
      assert Releasing(s, w, k);
      assert forall pid :: pid in s.procs ==> !IsAcquire(s.procs[pid], w, k);
    } else {
      assert step.StartRelease? && !Acquiring(s, w, k);
      assert forall pid :: pid in s'.procs && pid != r ==> pid in s.procs && s'.procs[pid] == s.procs[pid];
    }
  }

  lemma DisciplinedDoesNotBreak(s: State, step: Step)
    requires Orderly(s) && Safe(s) && Enabled(s, step) && Disciplined(s, step)
    ensures !Breaks(s, step)
  {
  }

  lemma {:induction false} RunIsSafe(states: seq<State>, steps: seq<Step>, n: nat)
    requires DisciplinedRun(states, steps) && n < |states|
    ensures Orderly(states[n]) && Safe(states[n])
  {
    if n > 0 {
      RunIsSafe(states, steps, n - 1);
      DisciplinedDoesNotBreak(states[n - 1], steps[n - 1]);
      SafeStep(states[n - 1], steps[n - 1]);
      OrderlyStep(states[n - 1], steps[n - 1]);
    }
  }

  /** Mutual exclusion over whole runs: a key in a worker's lockKeys is owned by that worker on the
      server, so no two workers ever hold it. */
  lemma MutualExclusion(states: seq<State>, steps: seq<Step>, n: nat)
    requires DisciplinedRun(states, steps) && n < |states|
    ensures forall w, k :: k in Held(states[n], w) ==> Owns(states[n], w, k)
    ensures Exclusive(states[n])
  {
    RunIsSafe(states, steps, n);
    var s := states[n];
    forall w, k | k in Held(s, w) ensures Owns(s, w, k) {
      assert Granted(s, w, k);
    }
  }

  // ---------- each assumption is needed ----------

  /** The steps by which worker w, calling as goroutine pid, takes a free key. */
  function Take(pid: nat, w: WorkerId, k: Key, ttl: Ttl): seq<Step> {
    [StartAcquire(pid, w, k, ttl), SetNX(pid, false), RecordLock(pid)]
  }

  function Taken(s: State, pid: nat, w: WorkerId, k: Key, ttl: Ttl): State {
    s.(server := s.server[k := Entry(w, s.now + ttl)],
       lockKeys := s.lockKeys[w := Held(s, w) + {k}],
       procs := s.procs[pid := RenewIdle(w, k, ttl, s.now + Period(ttl), 0)])
  }

  lemma TakeSucceeds(s: State, pid: nat, w: WorkerId, k: Key, ttl: Ttl) returns (a: State, b: State)
    requires !Live(s, k) && k !in Held(s, w) && pid !in s.procs
    ensures Enabled(s, Take(pid, w, k, ttl)[0]) && a == Next(s, Take(pid, w, k, ttl)[0])
    ensures Enabled(a, Take(pid, w, k, ttl)[1]) && b == Next(a, Take(pid, w, k, ttl)[1])
    ensures Enabled(b, Take(pid, w, k, ttl)[2]) && Taken(s, pid, w, k, ttl) == Next(b, Take(pid, w, k, ttl)[2])
  {
    a := Next(s, StartAcquire(pid, w, k, ttl));
    b := Next(a, SetNX(pid, false));
    var c := Next(b, RecordLock(pid));
    assert c.procs == s.procs[pid := RenewIdle(w, k, ttl, s.now + Period(ttl), 0)];
  }

  /** A run in which every step meets every assumption but possibly one. */
  ghost predicate RunWithout(states: seq<State>, steps: seq<Step>, dropped: Assumption) {
    && IsRun(states, steps)
    && forall i, a :: 0 <= i < |steps| && a != dropped ==> Meets(states[i], steps[i], a)
  }

  lemma ExtendRun(states: seq<State>, steps: seq<Step>, dropped: Assumption, step: Step)
    returns (states': seq<State>, steps': seq<Step>)
    requires RunWithout(states, steps, dropped) && Enabled(states[|steps|], step)
    requires forall a :: a != dropped ==> Meets(states[|steps|], step, a)
    ensures RunWithout(states', steps', dropped)
    ensures states'[|steps'|] == Next(states[|steps|], step)
  {
    states', steps' := states + [Next(states[|steps|], step)], steps + [step];
  }

  /** Extends a run by a successful AcquireLock. */
  lemma ExtendByTake(states: seq<State>, steps: seq<Step>, dropped: Assumption, pid: nat, w: WorkerId, k: Key, ttl: Ttl)
    returns (states': seq<State>, steps': seq<Step>)
    requires RunWithout(states, steps, dropped)
    requires var s := states[|steps|]; !Live(s, k) && k !in Held(s, w) && pid !in s.procs
    requires forall a :: a != dropped ==> Meets(states[|steps|], StartAcquire(pid, w, k, ttl), a)
    ensures RunWithout(states', steps', dropped)
    ensures states'[|steps'|] == Taken(states[|steps|], pid, w, k, ttl)
  {
    var a, b := TakeSucceeds(states[|steps|], pid, w, k, ttl);
    states', steps' := ExtendRun(states, steps, dropped, StartAcquire(pid, w, k, ttl));
    states', steps' := ExtendRun(states', steps', dropped, SetNX(pid, false));
    states', steps' := ExtendRun(states', steps', dropped, RecordLock(pid));
  }

  lemma BothHold(s: State, w: WorkerId, v: WorkerId, k: Key)
    requires w != v && k in Held(s, w) && k in Held(s, v)
    ensures !Exclusive(s)
  {
  }

  /** A TTL below one second: the first renewal sends EXPIRE 0, which deletes the lock at once,
      and a second worker takes it while the first still records it. */
  lemma LongTtlIsNeeded(w: WorkerId, v: WorkerId, k: Key, ttl: Ttl)
    returns (states: seq<State>, steps: seq<Step>)
    requires w != v && WholeSeconds(ttl) == 0
    ensures RunWithout(states, steps, LongTtl) && !Exclusive(states[|steps|])
  {
    states, steps := ExtendByTake([START], [], LongTtl, 0, w, k, ttl);
    states, steps := ExtendRun(states, steps, LongTtl, Tick(Period(ttl)));
    states, steps := ExtendRun(states, steps, LongTtl, RenewTick(0, Period(ttl) + Period(ttl)));
    states, steps := ExtendRun(states, steps, LongTtl, GuardedExpire(0));
    states, steps := ExtendByTake(states, steps, LongTtl, 1, v, k, ttl);
    BothHold(states[|steps|], w, v, k);
  }

  /** An AcquireLock that starts while the same worker's ReleaseLock of that key is in flight: the late
      DEL carries the same worker ID, so it deletes the new lock. */
  lemma NoOverlapIsNeeded(w: WorkerId, v: WorkerId, k: Key, ttl: Ttl)
    returns (states: seq<State>, steps: seq<Step>)
    requires w != v && WholeSeconds(ttl) > 0
    ensures RunWithout(states, steps, NoOverlap) && !Exclusive(states[|steps|])
  {
    states, steps := ExtendByTake([START], [], NoOverlap, 0, w, k, ttl);
    states, steps := ExtendRun(states, steps, NoOverlap, StartRelease(1, w, k));
    assert forall x, y :: !Granted(states[|steps|], x, y);
    states, steps := ExtendRun(states, steps, NoOverlap, Tick(ttl));
    states, steps := ExtendByTake(states, steps, NoOverlap, 2, w, k, ttl);
    states, steps := ExtendRun(states, steps, NoOverlap, GuardedDel(1));
    states, steps := ExtendByTake(states, steps, NoOverlap, 3, v, k, ttl);
    BothHold(states[|steps|], w, v, k);
  }

  /** A renewal that does not arrive in time. */
  lemma TimelyRenewalIsNeeded(w: WorkerId, v: WorkerId, k: Key, ttl: Ttl)
    returns (states: seq<State>, steps: seq<Step>)
    requires w != v && WholeSeconds(ttl) > 0
    ensures RunWithout(states, steps, TimelyRenewal) && !Exclusive(states[|steps|])
  {
    states, steps := ExtendByTake([START], [], TimelyRenewal, 0, w, k, ttl);
    states, steps := ExtendRun(states, steps, TimelyRenewal, Tick(ttl));
    states, steps := ExtendByTake(states, steps, TimelyRenewal, 1, v, k, ttl);
    BothHold(states[|steps|], w, v, k);
  }
}
