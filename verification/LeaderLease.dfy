/**
 Leader election of internal/coordinator/redis_coordinator.go (runLeaderElection).

 Each worker runs one election round at a time: SET NX on the leader key, then
 either record itself or read the key and record what it finds.  The rounds of
 different workers interleave freely, replies can be lost, and each worker may be
 configured with its own lock TTL.  The lease is never renewed and never deleted.
 */
module LeaderLease {
  type WorkerId = string
  type Ttl = t: int | 0 < t witness 1

  datatype Lease = Lease(owner: WorkerId, start: int, end: int)

  /** Where a worker is inside its election round. */
  datatype Phase = Waiting | Won(at: int) | MustRead

  /** A worker's leaderID, and the server time at which that value was obtained. */
  datatype Belief = Belief(leaderID: WorkerId, obtainedAt: int)

  /** leases lists every lease the server ever granted; the last one is the key's current content. */
  datatype State = State(now: int, leases: seq<Lease>, phase: map<WorkerId, Phase>, beliefs: map<WorkerId, Belief>)

  datatype Step =
    | Tick(elapsed: nat)
    | SetNX(worker: WorkerId, ttl: Ttl, replyLost: bool)
    | RecordWin(worker: WorkerId)
    | ReadLeader(worker: WorkerId)
    | ReadFails(worker: WorkerId)

  const START := State(0, [], map[], map[])

  function PhaseOf(s: State, w: WorkerId): Phase {
    if w in s.phase then s.phase[w] else Waiting
  }

  /** The lease running now, if any, is the last one granted. */
  predicate Running(s: State) {
    s.leases != [] && s.now < s.leases[|s.leases| - 1].end
  }

  predicate Enabled(s: State, step: Step) {
    match step
    case Tick(_) => true
    case SetNX(w, _, _) => PhaseOf(s, w).Waiting?
    case RecordWin(w) => PhaseOf(s, w).Won?
    case ReadLeader(w) => PhaseOf(s, w).MustRead?
    case ReadFails(w) => PhaseOf(s, w).MustRead?
  }

  function Next(s: State, step: Step): State
    requires Enabled(s, step)
  {
    match step
    case Tick(d) => s.(now := s.now + d)
    case SetNX(w, ttl, replyLost) =>
      var s' := if Running(s) then s else s.(leases := s.leases + [Lease(w, s.now, s.now + ttl)]);
      if replyLost then s'  // the round ends with an error and changes nothing locally
      else s'.(phase := s.phase[w := if Running(s) then MustRead else Won(s.now)])
    case RecordWin(w) =>
      s.(beliefs := s.beliefs[w := Belief(w, PhaseOf(s, w).at)], phase := s.phase[w := Waiting])
    case ReadLeader(w) =>
      var s' := s.(phase := s.phase[w := Waiting]);
      if Running(s)
      then s'.(beliefs := s.beliefs[w := Belief(s.leases[|s.leases| - 1].owner, s.now)])
      else s'  // GET finds no key: leaderID stays as it was
    case ReadFails(w) => s.(phase := s.phase[w := Waiting])
  }

  ghost predicate IsRun(states: seq<State>, steps: seq<Step>) {
    && |states| == |steps| + 1
    && states[0] == START
    && forall i :: 0 <= i < |steps| ==>
         Enabled(states[i], steps[i]) && states[i + 1] == Next(states[i], steps[i])
  }

  // ---------- invariant ----------

  predicate Within(t: int, l: Lease) {
    l.start <= t < l.end
  }

  ghost predicate Disjoint(leases: seq<Lease>) {
    && (forall i :: 0 <= i < |leases| ==> leases[i].start < leases[i].end)
    && forall i, j :: 0 <= i < j < |leases| ==> leases[i].end <= leases[j].start
  }

  /** Value v was the content of the leader key at time t. */
  ghost predicate WasLeader(leases: seq<Lease>, v: WorkerId, t: int) {
    exists i :: 0 <= i < |leases| && Within(t, leases[i]) && leases[i].owner == v
  }

  ghost predicate Inv(s: State) {
    && Disjoint(s.leases)
    && (forall i :: 0 <= i < |s.leases| ==> s.leases[i].start <= s.now)
    && (forall w :: w in s.phase && s.phase[w].Won? ==> WasLeader(s.leases, w, s.phase[w].at))
    && (forall w :: w in s.beliefs ==> WasLeader(s.leases, s.beliefs[w].leaderID, s.beliefs[w].obtainedAt))
  }

  lemma WasLeaderGrows(leases: seq<Lease>, l: Lease, v: WorkerId, t: int)
    requires WasLeader(leases, v, t)
    ensures WasLeader(leases + [l], v, t)
  {
    var i :| 0 <= i < |leases| && Within(t, leases[i]) && leases[i].owner == v;
    assert (leases + [l])[i] == leases[i];
  }

  lemma LastLeads(leases: seq<Lease>, t: int)
    requires leases != [] && Within(t, leases[|leases| - 1])
    ensures WasLeader(leases, leases[|leases| - 1].owner, t)
  {
  }

  /** Granting a lease keeps what was true of earlier ones and makes its owner leader at its start. */
  lemma NewLease(leases: seq<Lease>, l: Lease)
    requires l.start < l.end
    ensures forall v, t :: WasLeader(leases, v, t) ==> WasLeader(leases + [l], v, t)
    ensures WasLeader(leases + [l], l.owner, l.start)
  {
    forall v, t | WasLeader(leases, v, t) ensures WasLeader(leases + [l], v, t) {
      WasLeaderGrows(leases, l, v, t);
    }
    LastLeads(leases + [l], l.start);
  }

  lemma InvStep(s: State, step: Step)
    requires Inv(s) && Enabled(s, step)
    ensures Inv(Next(s, step))
  {
    hide WasLeader;
    if step.SetNX? && !Running(s) {
      NewLease(s.leases, Lease(step.worker, s.now, s.now + step.ttl));
    }
    if step.ReadLeader? && Running(s) {
      LastLeads(s.leases, s.now);
    }
  }

  lemma {:induction false} RunInv(states: seq<State>, steps: seq<Step>, n: nat)
    requires IsRun(states, steps) && n < |states|
    ensures Inv(states[n])
  {
    if n > 0 {
      RunInv(states, steps, n - 1);
      InvStep(states[n - 1], steps[n - 1]);
    }
  }

  // ---------- agreement ----------

  /** In every run the leases never overlap, and two workers whose leaderID was obtained inside the same
      lease agree on it: both name that lease's owner. */
  lemma LeaderAgreement(states: seq<State>, steps: seq<Step>, n: nat, w: WorkerId, v: WorkerId, i: nat)
    requires IsRun(states, steps) && n < |states|
    requires w in states[n].beliefs && v in states[n].beliefs && i < |states[n].leases|
    requires Within(states[n].beliefs[w].obtainedAt, states[n].leases[i])
    requires Within(states[n].beliefs[v].obtainedAt, states[n].leases[i])
    ensures Disjoint(states[n].leases)
    ensures states[n].beliefs[w].leaderID == states[n].beliefs[v].leaderID == states[n].leases[i].owner
  {
    RunInv(states, steps, n);
  }

  predicate IsLeader(s: State, w: WorkerId) {
    w in s.beliefs && s.beliefs[w].leaderID == w
  }

  /** The value was obtained in the lease that is still running. */
  predicate Current(s: State, w: WorkerId) {
    w in s.beliefs && Running(s) && s.leases[|s.leases| - 1].start <= s.beliefs[w].obtainedAt
  }

  /** Beliefs obtained in the running lease all name its owner, so at most one worker is leader on a
      current belief; a worker with an older belief may still answer IsLeader. */
  lemma OneCurrentLeader(states: seq<State>, steps: seq<Step>, n: nat, w: WorkerId, v: WorkerId)
    requires IsRun(states, steps) && n < |states|
    requires IsLeader(states[n], w) && IsLeader(states[n], v)
    requires Current(states[n], w) && Current(states[n], v)
    ensures w == v
  {
    RunInv(states, steps, n);
    var s := states[n];
    var last := |s.leases| - 1;
    forall u | Current(s, u) ensures Within(s.beliefs[u].obtainedAt, s.leases[last]) {
      var i :| 0 <= i < |s.leases| && Within(s.beliefs[u].obtainedAt, s.leases[i]);
      assert i < last ==> s.leases[i].end <= s.leases[last].start;
    }
    LeaderAgreement(states, steps, n, w, v, last);
  }

  /** In every run a worker answers IsLeader exactly when the one lease in which its value was obtained is its own. */
  lemma LeadsByLease(states: seq<State>, steps: seq<Step>, n: nat, w: WorkerId) returns (i: nat)
    requires IsRun(states, steps) && n < |states| && w in states[n].beliefs
    ensures i < |states[n].leases| && Within(states[n].beliefs[w].obtainedAt, states[n].leases[i])
    ensures forall j :: 0 <= j < |states[n].leases| && Within(states[n].beliefs[w].obtainedAt, states[n].leases[j]) ==>
        j == i
    ensures IsLeader(states[n], w) <==> states[n].leases[i].owner == w
  {
    RunInv(states, steps, n);
    var s := states[n];
    i :| 0 <= i < |s.leases| && Within(s.beliefs[w].obtainedAt, s.leases[i]) &&
        s.leases[i].owner == s.beliefs[w].leaderID;
  }

  /** Two workers that answer IsLeader are the same exactly when the leases their values were obtained in have
      the same owner; if they are not, the value of one predates the other's lease. */
  lemma SameLeaderIff(states: seq<State>, steps: seq<Step>, n: nat, w: WorkerId, v: WorkerId, i: nat, j: nat)
    requires IsRun(states, steps) && n < |states| && IsLeader(states[n], w) && IsLeader(states[n], v)
    requires i < |states[n].leases| && Within(states[n].beliefs[w].obtainedAt, states[n].leases[i])
    requires j < |states[n].leases| && Within(states[n].beliefs[v].obtainedAt, states[n].leases[j])
    ensures w == v <==> states[n].leases[i].owner == states[n].leases[j].owner
    ensures w != v ==> i != j
    ensures w != v && i < j ==> states[n].beliefs[w].obtainedAt < states[n].leases[j].start
    ensures w != v && j < i ==> states[n].beliefs[v].obtainedAt < states[n].leases[i].start
  {
    RunInv(states, steps, n);
    var a := LeadsByLease(states, steps, n, w);
    var b := LeadsByLease(states, steps, n, v);
  }

  /** Worker w reads the key during a lease of another worker. */
  predicate ReadsOther(s: State, step: Step, w: WorkerId) {
    step == ReadLeader(w) && Running(s) && s.leases[|s.leases| - 1].owner != w
  }

  /** A leader stops being one exactly when it reads the key during a lease of another worker. */
  lemma LeadershipEndsIff(s: State, step: Step, w: WorkerId)
    requires Enabled(s, step) && IsLeader(s, w)
    ensures !IsLeader(Next(s, step), w) <==> ReadsOther(s, step, w)
  {
  }

  /** So a worker that leads at m and no longer at n read another worker's lease in between. */
  lemma {:induction false} LeadershipEnds(states: seq<State>, steps: seq<Step>, m: nat, n: nat, w: WorkerId)
    requires IsRun(states, steps) && m <= n < |states| && IsLeader(states[m], w)
    ensures !IsLeader(states[n], w) ==> exists k :: m <= k < n && ReadsOther(states[k], steps[k], w)
    decreases n - m
  {
    if m < n {
      LeadershipEndsIff(states[m], steps[m], w);
      assert states[m + 1] == Next(states[m], steps[m]);
      if IsLeader(states[m + 1], w) {
        LeadershipEnds(states, steps, m + 1, n, w);
      }
    }
  }

  // ---------- how long a lease lasts ----------

  /** Worker w wins the lease with the given TTL: the key is free when its SET NX arrives. */
  predicate Wins(s: State, step: Step, w: WorkerId, ttl: Ttl) {
    !Running(s) && step.SetNX? && step.worker == w && step.ttl == ttl
  }

  /** Leases are granted exactly by a SET NX that finds no lease running, and each lasts for the TTL that was sent. */
  lemma GrantedIff(s: State, step: Step)
    requires Enabled(s, step)
    ensures var s' := Next(s, step);
      if step.SetNX? && !Running(s)
      then |s'.leases| == |s.leases| + 1 && s'.leases[..|s.leases|] == s.leases
           && s'.leases[|s.leases|] == Lease(step.worker, s.now, s.now + step.ttl)
      else s'.leases == s.leases
  {
    if step.SetNX? && !Running(s) {
      assert (s.leases + [Lease(step.worker, s.now, s.now + step.ttl)])[..|s.leases|] == s.leases;
    }
  }

  /** From a win until its TTL has passed the key names the winner, and nobody else can win; then anybody can. */
  lemma {:induction false} LeaseLasts(states: seq<State>, steps: seq<Step>, m: nat, n: nat, w: WorkerId, ttl: Ttl)
    requires IsRun(states, steps) && m < n < |states| && Wins(states[m], steps[m], w, ttl)
    requires states[n - 1].now < states[m].now + ttl
    ensures |states[n].leases| == |states[m].leases| + 1
    ensures states[n].leases[|states[m].leases|] == Lease(w, states[m].now, states[m].now + ttl)
    ensures Running(states[n]) <==> states[n].now < states[m].now + ttl
  {
    hide Enabled, Next, Running;
    assert Enabled(states[n - 1], steps[n - 1]) && states[n] == Next(states[n - 1], steps[n - 1]);
    TimePasses(states[n - 1], steps[n - 1]);
    GrantedIff(states[n - 1], steps[n - 1]);
    if n > m + 1 {
      assert states[n - 2].now <= states[n - 1].now by { EarlierNow(states, steps, n - 1); }
      LeaseLasts(states, steps, m, n - 1, w, ttl);
    }
    RunningIsLast(states[n]);
    RunningIsLast(states[n - 1]);
  }

  lemma RunningIsLast(s: State)
    ensures s.leases != [] ==> (Running(s) <==> s.now < s.leases[|s.leases| - 1].end)
  {
  }

  lemma TimePasses(s: State, step: Step)
    requires Enabled(s, step)
    ensures Next(s, step).now == s.now + if step.Tick? then step.elapsed else 0
  {
  }

  lemma EarlierNow(states: seq<State>, steps: seq<Step>, n: nat)
    requires IsRun(states, steps) && 0 < n < |states|
    ensures states[n - 1].now <= states[n].now
  {
    TimePasses(states[n - 1], steps[n - 1]);
  }

  // ---------- one election round ----------

  /** A round is over with the recording of a win, with a read, and with a lost reply or a failed read; otherwise SET NX
      leads to one of the first two.  The rounds of other workers go on as before. */
  lemma RoundGoesOn(s: State, step: Step, w: WorkerId)
    requires Enabled(s, step)
    ensures var p := PhaseOf(Next(s, step), w);
      if step.Tick? || step.worker != w then p == PhaseOf(s, w)
      else if step.SetNX? && !step.replyLost then p == if Running(s) then MustRead else Won(s.now)
      else p == Waiting
  {
  }

  /** What IsLeader and LeaderID answer changes exactly by the worker's own win or read: to itself, or to the owner of
      the running lease; a lost reply, a failed read and a missing key leave it. */
  lemma LeaderIdChangesIff(s: State, step: Step, w: WorkerId)
    requires Enabled(s, step)
    ensures var s' := Next(s, step);
      if step == RecordWin(w) then w in s'.beliefs && s'.beliefs[w].leaderID == w
      else if step == ReadLeader(w) && Running(s)
      then w in s'.beliefs && s'.beliefs[w].leaderID == s.leases[|s.leases| - 1].owner
      else (w in s'.beliefs <==> w in s.beliefs) && (w in s.beliefs ==> s'.beliefs[w] == s.beliefs[w])
  {
  }

  /** Without currency the claim is false: the lease is not renewed, so after it lapses another worker
      wins while the first still answers IsLeader. */
  lemma TwoLeadersPossible(w: WorkerId, v: WorkerId, ttl: Ttl) returns (states: seq<State>, steps: seq<Step>)
    requires w != v
    ensures IsRun(states, steps)
    ensures IsLeader(states[|steps|], w) && IsLeader(states[|steps|], v)
  {
    steps := [SetNX(w, ttl, false), RecordWin(w), Tick(ttl), SetNX(v, ttl, false), RecordWin(v)];
    var a := Next(START, steps[0]);
    var b := Next(a, steps[1]);
    var c := Next(b, steps[2]);
    var d := Next(c, steps[3]);
    states := [START, a, b, c, d, Next(d, steps[4])];
  }
}
