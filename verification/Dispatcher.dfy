/**
 The dispatch loop of internal/crawler/start.go with its goroutines, as interleaved
 steps: the two-slot semaphore per host (internal/crawler/semaphore.go), the global
 page and asset semaphores, the WaitGroup and the activePages counter.

 The dispatcher's position between two operations is its program counter; every page
 and asset goroutine is somewhere in its body or its deferred calls.  All of them
 interleave freely, and the context may be cancelled at any time.
 */
module Dispatcher {
  type Host = string

  const HOST_SLOTS := 2

  /** Where the dispatcher is. */
  datatype Pc =
    | LoopTop
    | EmptyPop                      // PopURL failed, activePages not yet read
    | AssetAdded                    // wg.Add done, waiting for assetSem
    | AssetSem                      // assetSem taken
    | AssetActive                   // activePages counted, goroutine not yet started
    | AwaitHost(host: Host)         // waiting for the host semaphore
    | HostHeld(host: Host)          // robots, rate limiter and breaker still to pass
    | PageAdded(host: Host)         // wg.Add done, waiting for the page semaphore
    | PageAborting                  // cancelled while waiting: host token returned, wg.Done to come
    | PageSem(host: Host)           // page semaphore taken
    | PageActive(host: Host)        // activePages counted, goroutine not yet started
    | Exited

  /** Where a goroutine is: in its body, or after a number of its deferred calls. */
  datatype Phase =
    | PageRunning(host: Host)
    | PageHostReturned
    | PageSemReturned
    | PageInactive
    | AssetRunning
    | AssetSemReturned
    | AssetInactive

  datatype State = State(
    pc: Pc,
    procs: map<nat, Phase>,
    hostTokens: map<Host, nat>,
    pageTokens: nat,
    assetTokens: nat,
    wg: int,
    active: int,
    queue: nat,
    latePushes: nat,        // pushes since the dispatcher last found the queue empty
    cancelled: bool)

  datatype Limits = Limits(pages: nat, assets: nat)

  datatype Step =
    | Cancel
    | StopLoop                          // ctx.Done or the total limit at the loop top
    | PopNothing
    | PopSkipped                        // too deep, host cap, blocked pattern or open breaker
    | PopAsset
    | PopPage(host: Host)
    | ReadActive                        // exit if zero, else wait and try again
    | TakeAssetSem
    | AbandonAsset
    | TakeHostSem
    | AbandonHost
    | RefusePage                        // robots, rate limiter or breaker
    | AddPage
    | TakePageSem
    | AbandonPage
    | FinishAbandon
    | CountActive
    | Spawn(g: nat)
    | PushLink(g: nat)
    | Defer(g: nat)                     // the goroutine's next deferred call

  const START := State(LoopTop, map[], map[], 0, 0, 0, 0, 0, 0, false)

  function HostCount(s: State, h: Host): nat {
    if h in s.hostTokens then s.hostTokens[h] else 0
  }

  predicate Enabled(l: Limits, s: State, step: Step) {
    match step
    case Cancel => true
    case StopLoop => s.pc.LoopTop?
    case PopNothing => s.pc.LoopTop? && s.queue == 0
    case PopSkipped => s.pc.LoopTop? && s.queue > 0
    case PopAsset => s.pc.LoopTop? && s.queue > 0
    case PopPage(_) => s.pc.LoopTop? && s.queue > 0
    case ReadActive => s.pc.EmptyPop?
    case TakeAssetSem => s.pc.AssetAdded? && s.assetTokens < l.assets
    case AbandonAsset => s.pc.AssetAdded? && s.cancelled
    case TakeHostSem => s.pc.AwaitHost? && HostCount(s, s.pc.host) < HOST_SLOTS
    case AbandonHost => s.pc.AwaitHost? && s.cancelled
    case RefusePage => s.pc.HostHeld? && HostCount(s, s.pc.host) > 0
    case AddPage => s.pc.HostHeld?
    case TakePageSem => s.pc.PageAdded? && s.pageTokens < l.pages
    case AbandonPage => s.pc.PageAdded? && s.cancelled && HostCount(s, s.pc.host) > 0
    case FinishAbandon => s.pc.PageAborting?
    case CountActive => s.pc.AssetSem? || s.pc.PageSem?
    case Spawn(g) => (s.pc.AssetActive? || s.pc.PageActive?) && g !in s.procs
    case PushLink(g) => g in s.procs && s.procs[g].PageRunning?
    case Defer(g) => g in s.procs && DeferReady(s, s.procs[g])
  }

  /** Receiving from a semaphore channel needs a token in it. */
  predicate DeferReady(s: State, p: Phase) {
    match p
    case PageRunning(h) => HostCount(s, h) > 0
    case PageHostReturned => s.pageTokens > 0
    case AssetRunning => s.assetTokens > 0
    case _ => true
  }

  function Next(l: Limits, s: State, step: Step): State
    requires Enabled(l, s, step)
  {
    match step
    case Cancel => s.(cancelled := true)
    case StopLoop => s.(pc := Exited)
    case PopNothing => s.(pc := EmptyPop, latePushes := 0)
    case PopSkipped => s.(queue := s.queue - 1)
    case PopAsset => s.(queue := s.queue - 1, wg := s.wg + 1, pc := AssetAdded)
    case PopPage(h) => s.(queue := s.queue - 1, pc := AwaitHost(h))
    case ReadActive => s.(pc := if s.active == 0 then Exited else LoopTop)
    case TakeAssetSem => s.(assetTokens := s.assetTokens + 1, pc := AssetSem)
    case AbandonAsset => s.(wg := s.wg - 1, pc := Exited)
    case TakeHostSem => s.(hostTokens := s.hostTokens[s.pc.host := HostCount(s, s.pc.host) + 1],
                           pc := HostHeld(s.pc.host))
    case AbandonHost => s.(pc := LoopTop)
    case RefusePage => s.(hostTokens := s.hostTokens[s.pc.host := HostCount(s, s.pc.host) - 1], pc := LoopTop)
    case AddPage => s.(wg := s.wg + 1, pc := PageAdded(s.pc.host))
    case TakePageSem => s.(pageTokens := s.pageTokens + 1, pc := PageSem(s.pc.host))
    case AbandonPage => s.(hostTokens := s.hostTokens[s.pc.host := HostCount(s, s.pc.host) - 1], pc := PageAborting)
    case FinishAbandon => s.(wg := s.wg - 1, pc := Exited)
    case CountActive => s.(active := s.active + 1, pc := if s.pc.AssetSem? then AssetActive else PageActive(s.pc.host))
    case Spawn(g) =>
      s.(procs := s.procs[g := if s.pc.AssetActive? then AssetRunning else PageRunning(s.pc.host)], pc := LoopTop)
    case PushLink(g) => s.(queue := s.queue + 1, latePushes := s.latePushes + 1)
    case Defer(g) => RunDefer(s, g)
  }

  /** The deferred calls, last registered first. */
  function RunDefer(s: State, g: nat): State
    requires g in s.procs && DeferReady(s, s.procs[g])
  {
    match s.procs[g]
    case PageRunning(h) =>
      s.(hostTokens := s.hostTokens[h := HostCount(s, h) - 1], procs := s.procs[g := PageHostReturned])
    case PageHostReturned => s.(pageTokens := s.pageTokens - 1, procs := s.procs[g := PageSemReturned])
    case PageSemReturned => s.(active := s.active - 1, procs := s.procs[g := PageInactive])
    case PageInactive => s.(wg := s.wg - 1, procs := s.procs - {g})
    case AssetRunning => s.(assetTokens := s.assetTokens - 1, procs := s.procs[g := AssetSemReturned])
    case AssetSemReturned => s.(active := s.active - 1, procs := s.procs[g := AssetInactive])
    case AssetInactive => s.(wg := s.wg - 1, procs := s.procs - {g})
  }

  ghost predicate IsRun(l: Limits, states: seq<State>, steps: seq<Step>) {
    && |states| == |steps| + 1
    && states[0].(queue := 0) == START
    && forall i :: 0 <= i < |steps| ==> Enabled(l, states[i], steps[i]) && states[i + 1] == Next(l, states[i], steps[i])
  }

  // ---------- who holds what ----------

  datatype Token = HostToken(host: Host) | PageToken | AssetToken | ActiveToken | WaitToken

  /** The counter in the program. */
  function Counter(s: State, t: Token): int {
    match t
    case HostToken(h) => HostCount(s, h)
    case PageToken => s.pageTokens
    case AssetToken => s.assetTokens
    case ActiveToken => s.active
    case WaitToken => s.wg
  }

  /** What a goroutine still has to give back. */
  predicate Has(p: Phase, t: Token) {
    match t
    case HostToken(h) => p == PageRunning(h)
    case PageToken => p.PageRunning? || p.PageHostReturned?
    case AssetToken => p.AssetRunning?
    case ActiveToken => !p.PageInactive? && !p.AssetInactive?
    case WaitToken => true
  }

  /** What the dispatcher holds in the middle of a decision. */
  predicate PcHas(pc: Pc, t: Token) {
    match t
    case HostToken(h) => (pc.HostHeld? || pc.PageAdded? || pc.PageSem? || pc.PageActive?) && pc.host == h
    case PageToken => pc.PageSem? || pc.PageActive?
    case AssetToken => pc.AssetSem? || pc.AssetActive?
    case ActiveToken => pc.AssetActive? || pc.PageActive?
    case WaitToken =>
      pc.AssetAdded? || pc.AssetSem? || pc.AssetActive? || pc.PageAdded? || pc.PageSem? || pc.PageActive? ||
          pc.PageAborting?
  }

  function Holders(procs: map<nat, Phase>, t: Token): set<nat> {
    set g | g in procs && Has(procs[g], t)
  }

  function Bit(b: bool): int {
    if b then 1 else 0
  }

  /** Conservation: every counter equals the goroutines that still owe it, plus one while the dispatcher does. */
  ghost predicate Conserved(s: State) {
    forall t :: Counter(s, t) == |Holders(s.procs, t)| + Bit(PcHas(s.pc, t))
  }

  ghost predicate WithinLimits(l: Limits, s: State) {
    && (forall h :: HostCount(s, h) <= HOST_SLOTS)
    && s.pageTokens <= l.pages && s.assetTokens <= l.assets
  }

  lemma HoldersAfter(procs: map<nat, Phase>, g: nat, p: Phase, t: Token)
    ensures |Holders(procs[g := p], t)| == |Holders(procs - {g}, t)| + Bit(Has(p, t))
  {
    var rest := Holders(procs - {g}, t);
    assert Holders(procs[g := p], t) == if Has(p, t) then rest + {g} else rest;
    assert g !in rest;
  }

  lemma HoldersBefore(procs: map<nat, Phase>, g: nat, t: Token)
    requires g in procs
    ensures |Holders(procs, t)| == |Holders(procs - {g}, t)| + Bit(Has(procs[g], t))
  {
    HoldersAfter(procs, g, procs[g], t);
    assert procs[g := procs[g]] == procs;
  }

  lemma HoldersNew(procs: map<nat, Phase>, g: nat, t: Token)
    requires g !in procs
    ensures Holders(procs - {g}, t) == Holders(procs, t)
  {
  }

  lemma LimitsStep(l: Limits, s: State, step: Step)
    requires WithinLimits(l, s) && Enabled(l, s, step)
    ensures WithinLimits(l, Next(l, s, step))
  {
    var s' := Next(l, s, step);
    forall h ensures HostCount(s', h) <= HOST_SLOTS {
      assert HostCount(s, h) <= HOST_SLOTS;
    }
  }

  /** One token through one step that starts or ends no goroutine. */
  lemma DispatcherStep(l: Limits, s: State, step: Step, t: Token)
    requires Enabled(l, s, step) && !step.Defer? && !step.Spawn?
    requires Counter(s, t) == |Holders(s.procs, t)| + Bit(PcHas(s.pc, t))
    ensures var s' := Next(l, s, step); Counter(s', t) == |Holders(s'.procs, t)| + Bit(PcHas(s'.pc, t))
  {
    hide Holders;
  }

  lemma SpawnStep(l: Limits, s: State, g: nat, t: Token)
    requires Enabled(l, s, Spawn(g))
    requires Counter(s, t) == |Holders(s.procs, t)| + Bit(PcHas(s.pc, t))
    ensures var s' := Next(l, s, Spawn(g)); Counter(s', t) == |Holders(s'.procs, t)| + Bit(PcHas(s'.pc, t))
  {
    hide Holders;
    HoldersAfter(s.procs, g, Next(l, s, Spawn(g)).procs[g], t);
    HoldersNew(s.procs, g, t);
  }

  lemma DeferStep(l: Limits, s: State, g: nat, t: Token)
    requires Enabled(l, s, Defer(g))
    requires Counter(s, t) == |Holders(s.procs, t)| + Bit(PcHas(s.pc, t))
    ensures var s' := Next(l, s, Defer(g)); Counter(s', t) == |Holders(s'.procs, t)| + Bit(PcHas(s'.pc, t))
  {
    hide Holders;
    var s' := Next(l, s, Defer(g));
    HoldersBefore(s.procs, g, t);
    if g in s'.procs {
      HoldersAfter(s.procs, g, s'.procs[g], t);
    }
  }

  lemma ConservedStep(l: Limits, s: State, step: Step)
    requires Conserved(s) && Enabled(l, s, step)
    ensures Conserved(Next(l, s, step))
  {
    hide Holders, Counter, PcHas, Next;
    var s' := Next(l, s, step);
    forall t ensures Counter(s', t) == |Holders(s'.procs, t)| + Bit(PcHas(s'.pc, t)) {
      if step.Defer? {
        DeferStep(l, s, step.g, t);
      } else if step.Spawn? {
        SpawnStep(l, s, step.g, t);
      } else {
        DispatcherStep(l, s, step, t);
      }
    }
  }

  lemma StartConserved(l: Limits, queue: nat)
    ensures Conserved(START.(queue := queue)) && WithinLimits(l, START.(queue := queue))
  {
  }

  // ---------- whole runs ----------

  /** Over all interleavings and exit paths: host tokens are the in-flight pages of the host, plus one while
      the dispatcher is deciding, and never exceed two; page and asset tokens are their running goroutines;
      the WaitGroup and activePages count the goroutines that have not yet signed off. */
  lemma {:induction false} TokensConserved(l: Limits, states: seq<State>, steps: seq<Step>, n: nat)
    requires IsRun(l, states, steps) && n < |states|
    ensures Conserved(states[n]) && WithinLimits(l, states[n])
  {
    hide Conserved, WithinLimits;
    if n == 0 {
      StartConserved(l, states[0].queue);
      assert states[0] == START.(queue := states[0].queue);
    } else {
      TokensConserved(l, states, steps, n - 1);
      ConservedStep(l, states[n - 1], steps[n - 1]);
      LimitsStep(l, states[n - 1], steps[n - 1]);
    }
  }

  function RunningPages(s: State, h: Host): set<nat> {
    set g | g in s.procs && s.procs[g] == PageRunning(h)
  }

  /** So no more than two pages of a host run at once. */
  lemma TwoPagesPerHost(l: Limits, states: seq<State>, steps: seq<Step>, n: nat, h: Host)
    requires IsRun(l, states, steps) && n < |states|
    ensures |RunningPages(states[n], h)| <= 2
  {
    TokensConserved(l, states, steps, n);
    var s := states[n];
    assert RunningPages(s, h) == Holders(s.procs, HostToken(h));
    assert Counter(s, HostToken(h)) == |Holders(s.procs, HostToken(h))| + Bit(PcHas(s.pc, HostToken(h)));
  }

  /** When the dispatcher has exited and every goroutine has finished, every counter is back at zero. */
  lemma AllReturned(l: Limits, states: seq<State>, steps: seq<Step>, n: nat)
    requires IsRun(l, states, steps) && n < |states|
    requires states[n].pc == Exited && states[n].procs == map[]
    ensures forall t :: Counter(states[n], t) == 0
  {
    TokensConserved(l, states, steps, n);
    var s := states[n];
    forall t ensures Counter(s, t) == 0 {
      assert Holders(s.procs, t) == {};
    }
  }

  /** No goroutine is ever stuck in a deferred receive: its own token is in the channel. */
  lemma DefersNeverBlock(l: Limits, states: seq<State>, steps: seq<Step>, n: nat, g: nat)
    requires IsRun(l, states, steps) && n < |states| && g in states[n].procs
    ensures Enabled(l, states[n], Defer(g))
  {
    TokensConserved(l, states, steps, n);
    var s := states[n];
    var p := s.procs[g];
    var t := match p case PageRunning(h) => HostToken(h) case PageHostReturned => PageToken case _ => AssetToken;
    assert Counter(s, t) == |Holders(s.procs, t)| + Bit(PcHas(s.pc, t));
    if Has(p, t) {
      assert g in Holders(s.procs, t);
    }
  }

  /** wg.Wait returns: each goroutine needs at most four more deferred calls. */
  function CallsLeft(p: Phase): nat {
    match p
    case PageRunning(_) => 4
    case PageHostReturned => 3
    case PageSemReturned => 2
    case PageInactive => 1
    case AssetRunning => 3
    case AssetSemReturned => 2
    case AssetInactive => 1
  }

  lemma DeferProgress(l: Limits, s: State, g: nat)
    requires Enabled(l, s, Defer(g))
    ensures var s' := Next(l, s, Defer(g));
      && (forall k :: k in s.procs && k != g ==> k in s'.procs && s'.procs[k] == s.procs[k])
      && (if CallsLeft(s.procs[g]) == 1 then g !in s'.procs
          else g in s'.procs && CallsLeft(s'.procs[g]) == CallsLeft(s.procs[g]) - 1)
  {
  }

  /** Nor is the dispatcher in giving back the host token that it holds. */
  lemma ReceivesNeverBlock(l: Limits, states: seq<State>, steps: seq<Step>, n: nat)
    requires IsRun(l, states, steps) && n < |states|
    ensures states[n].pc.HostHeld? ==> Enabled(l, states[n], RefusePage) && Enabled(l, states[n], AddPage)
    ensures states[n].pc.PageAdded? && states[n].cancelled ==> Enabled(l, states[n], AbandonPage)
  {
    TokensConserved(l, states, steps, n);
    var s := states[n];
    if s.pc.HostHeld? || s.pc.PageAdded? {
      var t := HostToken(s.pc.host);
      assert Counter(s, t) == |Holders(s.procs, t)| + Bit(PcHas(s.pc, t));
    }
  }

  /** What the loop top can do: pop if and only if something is queued. */
  lemma PopsIff(l: Limits, s: State, h: Host)
    requires s.pc == LoopTop
    ensures Enabled(l, s, PopNothing) <==> s.queue == 0
    ensures Enabled(l, s, PopSkipped) == Enabled(l, s, PopAsset) == Enabled(l, s, PopPage(h)) == (s.queue >= 1)
  {
  }

  /** A step of the dispatcher's own, or a deferred call. */
  predicate Moves(step: Step) {
    !step.Cancel? && !step.StopLoop? && !step.PushLink?
  }

  /** No deadlock: until the dispatcher has exited and every goroutine has finished, the dispatcher or a goroutine can
      take its next step, even if nobody cancels or pushes. */
  lemma NoDeadlock(l: Limits, states: seq<State>, steps: seq<Step>, n: nat) returns (step: Step)
    requires IsRun(l, states, steps) && n < |states| && l.pages >= 1 && l.assets >= 1
    requires states[n].pc != Exited || states[n].procs != map[]
    ensures Enabled(l, states[n], step) && Moves(step)
  {
    hide IsRun;
    var s := states[n];
    TokensConserved(l, states, steps, n);
    if s.procs != map[] {
      var g :| g in s.procs;
      DefersNeverBlock(l, states, steps, n, g);
      step := Defer(g);
    } else {
      forall t ensures Counter(s, t) == Bit(PcHas(s.pc, t)) {
        assert Holders(s.procs, t) == {};
      }
      assert HostCount(s, "") >= 0 && s.pageTokens == Counter(s, PageToken) && s.assetTokens == Counter(s, AssetToken);
      step := AloneStep(s);
      if s.pc.AwaitHost? {
        assert Counter(s, HostToken(s.pc.host)) == 0;
      }
    }
  }

  /** The dispatcher's next step when no goroutine is left. */
  function AloneStep(s: State): Step {
    match s.pc
    case LoopTop => if s.queue == 0 then PopNothing else PopSkipped
    case EmptyPop => ReadActive
    case AssetAdded => TakeAssetSem
    case AssetSem => CountActive
    case AssetActive => Spawn(0)
    case AwaitHost(_) => TakeHostSem
    case HostHeld(_) => AddPage
    case PageAdded(_) => TakePageSem
    case PageAborting => FinishAbandon
    case PageSem(_) => CountActive
    case PageActive(_) => Spawn(0)
    case Exited => PopNothing
  }

  /** The goroutines change only by the start of one and by one's own deferred calls. */
  lemma GoroutinesChangeOnly(l: Limits, s: State, step: Step, g: nat)
    requires Enabled(l, s, step) && step != Spawn(g) && step != Defer(g)
    ensures var s' := Next(l, s, step);
      (g in s'.procs <==> g in s.procs) && (g in s.procs ==> s'.procs[g] == s.procs[g])
  {
  }

  /** How many steps the dispatcher is from its loop top or its end. */
  function StepsLeft(pc: Pc): nat {
    match pc
    case AwaitHost(_) => 5
    case HostHeld(_) => 4
    case PageAdded(_) => 3
    case PageSem(_) => 2
    case PageActive(_) => 1
    case PageAborting => 1
    case AssetAdded => 3
    case AssetSem => 2
    case AssetActive => 1
    case EmptyPop => 1
    case LoopTop => 0
    case Exited => 0
  }

  /** Every step of the dispatcher's own brings it nearer to its loop top or its end, except at the loop top; there it
      takes an item off the queue, finds it empty, or ends.  No step of a goroutine moves it. */
  lemma DispatcherProgress(l: Limits, s: State, step: Step)
    requires Enabled(l, s, step)
    ensures var s' := Next(l, s, step);
      if step.Cancel? || step.PushLink? || step.Defer? then s'.pc == s.pc
      else if s.pc != LoopTop then StepsLeft(s'.pc) < StepsLeft(s.pc)
      else s'.pc == Exited || (s.queue == 0 && s'.pc == EmptyPop) || s'.queue == s.queue - 1
  {
  }

  // ---------- what becomes of a popped item ----------

  /** How often an event happened in the first n steps. */
  ghost function Times(states: seq<State>, steps: seq<Step>, e: (State, Step, State) -> bool, n: nat): nat
    requires |states| == |steps| + 1 && n <= |steps|
  {
    if n == 0 then 0
    else Times(states, steps, e, n - 1) + if e(states[n - 1], steps[n - 1], states[n]) then 1 else 0
  }

  predicate Pops(step: Step) {
    step.PopSkipped? || step.PopAsset? || step.PopPage?
  }

  /** The queue holds what was there and pushed and not popped. */
  lemma {:induction false} QueueLedger(l: Limits, states: seq<State>, steps: seq<Step>, n: nat)
    requires IsRun(l, states, steps) && n <= |steps|
    ensures states[n].queue + Times(states, steps, (s, step: Step, s') => Pops(step), n) ==
      states[0].queue + Times(states, steps, (s, step: Step, s') => step.PushLink?, n)
  {
    if n > 0 {
      QueueLedger(l, states, steps, n - 1);
      assert states[n] == Next(l, states[n - 1], steps[n - 1]);
    }
  }

  predicate StartsPage(s: State, step: Step, s': State, h: Host) {
    step.Spawn? && step.g in s'.procs && s'.procs[step.g] == PageRunning(h)
  }

  predicate TurnsPageAway(s: State, step: Step, h: Host) {
    || (step.AbandonHost? && s.pc == AwaitHost(h))
    || (step.RefusePage? && s.pc == HostHeld(h))
    || (step.AbandonPage? && s.pc == PageAdded(h))
  }

  predicate Decides(pc: Pc, h: Host) {
    (pc.AwaitHost? || pc.HostHeld? || pc.PageAdded? || pc.PageSem? || pc.PageActive?) && pc.host == h
  }

  /** Every popped page of a host is started for that host, or turned away, or still being decided on. */
  lemma {:induction false} PageLedger(l: Limits, states: seq<State>, steps: seq<Step>, n: nat, h: Host)
    requires IsRun(l, states, steps) && n <= |steps|
    ensures Times(states, steps, (s, step, s') => step == PopPage(h), n) ==
      Times(states, steps, (s, step, s') => StartsPage(s, step, s', h), n) +
      Times(states, steps, (s, step, s') => TurnsPageAway(s, step, h), n) + Bit(Decides(states[n].pc, h))
  {
    hide Enabled, Next, Decides, StartsPage, TurnsPageAway;
    if n > 0 {
      PageLedger(l, states, steps, n - 1, h);
      PageLedgerStep(l, states[n - 1], steps[n - 1], h);
    } else {
      assert !Decides(LoopTop, h) by { NothingDecided(h); }
    }
  }

  lemma NothingDecided(h: Host)
    ensures !Decides(LoopTop, h)
  {
  }

  lemma PageLedgerStep(l: Limits, s: State, step: Step, h: Host)
    requires Enabled(l, s, step)
    ensures var s' := Next(l, s, step);
      Bit(Decides(s.pc, h)) + Bit(step == PopPage(h)) ==
      Bit(Decides(s'.pc, h)) + Bit(StartsPage(s, step, s', h)) + Bit(TurnsPageAway(s, step, h))
  {
  }

  predicate StartsAsset(s: State, step: Step, s': State) {
    step.Spawn? && step.g in s'.procs && s'.procs[step.g] == AssetRunning
  }

  /** The same for assets. */
  lemma {:induction false} AssetLedger(l: Limits, states: seq<State>, steps: seq<Step>, n: nat)
    requires IsRun(l, states, steps) && n <= |steps|
    ensures Times(states, steps, (s, step: Step, s') => step.PopAsset?, n) ==
      Times(states, steps, (s, step, s') => StartsAsset(s, step, s'), n) +
      Times(states, steps, (s, step: Step, s') => step.AbandonAsset?, n) +
      Bit(states[n].pc.AssetAdded? || states[n].pc.AssetSem? || states[n].pc.AssetActive?)
  {
    if n > 0 {
      AssetLedger(l, states, steps, n - 1);
      assert states[n] == Next(l, states[n - 1], steps[n - 1]);
    }
  }

  // ---------- when the loop ends ----------

  /** Exactly when a step ends the loop: told to at its top, idle, or cancelled while it waits to start something. */
  lemma ExitsIff(l: Limits, s: State, step: Step)
    requires Enabled(l, s, step)
    ensures s.pc == Exited ==> Next(l, s, step).pc == Exited && forall g :: g in Next(l, s, step).procs ==> g in s.procs
    ensures s.pc != Exited ==>
      (Next(l, s, step).pc == Exited <==>
        || step == StopLoop || (step == ReadActive && s.active == 0)
        || step == AbandonAsset || step == FinishAbandon)
  {
  }

  /** The context is cancelled exactly after a Cancel. */
  lemma {:induction false} CancelledIff(l: Limits, states: seq<State>, steps: seq<Step>, n: nat)
    requires IsRun(l, states, steps) && n <= |steps|
    ensures states[n].cancelled <==> exists i :: 0 <= i < n && steps[i] == Cancel
  {
    if n > 0 {
      CancelledIff(l, states, steps, n - 1);
      assert states[n] == Next(l, states[n - 1], steps[n - 1]);
    }
  }

  /** The dispatcher gives up waiting for a token only when it is cancelled. */
  lemma {:induction false} AbortsCancelled(l: Limits, states: seq<State>, steps: seq<Step>, n: nat)
    requires IsRun(l, states, steps) && n <= |steps|
    ensures states[n].pc == PageAborting ==> states[n].cancelled
    ensures n < |steps| && (steps[n].AbandonAsset? || steps[n].AbandonHost? || steps[n].AbandonPage?) ==>
      states[n].cancelled
  {
    if n > 0 {
      AbortsCancelled(l, states, steps, n - 1);
      assert states[n] == Next(l, states[n - 1], steps[n - 1]);
    }
  }

  /** In a run that is neither cancelled nor stopped the loop ends only when it is idle: a failed pop was pending, no
      page or asset was active, and what the queue held had been pushed since that pop. */
  lemma {:induction false} EndsOnlyIdle(l: Limits, states: seq<State>, steps: seq<Step>, n: nat) returns (i: nat)
    requires IsRun(l, states, steps) && n < |states| && states[n].pc == Exited
    requires forall k :: 0 <= k < n ==> steps[k] != Cancel && steps[k] != StopLoop
    ensures i < n && steps[i] == ReadActive && states[i].pc == EmptyPop && states[i + 1].pc == Exited
    ensures states[i].active == 0 && states[i].queue == states[i].latePushes
    ensures forall k :: i < k <= n ==> states[k].pc == Exited
  {
    hide Enabled, Next, Conserved;
    assert n > 0;
    i := n - 1;
    var s, step := states[n - 1], steps[n - 1];
    assert Enabled(l, s, step) && states[n] == Next(l, s, step);
    if s.pc == Exited {
      i := EndsOnlyIdle(l, states, steps, n - 1);
    } else {
      ExitsIff(l, s, step);
      AbortsCancelled(l, states, steps, n - 1);
      CancelledIff(l, states, steps, n - 1);
      LatePushesAreTheQueue(l, states, steps, n - 1);
      assert step == FinishAbandon ==> s.pc == PageAborting by { FinishesAborting(l, s); }
      assert step == ReadActive ==> s.pc == EmptyPop by { ReadsEmptyPop(l, s); }
    }
  }

  lemma FinishesAborting(l: Limits, s: State)
    ensures Enabled(l, s, FinishAbandon) ==> s.pc == PageAborting
  {
  }

  lemma ReadsEmptyPop(l: Limits, s: State)
    ensures Enabled(l, s, ReadActive) ==> s.pc == EmptyPop
  {
  }

  // ---------- leaving with work in the queue ----------

  ghost predicate QueueAccounted(s: State) {
    s.pc.EmptyPop? ==> s.queue == s.latePushes
  }

  lemma {:induction false} LatePushesAreTheQueue(l: Limits, states: seq<State>, steps: seq<Step>, n: nat)
    requires IsRun(l, states, steps) && n < |states|
    ensures QueueAccounted(states[n])
  {
    if n > 0 {
      LatePushesAreTheQueue(l, states, steps, n - 1);
      assert states[n] == Next(l, states[n - 1], steps[n - 1]);
    }
  }

  /** The loop reads activePages after the failed pop: it leaves the queue empty exactly when no goroutine
      pushed a link in between. */
  lemma ExitsEmptyUnlessLatePush(l: Limits, states: seq<State>, steps: seq<Step>, n: nat)
    requires IsRun(l, states, steps) && n < |steps| && steps[n] == ReadActive && states[n + 1].pc == Exited
    ensures states[n + 1].queue == 0 <==> states[n].latePushes == 0
  {
    LatePushesAreTheQueue(l, states, steps, n);
  }

  ghost predicate NoPageRuns(s: State) {
    forall g :: g in s.procs ==> !s.procs[g].PageRunning?
  }

  lemma QuietStep(l: Limits, s: State, step: Step)
    requires Enabled(l, s, step) && s.pc == EmptyPop && Next(l, s, step).pc == EmptyPop && NoPageRuns(s)
    ensures NoPageRuns(Next(l, s, step)) && Next(l, s, step).latePushes == s.latePushes
  {
  }

  lemma {:induction false} QuietWait(l: Limits, states: seq<State>, steps: seq<Step>, m: nat, n: nat)
    requires IsRun(l, states, steps) && m < n < |states|
    requires steps[m] == PopNothing && NoPageRuns(states[m])
    requires forall i :: m < i <= n ==> states[i].pc == EmptyPop
    ensures NoPageRuns(states[n]) && states[n].latePushes == 0
  {
    hide Enabled, Next;
    if n > m + 1 {
      QuietWait(l, states, steps, m, n - 1);
      assert states[n] == Next(l, states[n - 1], steps[n - 1]);
      QuietStep(l, states[n - 1], steps[n - 1]);
    } else {
      assert states[n] == Next(l, states[m], steps[m]);
      QuietPop(l, states[m]);
    }
  }

  lemma QuietPop(l: Limits, s: State)
    requires Enabled(l, s, PopNothing) && NoPageRuns(s)
    ensures NoPageRuns(Next(l, s, PopNothing)) && Next(l, s, PopNothing).latePushes == 0
  {
  }

  /** In particular when no page was running at the failed pop, as in a one-worker run, nothing is left. */
  lemma QuietExitIsEmpty(l: Limits, states: seq<State>, steps: seq<Step>, m: nat, n: nat)
    requires IsRun(l, states, steps) && m < n < |steps|
    requires steps[m] == PopNothing && states[m].active == 0
    requires (forall i :: m < i <= n ==> states[i].pc == EmptyPop) && steps[n] == ReadActive
    requires states[n + 1].pc == Exited
    ensures states[n + 1].queue == 0
  {
    TokensConserved(l, states, steps, m);
    var s := states[m];
    assert Counter(s, ActiveToken) == |Holders(s.procs, ActiveToken)| + Bit(PcHas(s.pc, ActiveToken));
    forall g | g in s.procs ensures !s.procs[g].PageRunning? {
      assert g in Holders(s.procs, ActiveToken) <==> Has(s.procs[g], ActiveToken);
      assert Holders(s.procs, ActiveToken) == {};
    }
    QuietWait(l, states, steps, m, n);
    ExitsEmptyUnlessLatePush(l, states, steps, n);
  }

  lemma Extend(l: Limits, states: seq<State>, steps: seq<Step>, step: Step)
    returns (states': seq<State>, steps': seq<Step>)
    requires IsRun(l, states, steps) && Enabled(l, states[|steps|], step)
    ensures IsRun(l, states', steps') && steps' == steps + [step]
    ensures states'[|steps'|] == Next(l, states[|steps|], step)
  {
    states', steps' := states + [Next(l, states[|steps|], step)], steps + [step];
  }

  /** Dispatch one page of host h. */
  lemma OnePage(l: Limits, h: Host) returns (states: seq<State>, steps: seq<Step>)
    requires l.pages > 0
    ensures IsRun(l, states, steps)
    ensures states[|steps|] == State(LoopTop, map[0 := PageRunning(h)], map[h := 1], 1, 0, 1, 1, 0, 0, false)
  {
    hide IsRun;
    states, steps := OneQueued(l);
    states, steps := Extend(l, states, steps, PopPage(h));
    states, steps := Extend(l, states, steps, TakeHostSem);
    states, steps := Extend(l, states, steps, AddPage);
    states, steps := Extend(l, states, steps, TakePageSem);
    states, steps := Extend(l, states, steps, CountActive);
    states, steps := Extend(l, states, steps, Spawn(0));
  }

  lemma OneQueued(l: Limits) returns (states: seq<State>, steps: seq<Step>)
    ensures IsRun(l, states, steps) && states[|steps|] == START.(queue := 1)
  {
    states, steps := [START.(queue := 1)], [];
  }

  /** A run that leaves work behind: the only page pushes a link after the failed pop and finishes before
      activePages is read. */
  lemma ExitCanLoseWork(l: Limits, h: Host) returns (states: seq<State>, steps: seq<Step>)
    requires l.pages > 0
    ensures IsRun(l, states, steps) && steps != []
    ensures steps[|steps| - 1] == ReadActive && states[|steps|].pc == Exited && states[|steps|].queue == 1
  {
    hide IsRun;
    states, steps := OnePage(l, h);
    states, steps := Extend(l, states, steps, PopNothing);
    states, steps := Extend(l, states, steps, PushLink(0));
    states, steps := Extend(l, states, steps, Defer(0));
    states, steps := Extend(l, states, steps, Defer(0));
    states, steps := Extend(l, states, steps, Defer(0));
    states, steps := Extend(l, states, steps, ReadActive);
  }

  /** Both slots of a host are used: two pages of one host can run at once. */
  lemma TwoPagesTogether(l: Limits, h: Host) returns (states: seq<State>, steps: seq<Step>)
    requires l.pages >= 2
    ensures IsRun(l, states, steps) && RunningPages(states[|steps|], h) == {0, 1}
  {
    hide IsRun;
    states, steps := OnePage(l, h);
    states, steps := Extend(l, states, steps, PushLink(0));
    states, steps := Extend(l, states, steps, PopPage(h));
    states, steps := Extend(l, states, steps, TakeHostSem);
    states, steps := Extend(l, states, steps, AddPage);
    states, steps := SecondPage(l, h, states, steps);
  }

  lemma SecondPage(l: Limits, h: Host, states: seq<State>, steps: seq<Step>)
    returns (states': seq<State>, steps': seq<Step>)
    requires l.pages >= 2 && IsRun(l, states, steps)
    requires var s := states[|steps|]; s.pc == PageAdded(h) && s.pageTokens == 1 && s.procs == map[0 := PageRunning(h)]
    ensures IsRun(l, states', steps') && RunningPages(states'[|steps'|], h) == {0, 1}
  {
    hide IsRun;
    states', steps' := Extend(l, states, steps, TakePageSem);
    states', steps' := Extend(l, states', steps', CountActive);
    states', steps' := Extend(l, states', steps', Spawn(1));
  }
}
