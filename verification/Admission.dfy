/**
 The admission layers in front of the crawl queue: the exact LRU set, the Bloom
 filter and the queue's own seen map (internal/crawler/queueing.go, and the resume
 and seeding code of internal/crawler/start.go), used by one worker.
 */
module Admission {
  import opened CrawlQueue
  import Recency

  /** What shouldQueue consults besides the layers.  The Bloom filter is the set of added URLs plus
      arbitrary false positives. */
  datatype Policy = Policy(
    valid: string -> bool,                          // isValidURL
    allowed: string -> bool,                        // isAllowedDomain and not isExcluded
    falsePositive: (set<string>, string) -> bool,
    maxTotal: int,                                  // MaxTotalURLs, 0 for no limit
    recentCapacity: nat)

  /** The layers: queue, Bloom-added set, exact LRU set, and the count of crawled URLs. */
  datatype Layers = Layers(queue: Queue, added: set<string>, recent: seq<Recency.Item<()>>, total: nat)

  const MAX_QUEUE_SIZE := 100000

  predicate HasSeen(p: Policy, added: set<string>, u: string) {
    u in added || p.falsePositive(added, u)
  }

  predicate TotalReached(p: Policy, l: Layers) {
    p.maxTotal > 0 && l.total >= p.maxTotal
  }

  /** The checks of shouldQueue, in order. */
  predicate Accepts(p: Policy, l: Layers, u: string) {
    && p.valid(u) && p.allowed(u)
    && !TotalReached(p, l)
    && |l.queue.items| < MAX_QUEUE_SIZE
    && u !in Recency.Keys(l.recent)
    && !HasSeen(p, l.added, u)
  }

  /** Add to the Bloom filter and the exact set. */
  function Record(p: Policy, l: Layers, u: string): Layers {
    l.(added := l.added + {u}, recent := Recency.Use(l.recent, p.recentCapacity, Recency.Item(u, ())))
  }

  function ShouldQueue(p: Policy, l: Layers, u: string): (Layers, bool) {
    if Accepts(p, l, u) then (Record(p, l, u), true) else (l, false)
  }

  function Enqueue(l: Layers, u: string, d: int): Layers {
    l.(queue := Apply(l.queue, PushURL(u, d)).0)
  }

  /** Rehydration from a checkpoint: every visited URL goes into both dedup layers, in map order. */
  function Rehydrate(p: Policy, l: Layers, order: seq<string>): Layers {
    if order == [] then l else Record(p, Rehydrate(p, l, order[..|order| - 1]), order[|order| - 1])
  }

  /** Resume starts a new process, with a Bloom filter loaded from its file or empty. */
  datatype Event =
    | Resume(filter: set<string>, items: seq<HeapOrder.URLItem>, visited: map<string, bool>, order: seq<string>)
    | Seed(url: string)
    | Link(url: string, depth: int)       // one iteration of the link loop
    | Dequeue
    | AddOnly(url: string)                // an asset recorded in the Bloom filter alone
    | Crawled

  function Elements(order: seq<string>): set<string> {
    set i | 0 <= i < |order| :: order[i]
  }

  ghost predicate Possible(e: Event) {
    e.Resume? ==> Elements(e.order) == e.visited.Keys
  }

  function Step(p: Policy, l: Layers, e: Event): Layers {
    match e
    case Resume(filter, items, visited, order) =>
      Rehydrate(p, Layers(Load(items, visited, l.queue.maxSize), filter, [], 0), order)
    case Seed(u) =>
      if !p.valid(u) || HasSeen(p, l.added, u) then l else Enqueue(Record(p, l, u), u, 0)
    case Link(u, d) =>
      var (l', yes) := ShouldQueue(p, l, u);
      if yes then Enqueue(l', u, d) else l'
    case Dequeue => l.(queue := Apply(l.queue, PopURL).0)
    case AddOnly(u) => l.(added := l.added + {u})
    case Crawled => l.(total := l.total + 1)
  }

  /** The event passed the dedup layers for URL u. */
  predicate Passes(p: Policy, l: Layers, e: Event, u: string) {
    match e
    case Seed(v) => v == u && p.valid(u) && !HasSeen(p, l.added, u)
    case Link(v, _) => v == u && Accepts(p, l, u)
    case _ => false
  }

  // ---------- the layers agree ----------

  ghost predicate Agree(l: Layers) {
    && (forall u :: u in l.queue.seen ==> u in l.added)
    && Recency.Keys(l.recent) <= l.added
  }

  lemma UseKeys(s: seq<Recency.Item<()>>, capacity: nat, u: Recency.Item<()>)
    ensures Recency.Keys(Recency.Use(s, capacity, u)) <= Recency.Keys(s) + {u.key}
  {
  }

  lemma RecordAgrees(p: Policy, l: Layers, u: string)
    requires Agree(l)
    ensures Agree(Record(p, l, u))
  {
  }

  lemma NoElements()
    ensures Elements([]) == {}
  {
  }

  lemma NextElement(order: seq<string>, u: string)
    ensures Elements(order + [u]) == Elements(order) + {u}
  {
    var longer := order + [u];
    assert longer[|order|] == u;
    forall x | x in Elements(order) ensures x in Elements(longer) {
      var i :| 0 <= i < |order| && order[i] == x;
      assert longer[i] == x;
    }
  }

  lemma {:induction false} RehydrateAdds(p: Policy, l: Layers, order: seq<string>)
    requires Recency.Keys(l.recent) <= l.added
    ensures var l' := Rehydrate(p, l, order);
      && l'.queue == l.queue && l'.total == l.total
      && l'.added == l.added + Elements(order)
      && Recency.Keys(l'.recent) <= l'.added
  {
    hide Recency.Use, Recency.Keys, Elements;
    if order == [] {
      NoElements();
    } else {
      var n := |order| - 1;
      RehydrateAdds(p, l, order[..n]);
      var m := Rehydrate(p, l, order[..n]);
      UseKeys(m.recent, p.recentCapacity, Recency.Item(order[n], ()));
      NextElement(order[..n], order[n]);
      assert order[..n] + [order[n]] == order;
    }
  }

  /** Every event keeps the queue's seen map and the exact set inside the Bloom-added set, and within a process
      the added set only grows. */
  lemma StepAgrees(p: Policy, l: Layers, e: Event)
    requires Agree(l) && Possible(e)
    ensures Agree(Step(p, l, e)) && (!e.Resume? ==> l.added <= Step(p, l, e).added)
  {
    match e
    case Resume(filter, items, visited, order) =>
      RehydrateAdds(p, Layers(Load(items, visited, l.queue.maxSize), filter, [], 0), order);
    case Seed(u) => RecordAgrees(p, l, u);
    case Link(u, d) => RecordAgrees(p, l, u);
    case _ =>
  }

  // ---------- whole runs ----------

  /** The layers after each prefix of a run. */
  function After(p: Policy, l: Layers, events: seq<Event>): Layers {
    if events == [] then l else Step(p, After(p, l, events[..|events| - 1]), events[|events| - 1])
  }

  ghost predicate AllPossible(events: seq<Event>) {
    forall i :: 0 <= i < |events| ==> Possible(events[i])
  }

  lemma {:induction false} RunAgrees(p: Policy, l: Layers, events: seq<Event>)
    requires Agree(l) && AllPossible(events)
    ensures Agree(After(p, l, events))
  {
    if events != [] {
      var n := |events| - 1;
      RunAgrees(p, l, events[..n]);
      StepAgrees(p, After(p, l, events[..n]), events[n]);
    }
  }

  /** A resumed process loads the checkpoint that its predecessor's queue would save. */
  ghost predicate Continues(l: Layers, e: Event) {
    e.Resume? ==> e.items == l.queue.items && e.visited == l.queue.seen
  }

  ghost predicate AllContinue(p: Policy, l: Layers, events: seq<Event>) {
    forall i :: 0 <= i < |events| ==> Possible(events[i]) && Continues(After(p, l, events[..i]), events[i])
  }

  /** What a URL recorded at event i is remembered by until event j: the seen map if it was pushed, else the
      Bloom layer while the process lives. */
  ghost predicate Remembered(l: Layers, u: string, pushed: bool) {
    if pushed then u in l.queue.seen else u in l.added
  }

  lemma RememberedStep(p: Policy, l: Layers, e: Event, u: string, pushed: bool)
    requires Agree(l) && Possible(e) && Continues(l, e) && Remembered(l, u, pushed) && (pushed || !e.Resume?)
    ensures Remembered(Step(p, l, e), u, pushed)
  {
    StepAgrees(p, l, e);
    if e.Resume? {
      RehydrateAdds(p, Layers(Load(e.items, e.visited, l.queue.maxSize), e.filter, [], 0), e.order);
    }
  }

  lemma {:induction false} RememberedRun(p: Policy, l: Layers, events: seq<Event>, i: nat, u: string, pushed: bool)
    requires Agree(l) && AllContinue(p, l, events) && i <= |events| && Remembered(After(p, l, events[..i]), u, pushed)
    requires pushed || forall k :: i <= k < |events| ==> !events[k].Resume?
    ensures Remembered(After(p, l, events), u, pushed)
    decreases |events|
  {
    hide Remembered, Continues, Possible, Agree, Step;
    if i == |events| {
      assert events[..i] == events;
    } else {
      var n := |events| - 1;
      AllContinuePrefix(p, l, events, n);
      assert events[..n][..i] == events[..i];
      RememberedRun(p, l, events[..n], i, u, pushed);
      RunAgrees(p, l, events[..n]);
      RememberedStep(p, After(p, l, events[..n]), events[n], u, pushed);
    }
  }

  lemma AllContinuePrefix(p: Policy, l: Layers, events: seq<Event>, n: nat)
    requires AllContinue(p, l, events) && n <= |events|
    ensures AllContinue(p, l, events[..n]) && AllPossible(events[..n])
  {
    assert forall k :: 0 <= k <= n ==> events[..n][..k] == events[..k];
  }

  /** In every run, through seeding, link discovery, eviction and resumes from the saved checkpoint, a URL that was
      pushed is never admitted again, and one that was admitted without being pushed not in the same process. */
  lemma AdmittedAtMostOnce(p: Policy, l: Layers, events: seq<Event>, i: nat, j: nat, u: string)
    requires Agree(l) && AllContinue(p, l, events) && i < j < |events|
    requires Passes(p, After(p, l, events[..i]), events[i], u)
    requires Admits(After(p, l, events[..i]).queue, u) || forall k :: i < k < j ==> !events[k].Resume?
    ensures !Passes(p, After(p, l, events[..j]), events[j], u)
  {
    hide Agree, Possible, Continues;
    var pushed := Admits(After(p, l, events[..i]).queue, u);
    assert events[..i + 1][..i] == events[..i];
    assert Remembered(After(p, l, events[..i + 1]), u, pushed) by {
      PassRemembers(p, After(p, l, events[..i]), events[i], u);
    }
    AllContinuePrefix(p, l, events, j);
    assert events[..j][..i + 1] == events[..i + 1];
    RememberedRun(p, l, events[..j], i + 1, u, pushed);
    RunAgrees(p, l, events[..j]);
    assert u in After(p, l, events[..j]).added by { SeenIsAdded(After(p, l, events[..j]), u); }
  }

  lemma PassRemembers(p: Policy, l: Layers, e: Event, u: string)
    requires Passes(p, l, e, u)
    ensures Remembered(Step(p, l, e), u, Admits(l.queue, u))
  {
  }

  lemma SeenIsAdded(l: Layers, u: string)
    requires Agree(l) && (u in l.queue.seen || u in l.added)
    ensures u in l.added
  {
  }

  /** A yes from shouldQueue is followed by a successful PushURL exactly when the queue's own cap leaves
      room; with the default cap it always does. */
  lemma YesMeansPushed(p: Policy, l: Layers, events: seq<Event>, u: string, d: int)
    requires Agree(l) && AllPossible(events) && Accepts(p, After(p, l, events), u)
    ensures var m := After(p, l, events);
      && (Apply(ShouldQueue(p, m, u).0.queue, PushURL(u, d)).1 == Pushed(true) <==> |m.queue.items| < m.queue.maxSize)
      && (m.queue.maxSize >= MAX_QUEUE_SIZE ==> Apply(ShouldQueue(p, m, u).0.queue, PushURL(u, d)).1 == Pushed(true))
  {
    RunAgrees(p, l, events);
  }

  /** The exact set never decides: whatever it holds, shouldQueue answers as if it were not consulted. */
  lemma ExactSetIsRedundant(p: Policy, l: Layers, events: seq<Event>, u: string)
    requires Agree(l) && AllPossible(events)
    ensures var m := After(p, l, events); Accepts(p, m, u) <==> Accepts(p, m.(recent := []), u)
  {
    RunAgrees(p, l, events);
  }

  // ---------- what a Bloom false positive costs ----------

  /** The event records u in the Bloom layer. */
  predicate Records(p: Policy, l: Layers, e: Event, u: string) {
    Passes(p, l, e, u) || e == AddOnly(u) || (e.Resume? && (u in e.visited || u in e.filter))
  }

  /** Some event of the present process recorded u. */
  ghost predicate RecordedSince(p: Policy, l: Layers, events: seq<Event>, u: string) {
    exists i :: 0 <= i < |events| && RecordedAt(p, l, events, u, i)
  }

  lemma RecordsIff(p: Policy, l: Layers, e: Event, u: string)
    requires Possible(e)
    ensures u in Step(p, l, e).added <==> Records(p, l, e, u) || (u in l.added && !e.Resume?)
  {
    if e.Resume? {
      RehydrateAdds(p, Layers(Load(e.items, e.visited, l.queue.maxSize), e.filter, [], 0), e.order);
    }
  }

  ghost predicate RecordedAt(p: Policy, l: Layers, events: seq<Event>, u: string, i: nat)
    requires i < |events|
  {
    Records(p, After(p, l, events[..i]), events[i], u) && forall k :: i < k < |events| ==> !events[k].Resume?
  }

  lemma RecordedAtPrefix(p: Policy, l: Layers, events: seq<Event>, u: string, i: nat)
    requires i < |events| - 1
    ensures RecordedAt(p, l, events, u, i) <==>
      RecordedAt(p, l, events[..|events| - 1], u, i) && !events[|events| - 1].Resume?
  {
    hide Records, After;
    var n := |events| - 1;
    assert events[..n][..i] == events[..i];
    assert forall k :: 0 <= k < n ==> events[..n][k] == events[k];
  }

  lemma RecordedNext(p: Policy, l: Layers, events: seq<Event>, u: string)
    requires events != []
    ensures var n := |events| - 1;
      RecordedSince(p, l, events, u) <==>
        Records(p, After(p, l, events[..n]), events[n], u) ||
            (RecordedSince(p, l, events[..n], u) && !events[n].Resume?)
  {
    hide RecordedAt;
    var n := |events| - 1;
    forall i | 0 <= i < n
      ensures RecordedAt(p, l, events, u, i) <==> RecordedAt(p, l, events[..n], u, i) && !events[n].Resume?
    {
      RecordedAtPrefix(p, l, events, u, i);
    }
    assert RecordedAt(p, l, events, u, n) <==> Records(p, After(p, l, events[..n]), events[n], u) by {
      RecordedAtLast(p, l, events, u);
    }
  }

  lemma RecordedAtLast(p: Policy, l: Layers, events: seq<Event>, u: string)
    requires events != []
    ensures var n := |events| - 1;
      RecordedAt(p, l, events, u, n) <==> Records(p, After(p, l, events[..n]), events[n], u)
  {
  }

  /** The Bloom layer holds exactly what the present process recorded or loaded. */
  lemma {:induction false} AddedIff(p: Policy, l: Layers, events: seq<Event>, u: string)
    requires AllPossible(events)
    ensures u in After(p, l, events).added <==>
      RecordedSince(p, l, events, u) || (u in l.added && forall k :: 0 <= k < |events| ==> !events[k].Resume?)
  {
    hide Records, Possible, Step, RecordedSince;
    if events != [] {
      var n := |events| - 1;
      AddedIff(p, l, events[..n], u);
      RecordsIff(p, After(p, l, events[..n]), events[n], u);
      RecordedNext(p, l, events, u);
    } else {
      assert !RecordedSince(p, l, [], u) by { NothingRecorded(p, l, u); }
    }
  }

  lemma NothingRecorded(p: Policy, l: Layers, u: string)
    ensures !RecordedSince(p, l, [], u)
  {
  }

  /** After any run shouldQueue refuses an eligible URL that the process neither recorded nor started with, with room in
      the queue and under the total limit, exactly on a Bloom false positive: asking the exact set first does not
      help. */
  lemma NewUrlRefusedIff(p: Policy, l: Layers, events: seq<Event>, u: string)
    requires Agree(l) && AllPossible(events) && !RecordedSince(p, l, events, u)
    requires u !in l.added || exists k :: 0 <= k < |events| && events[k].Resume?
    requires var m := After(p, l, events); !TotalReached(p, m) && |m.queue.items| < MAX_QUEUE_SIZE
    requires p.valid(u) && p.allowed(u)
    ensures var m := After(p, l, events); !ShouldQueue(p, m, u).1 <==> p.falsePositive(m.added, u)
  {
    hide RecordedSince;
    AddedIff(p, l, events, u);
    RunAgrees(p, l, events);
  }
}
