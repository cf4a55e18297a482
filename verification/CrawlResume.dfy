/**
 A crawl resumed from a checkpoint by a new process (internal/crawler/start.go and
 saveCheckpoint of internal/crawler/queueing.go).
 */
module CrawlResume {
  import opened HeapOrder
  import opened CrawlQueue
  import opened Admission
  import opened CrawlRun
  import opened CrawlOrder
  import opened CrawlLoss
  import opened CrawlLimit
  import Recency

  /** A new process that loads the checkpoint of crawl c, and whatever Bloom filter it finds. */
  function Resumed(p: Policy, c: Crawl, filter: set<string>, order: seq<string>): Crawl {
    c.(layers := Step(p, c.layers, Resume(filter, c.layers.queue.items, c.layers.queue.seen, order)))
  }

  /** It goes on to seed again, as Start always does. */
  function Restart(j: Job, c: Crawl, filter: set<string>, order: seq<string>): Crawl {
    SeedAll(j.policy, Resumed(j.policy, c, filter, order), j.seeds)
  }

  /** What the new process starts with. */
  lemma ResumedLayers(p: Policy, c: Crawl, filter: set<string>, order: seq<string>)
    requires IsHeap(c.layers.queue.items) && Elements(order) == c.layers.queue.seen.Keys
    ensures var r := Resumed(p, c, filter, order);
      && r.layers.queue == c.layers.queue && r.layers.added == filter + c.layers.queue.seen.Keys
      && Recency.Keys(r.layers.recent) <= r.layers.added && r.layers.total == 0
      && r.found == c.found && r.lost == c.lost
  {
    hide IsHeap;
    var q := c.layers.queue;
    HeapifyBelowOfHeap(q.items, |q.items| / 2);
    RehydrateAdds(p, Layers(Load(q.items, q.seen, q.maxSize), filter, [], 0), order);
  }

  // ---------- any number of interruptions ----------

  lemma LayersBase(j: Job, c: Crawl, popped: seq<Entry>, floor: int, c': Crawl)
    requires Base(j, c, popped, floor) && c'.layers.queue == c.layers.queue && c'.found == c.found
    requires c.layers.queue.seen.Keys <= c'.layers.added
    ensures Base(j, c', popped, floor)
  {
    hide IsHeap, Bag, HasPath;
  }

  lemma LowerFloor(j: Job, c: Crawl, popped: seq<Entry>, floor: int)
    requires Base(j, c, popped, floor)
    ensures Base(j, c, popped, 0)
  {
    hide IsHeap, Bag, HasPath;
  }

  lemma BaseIsHeap(j: Job, c: Crawl, popped: seq<Entry>, floor: int)
    requires Base(j, c, popped, floor)
    ensures IsHeap(c.layers.queue.items) && c.layers.queue.seen.Keys == c.found.Keys
  {
  }

  lemma ResumedBase(j: Job, c: Crawl, popped: seq<Entry>, floor: int, filter: set<string>, order: seq<string>)
    requires Base(j, c, popped, floor) && Elements(order) == c.layers.queue.seen.Keys
    ensures Base(j, Resumed(j.policy, c, filter, order), popped, floor)
  {
    hide Base, Resumed;
    BaseIsHeap(j, c, popped, floor);
    ResumedLayers(j.policy, c, filter, order);
    LayersBase(j, c, popped, floor, Resumed(j.policy, c, filter, order));
  }

  /** The resumed process continues the invariant of the one before it, whatever that one lost and whichever filter it
      loads. */
  lemma RestartBase(j: Job, c: Crawl, popped: seq<Entry>, floor: int, filter: set<string>, order: seq<string>)
    requires Base(j, c, popped, floor) && Elements(order) == c.layers.queue.seen.Keys
    ensures var r := Restart(j, c, filter, order); Base(j, r, popped, 0) && Grows(c, r)
  {
    hide Base, Resumed, SeedAll;
    BaseIsHeap(j, c, popped, floor);
    ResumedLayers(j.policy, c, filter, order);
    ResumedBase(j, c, popped, floor, filter, order);
    LowerFloor(j, Resumed(j.policy, c, filter, order), popped, floor);
    SeedAllBase(j, Resumed(j.policy, c, filter, order), popped, j.seeds);
  }

  /** A process that resumes, and how many turns it takes before the next checkpoint. */
  datatype Process = Process(filter: set<string>, order: seq<string>, turns: nat)

  /** A crawl carried on by one process after the other, and all that they pop. */
  function Lives(j: Job, c: Crawl, rest: seq<Process>): (Crawl, seq<Entry>) {
    if rest == [] then (c, [])
    else
      var k := |rest| - 1;
      var (m, popped) := Lives(j, c, rest[..k]);
      var (c', more) := Turns(j, Restart(j, m, rest[k].filter, rest[k].order), rest[k].turns);
      (c', popped + more)
  }

  /** Each rehydrates exactly the visited URLs of the checkpoint before it. */
  ghost predicate Rehydrates(j: Job, c: Crawl, rest: seq<Process>) {
    forall k :: 0 <= k < |rest| ==> Elements(rest[k].order) == Lives(j, c, rest[..k]).0.layers.queue.seen.Keys
  }

  lemma ProcessBase(j: Job, c: Crawl, popped: seq<Entry>, floor: int, f: Process)
    requires Base(j, c, popped, floor) && Elements(f.order) == c.layers.queue.seen.Keys
    ensures var (c', more) := Turns(j, Restart(j, c, f.filter, f.order), f.turns);
      Base(j, c', popped + more, 0)
  {
    hide Base, Restart, Turns;
    RestartBase(j, c, popped, floor, f.filter, f.order);
    TurnsBase(j, Restart(j, c, f.filter, f.order), popped, 0, f.turns);
    var (c', more) := Turns(j, Restart(j, c, f.filter, f.order), f.turns);
    LowerFloor(j, c', popped + more, Level(0, more));
  }

  lemma {:induction false} LivesBase(j: Job, c: Crawl, popped: seq<Entry>, rest: seq<Process>)
    requires Base(j, c, popped, 0) && Rehydrates(j, c, rest)
    ensures var (c', more) := Lives(j, c, rest); Base(j, c', popped + more, 0)
  {
    hide Base, Restart, Turns, Elements;
    if rest == [] {
      assert popped + [] == popped;
    } else {
      var k := |rest| - 1;
      EarlierRehydrate(j, c, rest, k);
      LivesBase(j, c, popped, rest[..k]);
      var (m, more) := Lives(j, c, rest[..k]);
      ProcessBase(j, m, popped + more, 0, rest[k]);
      var (c', last) := Turns(j, Restart(j, m, rest[k].filter, rest[k].order), rest[k].turns);
      assert popped + more + last == popped + (more + last);
    }
  }

  lemma EarlierRehydrate(j: Job, c: Crawl, rest: seq<Process>, k: nat)
    requires Rehydrates(j, c, rest) && k <= |rest|
    ensures Rehydrates(j, c, rest[..k])
  {
    hide Lives, Elements;
    forall i | 0 <= i < k
      ensures Elements(rest[..k][i].order) == Lives(j, c, rest[..k][..i]).0.layers.queue.seen.Keys
    {
      assert rest[..k][..i] == rest[..i] && rest[..k][i] == rest[i];
    }
  }

  /** A crawl interrupted and resumed any number of times crawls no page twice, and each page within maxDepth at the
      length of a real link path, whatever was lost, refused or falsely seen on the way. */
  lemma InterruptedGenuine(j: Job, maxSize: int, total: nat, n: nat, rest: seq<Process>)
    requires Rehydrates(j, Turns(j, Begin(j, maxSize, total), n).0, rest)
    ensures var (c, first) := Turns(j, Begin(j, maxSize, total), n);
      Genuine(j, Pages(j, first) + Pages(j, Lives(j, c, rest).1))
  {
    hide Base, Turns, Begin, Lives, Rehydrates, Genuine;
    var (c, first) := Turns(j, Begin(j, maxSize, total), n);
    BeginBase(j, maxSize, total);
    TurnsBase(j, Begin(j, maxSize, total), [], 0, n);
    assert [] + first == first;
    LowerFloor(j, c, first, Level(0, first));
    LivesBase(j, c, first, rest);
    var (c', more) := Lives(j, c, rest);
    PagesAreGenuine(j, c', first + more, 0);
    PagesConcat(j, first, more);
  }

  // ---------- the order of the pages ----------

  /** The resumed process does not go back to the seeds: nothing was crawled yet, or seeds only, or every seed that it
      enqueues anew is refused. */
  ghost predicate GoesOn(j: Job, crawled: seq<Entry>, c: Crawl, r: Crawl) {
    crawled == [] || crawled[|crawled| - 1].depth == 0 ||
    forall u :: u in r.layers.queue.seen && u !in c.layers.queue.seen ==> j.site.refused(u)
  }

  /** The first page of a process is one it starts with. */
  lemma {:induction false} FirstPageHeld(j: Job, c: Crawl, popped: seq<Entry>, floor: int, n: nat)
    requires Base(j, c, popped, floor)
    ensures var (c', more) := Turns(j, c, n);
      if Pages(j, more) == [] then Bag(c'.layers.queue.items) <= Bag(c.layers.queue.items)
      else Pages(j, more)[0] in Bag(c.layers.queue.items)
  {
    hide Base, Bag, Turn, Visits;
    if n > 0 {
      FirstPageHeld(j, c, popped, floor, n - 1);
      var (m, more) := Turns(j, c, n - 1);
      if !Over(j.policy, m) {
        TurnsBase(j, c, popped, floor, n - 1);
        TurnHeld(j, m, popped + more, Level(floor, more));
        PagesNext(j, more, Strip(m.layers.queue.items[0]));
      }
    }
  }

  lemma TurnHeld(j: Job, c: Crawl, popped: seq<Entry>, floor: int)
    requires Base(j, c, popped, floor) && c.layers.queue.items != []
    ensures var e := Strip(c.layers.queue.items[0]);
      && e in Bag(c.layers.queue.items)
      && (!Visits(j, e) ==> Bag(Turn(j, c).layers.queue.items) <= Bag(c.layers.queue.items))
  {
    hide Base, Bag, LinkAll, Captured, Pop;
    BaseTracked(j, c, popped, floor);
    LeastHeld(c, Strip(c.layers.queue.items[0]));
  }

  lemma BaseTracked(j: Job, c: Crawl, popped: seq<Entry>, floor: int)
    requires Base(j, c, popped, floor)
    ensures Tracked(c)
  {
  }

  /** What was enqueued before is still held, and below no page popped before. */
  lemma HeldBefore(j: Job, c: Crawl, popped: seq<Entry>, floor: int, r: Crawl, e: Entry)
    requires Base(j, c, popped, floor) && Base(j, r, popped, 0) && Grows(c, r)
    requires e in Bag(r.layers.queue.items) && e.url in c.found
    ensures e.depth >= floor
  {
    hide IsHeap, Bag, HasPath;
    assert e == Entry(e.url, c.found[e.url]);
    assert forall i :: 0 <= i < |popped| ==> popped[i] != e;
  }

  lemma AscendingConcat(a: seq<Entry>, b: seq<Entry>)
    requires Ascending(a) && Ascending(b)
    ensures Ascending(a + b) <==> a == [] || b == [] || a[|a| - 1].depth <= b[0].depth
  {
    var s := a + b;
    if a != [] && b != [] {
      assert s[|a| - 1] == a[|a| - 1] && s[|a|] == b[0];
      assert forall i :: 0 <= i < |a| - 1 ==> a[i].depth <= a[|a| - 1].depth;
      assert forall i :: 0 < i < |b| ==> b[0].depth <= b[i].depth;
    }
  }

  lemma LastPageBelow(j: Job, popped: seq<Entry>)
    requires Ascending(popped) && Pages(j, popped) != []
    ensures var pages := Pages(j, popped);
      pages[|pages| - 1].depth <= Level(0, popped) && Visits(j, pages[|pages| - 1])
  {
    var pages := Pages(j, popped);
    PagesMembers(j, popped, pages[|pages| - 1]);
    assert forall i :: 0 <= i < |popped| - 1 ==> popped[i].depth <= popped[|popped| - 1].depth;
  }

  /** If the resumed process goes on, the two lists are in order. */
  lemma GoesOnAscending(j: Job, c: Crawl, popped: seq<Entry>, filter: set<string>, order: seq<string>, m: nat)
    requires Base(j, c, popped, Level(0, popped)) && Ascending(popped) && Elements(order) == c.layers.queue.seen.Keys
    requires GoesOn(j, Pages(j, popped), c, Restart(j, c, filter, order))
    ensures Ascending(Pages(j, popped) + Pages(j, Turns(j, Restart(j, c, filter, order), m).1))
  {
    hide Base, Turns, Restart, Bag;
    var r := Restart(j, c, filter, order);
    var more := Turns(j, r, m).1;
    var first, second := Pages(j, popped), Pages(j, more);
    RestartBase(j, c, popped, Level(0, popped), filter, order);
    TurnsBase(j, r, popped, 0, m);
    PagesAscend(j, popped);
    PagesAscend(j, more);
    AscendingConcat(first, second);
    if first != [] && second != [] {
      FirstPageHeld(j, r, popped, 0, m);
      LastPageBelow(j, popped);
      PagesMembers(j, more, second[0]);
      HeldIsFound(j, r, popped, 0, second[0]);
      BaseIsHeap(j, c, popped, Level(0, popped));
      BaseIsHeap(j, r, popped, 0);
      if second[0].url in c.found {
        HeldBefore(j, c, popped, Level(0, popped), r, second[0]);
      }
    }
  }

  lemma HeldIsFound(j: Job, c: Crawl, popped: seq<Entry>, floor: int, e: Entry)
    requires Base(j, c, popped, floor) && e in Bag(c.layers.queue.items)
    ensures e.url in c.found && c.found[e.url] == e.depth && e.depth >= floor
  {
  }

  lemma {:induction false} SeedAllNew(p: Policy, c: Crawl, seeds: seq<string>)
    ensures var c' := SeedAll(p, c, seeds);
      c'.layers.total == c.layers.total && forall u :: u in c'.found && u !in c.found ==> c'.found[u] == 0
  {
    if seeds != [] {
      SeedAllNew(p, c, seeds[..|seeds| - 1]);
    }
  }

  lemma RestartNew(j: Job, c: Crawl, popped: seq<Entry>, floor: int, filter: set<string>, order: seq<string>)
    requires Base(j, c, popped, floor) && Elements(order) == c.layers.queue.seen.Keys
    ensures var r := Restart(j, c, filter, order);
      r.layers.total == 0 && forall u :: u in r.found && u !in c.found ==> r.found[u] == 0
  {
    hide Base, Resumed;
    BaseIsHeap(j, c, popped, floor);
    ResumedLayers(j.policy, c, filter, order);
    SeedAllNew(j.policy, Resumed(j.policy, c, filter, order), j.seeds);
  }

  /** A URL that is popped or still held at the end, and was not popped before, shows that the process crawled some page
      no deeper. */
  lemma CrawledAsLow(j: Job, r: Crawl, popped: seq<Entry>, m: nat, u: string)
    requires Base(j, r, popped, 0) && u in r.found && (forall x :: x in popped ==> x.url != u)
    requires Visits(j, Entry(u, r.found[u])) && r.layers.total == 0 && Over(j.policy, Turns(j, r, m).0)
    ensures var pages := Pages(j, Turns(j, r, m).1); pages != [] && pages[0].depth <= r.found[u]
  {
    hide Base, Turns, Visits, Bag;
    var (c, more) := Turns(j, r, m);
    var e := Entry(u, r.found[u]);
    TurnsBase(j, r, popped, 0, m);
    TotalCounts(j, r, m);
    PagesAscend(j, more);
    PoppedOrHeld(j, c, popped, more, Level(0, more), u);
    if e in more {
      PagesMembers(j, more, e);
      var i :| 0 <= i < |Pages(j, more)| && Pages(j, more)[i] == e;
    } else {
      HeldIsThere(c, e);
      HeldIsFound(j, c, popped + more, Level(0, more), e);
      PagesMembers(j, more, Pages(j, more)[0]);
      assert forall i :: 0 <= i < |more| - 1 ==> more[i].depth <= more[|more| - 1].depth;
    }
  }

  lemma HeldIsThere(c: Crawl, e: Entry)
    requires e in Bag(c.layers.queue.items)
    ensures c.layers.queue.items != []
  {
    if c.layers.queue.items == [] {
      EmptyBag(c.layers.queue.items);
    }
  }

  lemma PoppedOrHeld(j: Job, c: Crawl, popped: seq<Entry>, more: seq<Entry>, floor: int, u: string)
    requires Base(j, c, popped + more, floor) && u in c.found && (forall x :: x in popped ==> x.url != u)
    ensures Entry(u, c.found[u]) in more || Entry(u, c.found[u]) in Bag(c.layers.queue.items)
  {
    hide Tracked, Bag, HasPath;
  }

  lemma PoppedIsFound(j: Job, c: Crawl, popped: seq<Entry>, floor: int, x: Entry)
    requires Base(j, c, popped, floor) && x in popped
    ensures x.url in c.found && x.depth >= 0
  {
    hide Tracked, Bag, HasPath;
    var i :| 0 <= i < |popped| && popped[i] == x;
  }

  /** If it does not go on, it crawls a seed after a deeper page. */
  lemma GoesBack(j: Job, c: Crawl, popped: seq<Entry>, filter: set<string>, order: seq<string>, m: nat)
    requires Base(j, c, popped, Level(0, popped)) && Ascending(popped) && Elements(order) == c.layers.queue.seen.Keys
    requires !GoesOn(j, Pages(j, popped), c, Restart(j, c, filter, order))
    requires Over(j.policy, Turns(j, Restart(j, c, filter, order), m).0)
    ensures !Ascending(Pages(j, popped) + Pages(j, Turns(j, Restart(j, c, filter, order), m).1))
  {
    hide Base, Turns, Restart, Bag, Over;
    var r := Restart(j, c, filter, order);
    var more := Turns(j, r, m).1;
    var first, second := Pages(j, popped), Pages(j, more);
    var u :| u in r.layers.queue.seen && u !in c.layers.queue.seen && !j.site.refused(u);
    RestartBase(j, c, popped, Level(0, popped), filter, order);
    RestartNew(j, c, popped, Level(0, popped), filter, order);
    BaseIsHeap(j, c, popped, Level(0, popped));
    BaseIsHeap(j, r, popped, 0);
    forall x | x in popped ensures x.url != u && x.depth >= 0 {
      PoppedIsFound(j, c, popped, Level(0, popped), x);
    }
    LastPageBelow(j, popped);
    PagesMembers(j, popped, first[|first| - 1]);
    CrawledAsLow(j, r, popped, m, u);
    PagesAscend(j, popped);
    TurnsBase(j, r, popped, 0, m);
    PagesAscend(j, more);
    AscendingConcat(first, second);
  }

  /** A crawl whose process dies after a checkpoint taken between two turns, and the crawl of the process that resumes
      from it: what was crawled up to the checkpoint and what is crawled from it on are together one sound crawl if and
      only if the resumed process does not go back to the seeds, which shows when it has seeded. */
  lemma InterruptedSoundIff(j: Job, maxSize: int, total: nat, n: nat, filter: set<string>, order: seq<string>, m: nat)
    requires var c := Turns(j, Begin(j, maxSize, total), n).0;
      Elements(order) == c.layers.queue.seen.Keys && Over(j.policy, Turns(j, Restart(j, c, filter, order), m).0)
    ensures var (c, popped) := Turns(j, Begin(j, maxSize, total), n);
      var r := Restart(j, c, filter, order);
      Sound(j, Pages(j, popped) + Pages(j, Turns(j, r, m).1)) <==> GoesOn(j, Pages(j, popped), c, r)
  {
    hide Base, Turns, Begin, Restart, Genuine, Over, GoesOn, Ascending, Elements;
    var (c, popped) := Turns(j, Begin(j, maxSize, total), n);
    var r := Restart(j, c, filter, order);
    BeginBase(j, maxSize, total);
    TurnsBase(j, Begin(j, maxSize, total), [], 0, n);
    assert [] + popped == popped;
    RestartBase(j, c, popped, Level(0, popped), filter, order);
    TurnsBase(j, r, popped, 0, m);
    var more := Turns(j, r, m).1;
    PagesAreGenuine(j, Turns(j, r, m).0, popped + more, Level(0, more));
    PagesConcat(j, popped, more);
    if GoesOn(j, Pages(j, popped), c, r) {
      GoesOnAscending(j, c, popped, filter, order, m);
    } else {
      GoesBack(j, c, popped, filter, order, m);
    }
  }

  /** The seeds that the new process knows are not enqueued again. */
  lemma {:induction false} SeedsAgain(p: Policy, c: Crawl, seeds: seq<string>)
    requires forall s :: s in seeds && p.valid(s) ==> s in c.layers.added && s in c.found
    ensures SeedAll(p, c, seeds) == c
  {
    if seeds != [] {
      var n := |seeds| - 1;
      assert seeds[n] in seeds && forall s :: s in seeds[..n] ==> s in seeds;
      SeedsAgain(p, c, seeds[..n]);
    }
  }

  /** If the checkpoint has seen every valid seed, the resumed process starts with exactly what it loads. */
  lemma RestartResumes(j: Job, c: Crawl, popped: seq<Entry>, floor: int, filter: set<string>, order: seq<string>)
    requires Base(j, c, popped, floor) && Elements(order) == c.layers.queue.seen.Keys
    requires forall s :: s in j.seeds && j.policy.valid(s) ==> s in c.layers.queue.seen
    ensures Restart(j, c, filter, order) == Resumed(j.policy, c, filter, order)
    ensures Restart(j, c, filter, order).layers.queue == c.layers.queue
  {
    hide Base, Resumed, SeedAll;
    BaseIsHeap(j, c, popped, floor);
    ResumedLayers(j.policy, c, filter, order);
    SeedsAgain(j.policy, Resumed(j.policy, c, filter, order), j.seeds);
  }

  /** So the two are together sound whenever the checkpoint has seen every valid seed, whatever was lost or refused. */
  lemma SeenSeedsSound(j: Job, maxSize: int, total: nat, n: nat, filter: set<string>, order: seq<string>, m: nat)
    requires var c := Turns(j, Begin(j, maxSize, total), n).0;
      && Elements(order) == c.layers.queue.seen.Keys && Over(j.policy, Turns(j, Restart(j, c, filter, order), m).0)
      && forall s :: s in j.seeds && j.policy.valid(s) ==> s in c.layers.queue.seen
    ensures var (c, popped) := Turns(j, Begin(j, maxSize, total), n);
      Sound(j, Pages(j, popped) + Pages(j, Turns(j, Restart(j, c, filter, order), m).1))
  {
    hide Base, Turns, Begin, Restart, Sound, Over, Elements;
    var (c, popped) := Turns(j, Begin(j, maxSize, total), n);
    BeginBase(j, maxSize, total);
    TurnsBase(j, Begin(j, maxSize, total), [], 0, n);
    RestartResumes(j, c, [] + popped, Level(0, popped), filter, order);
    InterruptedSoundIff(j, maxSize, total, n, filter, order, m);
  }

  // ---------- completeness ----------

  /** What the new process loads is in the middle of the same run. */
  lemma ResumedTurning(j: Job, c: Crawl, popped: seq<Entry>, filter: set<string>, order: seq<string>)
    requires Turning(j, c, popped) && Elements(order) == c.layers.queue.seen.Keys
    ensures Turning(j, Resumed(j.policy, c, filter, order), popped)
  {
    hide Base, Complete, Ahead, Ascending, Resumed;
    BaseIsHeap(j, c, popped, Level(0, popped));
    ResumedLayers(j.policy, c, filter, order);
    ResumedBase(j, c, popped, Level(0, popped), filter, order);
    SameComplete(j, c, popped, Resumed(j.policy, c, filter, order));
    AheadFurther(c, Level(0, popped), Level(0, popped), Resumed(j.policy, c, filter, order));
  }

  lemma ResumedSteady(j: Job, c: Crawl, popped: seq<Entry>, floor: int, filter: set<string>, order: seq<string>)
    requires Base(j, c, popped, floor) && Steady(c) && Elements(order) == c.layers.queue.seen.Keys
    ensures Steady(Resumed(j.policy, c, filter, order))
  {
    hide Base, Resumed, Recency.Keys, SeenSet, Elements;
    BaseIsHeap(j, c, popped, floor);
    ResumedLayers(j.policy, c, filter, order);
  }

  lemma NoHurtSeeds(j: Job, c: Crawl, popped: seq<Entry>)
    requires Turning(j, c, popped) && !Hurt(c, j.maxDepth) && j.maxDepth >= 0
    ensures forall s :: s in j.seeds && j.policy.valid(s) ==> s in c.layers.queue.seen
  {
    hide IsHeap, Bag, HasPath;
  }

  /** Without a path within the limit everything is exact. */
  lemma NegativeExact(j: Job, crawled: seq<Entry>)
    requires j.maxDepth < 0
    ensures Exact(j, crawled)
  {
  }

  /** From a checkpoint before which nothing within the limit was lost. */
  lemma ResumedExact(j: Job, c: Crawl, popped: seq<Entry>, filter: set<string>, order: seq<string>, m: nat)
    requires Turning(j, c, popped) && Steady(c) && !Hurt(c, j.maxDepth) && j.maxDepth >= 0
    requires Elements(order) == c.layers.queue.seen.Keys
    requires Over(j.policy, Turns(j, Restart(j, c, filter, order), m).0)
    ensures var r := Restart(j, c, filter, order);
      var (c', more) := Turns(j, r, m);
      Exact(j, Pages(j, popped) + Pages(j, more)) || Loss(j, c'.layers) || Crowded(j, r, m)
  {
    hide Turning, Steady, Turns, Restart, Over, Loss, Crowded, Exact, Base, Hurt, Elements;
    var r := Restart(j, c, filter, order);
    assert Base(j, c, popped, Level(0, popped)) by { TurningBase(j, c, popped); }
    NoHurtSeeds(j, c, popped);
    RestartResumes(j, c, popped, Level(0, popped), filter, order);
    ResumedTurning(j, c, popped, filter, order);
    ResumedSteady(j, c, popped, Level(0, popped), filter, order);
    assert !Hurt(r, j.maxDepth) by { SameLost(j, c, popped, filter, order); }
    TurningBase(j, r, popped);
    TurnsKeep(j, r, popped, m);
    TurnsAccounted(j, r, popped, Level(0, popped), m);
    var (c', more) := Turns(j, r, m);
    TurningEnds(j, c', popped + more, Crowded(j, r, m));
    PagesConcat(j, popped, more);
  }

  lemma TurningBase(j: Job, c: Crawl, popped: seq<Entry>)
    requires Turning(j, c, popped)
    ensures Base(j, c, popped, Level(0, popped))
  {
  }

  lemma SameLost(j: Job, c: Crawl, popped: seq<Entry>, filter: set<string>, order: seq<string>)
    requires Turning(j, c, popped) && Elements(order) == c.layers.queue.seen.Keys && !Hurt(c, j.maxDepth)
    ensures !Hurt(Resumed(j.policy, c, filter, order), j.maxDepth)
  {
    hide Resumed, Complete, Ahead, Ascending, Base;
    BaseIsHeap(j, c, popped, Level(0, popped));
    ResumedLayers(j.policy, c, filter, order);
  }

  /** The state at the checkpoint. */
  lemma CheckpointState(j: Job, maxSize: int, total: nat, n: nat)
    ensures var c0 := Begin(j, maxSize, total);
      var (c, popped) := Turns(j, c0, n);
      Turning(j, c, popped) && Steady(c) && Accounted(j, c, Crowded(j, c0, n))
  {
    hide Turning, Steady, Turns, Begin, Crowded, Base, Loss, Crowd;
    var c0 := Begin(j, maxSize, total);
    BeginTurning(j, maxSize, total);
    BeginBase(j, maxSize, total);
    BeginAccounted(j, maxSize, total);
    TurnsKeep(j, c0, [], n);
    TurnsAccounted(j, c0, [], 0, n);
    assert [] + Turns(j, c0, n).1 == Turns(j, c0, n).1;
  }

  /** What was crawled up to the checkpoint and what is crawled from it on are together exactly the pages within
      maxDepth hops, each at its distance, unless a cause for a loss showed at the checkpoint, at the end or, as a
      crowd, at the end of a turn. */
  lemma InterruptedExact(j: Job, maxSize: int, total: nat, n: nat, filter: set<string>, order: seq<string>, m: nat)
    requires var c := Turns(j, Begin(j, maxSize, total), n).0;
      Elements(order) == c.layers.queue.seen.Keys && Over(j.policy, Turns(j, Restart(j, c, filter, order), m).0)
    ensures var c0 := Begin(j, maxSize, total);
      var (c, popped) := Turns(j, c0, n);
      var r := Restart(j, c, filter, order);
      var (c', more) := Turns(j, r, m);
      || Exact(j, Pages(j, popped) + Pages(j, more))
      || Loss(j, c.layers) || Crowded(j, c0, n) || Loss(j, c'.layers) || Crowded(j, r, m)
  {
    hide Turning, Steady, Turns, Begin, Restart, Over, Loss, Crowd, Exact, Hurt, Elements;
    var c0 := Begin(j, maxSize, total);
    var (c, popped) := Turns(j, c0, n);
    CheckpointState(j, maxSize, total, n);
    if j.maxDepth < 0 {
      NegativeExact(j, Pages(j, popped) + Pages(j, Turns(j, Restart(j, c, filter, order), m).1));
    } else if !Hurt(c, j.maxDepth) {
      ResumedExact(j, c, popped, filter, order, m);
    } else if Crowd(j, c.layers) {
      assert c == Turns(j, c0, n).0;
    }
  }

  lemma ResumedWithin(j: Job, universe: set<string>, maxSize: int, c: Crawl, popped: seq<Entry>, floor: int,
                      filter: set<string>, order: seq<string>)
    requires Base(j, c, popped, floor) && Within(j, universe, maxSize, c) && filter <= c.layers.added
    requires Elements(order) == c.layers.queue.seen.Keys
    ensures Within(j, universe, maxSize, Resumed(j.policy, c, filter, order))
  {
    hide Base, Resumed, Elements, Assets;
    BaseIsHeap(j, c, popped, floor);
    ResumedLayers(j.policy, c, filter, order);
  }

  lemma NegativePages(j: Job, c: Crawl, popped: seq<Entry>, floor: int)
    requires Base(j, c, popped, floor) && j.maxDepth < 0
    ensures Pages(j, popped) == []
  {
    hide Base;
    if Pages(j, popped) != [] {
      PagesMembers(j, popped, Pages(j, popped)[0]);
      PoppedIsFound(j, c, popped, floor, Pages(j, popped)[0]);
    }
  }

  /** On a lossless site, with a filter no newer than the checkpoint, the two are together exact and sound. */
  lemma InterruptedLossless(j: Job, universe: set<string>, maxSize: int, total: nat, n: nat,
                            filter: set<string>, order: seq<string>, m: nat)
    requires Closed(j, universe) && Lossless(j, universe, maxSize)
    requires var c := Turns(j, Begin(j, maxSize, total), n).0;
      && Elements(order) == c.layers.queue.seen.Keys && filter <= c.layers.added
      && Over(j.policy, Turns(j, Restart(j, c, filter, order), m).0)
    ensures var (c, popped) := Turns(j, Begin(j, maxSize, total), n);
      var crawled := Pages(j, popped) + Pages(j, Turns(j, Restart(j, c, filter, order), m).1);
      Sound(j, crawled) && Exact(j, crawled)
  {
    hide Turning, Steady, Turns, Begin, Restart, Over, Loss, Crowd, Crowded, Exact, Sound, Hurt, Base, Elements,
      Lossless, Closed, Within, Pages;
    var c0 := Begin(j, maxSize, total);
    var (c, popped) := Turns(j, c0, n);
    CheckpointState(j, maxSize, total, n);
    TurningBase(j, c, popped);
    if j.maxDepth < 0 {
      NegativePages(j, c, popped, Level(0, popped));
      InterruptedSoundIff(j, maxSize, total, n, filter, order, m);
      NegativeExact(j, Pages(j, popped) + Pages(j, Turns(j, Restart(j, c, filter, order), m).1));
      return;
    }
    BeginBase(j, maxSize, total);
    BeginWithin(j, universe, maxSize, total);
    BeginAccounted(j, maxSize, total);
    LosslessRun(j, universe, maxSize, c0, [], n);
    LosslessWithin(j, universe, maxSize, c0, [], n);
    assert !Hurt(c, j.maxDepth) by { NotCrowded(j, c0, n); }
    NoHurtSeeds(j, c, popped);
    SeenSeedsSound(j, maxSize, total, n, filter, order, m);
    ResumedExact(j, c, popped, filter, order, m);
    RestartResumes(j, c, popped, Level(0, popped), filter, order);
    ResumedWithin(j, universe, maxSize, c, popped, Level(0, popped), filter, order);
    ResumedSteady(j, c, popped, Level(0, popped), filter, order);
    RestartBase(j, c, popped, Level(0, popped), filter, order);
    LosslessRun(j, universe, maxSize, Restart(j, c, filter, order), popped, m);
  }
}
