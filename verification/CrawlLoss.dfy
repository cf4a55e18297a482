/**
 Why a crawl may miss a page: the causes that its layers show, and that a crawl without
 them is exact.
 */
module CrawlLoss {
  import opened HeapOrder
  import opened CrawlQueue
  import opened Admission
  import opened CrawlRun
  import opened CrawlOrder
  import Recency

  /** The URLs that were ever enqueued. */
  function SeenSet(q: Queue): set<string> {
    set u | u in q.seen && q.seen[u]
  }

  /** u is at the end of a link path within the depth limit. */
  ghost predicate Wanted(j: Job, u: string) {
    exists n :: n <= j.maxDepth && HasPath(j, u, n)
  }

  /** The causes for which a crawl may miss a page, read off the layers it leaves behind: the total limit was reached,
      an enqueued page on a link path within the depth limit is refused, the Bloom filter had a false positive for such
      a page at some time of the run, or it has recorded one that was never enqueued. */
  ghost predicate Loss(j: Job, l: Layers) {
    || TotalReached(j.policy, l)
    || (exists u :: Wanted(j, u) && u in SeenSet(l.queue) && j.site.refused(u))
    || (exists u :: Wanted(j, u) && FalselySeen(j.policy, l.added, u))
    || (exists u :: Wanted(j, u) && u in l.added && u !in SeenSet(l.queue))
  }

  /** The filter reported u while it held some of the added URLs, but not u. */
  ghost predicate FalselySeen(p: Policy, added: set<string>, u: string) {
    exists a :: a <= added && u !in a && p.falsePositive(a, u)
  }

  /** A fifth cause, which passes: the queue holds as many URLs as shouldQueue allows and some page was not enqueued
      yet. */
  ghost predicate Crowd(j: Job, l: Layers) {
    |l.queue.items| >= MAX_QUEUE_SIZE && exists u :: Wanted(j, u) && u !in SeenSet(l.queue)
  }

  /** It was there after seeding or at the end of one of n turns. */
  ghost predicate Crowded(j: Job, c: Crawl, n: nat) {
    exists k: nat :: k <= n && Crowd(j, Turns(j, c, k).0.layers)
  }

  /** Every drop has a cause, which is there to see or, if crowded, has been. */
  ghost predicate Accounted(j: Job, c: Crawl, crowded: bool) {
    Hurt(c, j.maxDepth) ==> Loss(j, c.layers) || Crowd(j, c.layers) || crowded
  }

  // ---------- causes stay ----------

  ghost predicate Later(l: Layers, l': Layers) {
    && l.total <= l'.total && l.added <= l'.added && SeenSet(l.queue) <= SeenSet(l'.queue)
    && SeenSet(l'.queue) * l.added <= SeenSet(l.queue)
  }

  lemma LossStays(j: Job, l: Layers, l': Layers)
    requires Loss(j, l) && Later(l, l')
    ensures Loss(j, l')
  {
    hide SeenSet, Wanted;
    forall u | FalselySeen(j.policy, l.added, u) ensures FalselySeen(j.policy, l'.added, u) {
      var a :| a <= l.added && u !in a && j.policy.falsePositive(a, u);
      assert a <= l'.added;
    }
  }

  /** What ties the dedup layers to the queue. */
  ghost predicate Steady(c: Crawl) {
    && Recency.Keys(c.layers.recent) <= c.layers.added
    && SeenSet(c.layers.queue) == c.found.Keys <= c.layers.added
  }

  lemma RecordSteady(p: Policy, c: Crawl, u: string)
    requires Steady(c)
    ensures var l := Record(p, c.layers, u); Steady(Crawl(l, c.found, c.lost)) && Later(c.layers, l)
  {
    hide Recency.Use, Recency.Keys, SeenSet;
    UseKeys(c.layers.recent, p.recentCapacity, Recency.Item(u, ()));
  }

  lemma PushSteady(p: Policy, c: Crawl, u: string, d: int)
    requires Steady(c) && Admits(c.layers.queue, u) && u !in c.layers.added
    ensures Steady(AfterPush(p, c, u, d)) && Later(c.layers, AfterPush(p, c, u, d).layers)
  {
    hide Recency.Use, Recency.Keys, SiftUp;
    UseKeys(c.layers.recent, p.recentCapacity, Recency.Item(u, ()));
    var q := Push(c.layers.queue, u, d);
    assert SeenSet(q) == SeenSet(c.layers.queue) + {u};
  }

  // ---------- links and seeds ----------

  lemma PathWanted(j: Job, u: string, n: int)
    requires HasPath(j, u, n) && n <= j.maxDepth
    ensures Wanted(j, u)
  {
    hide HasPath;
  }

  /** An eligible URL that shouldQueue refuses although it was never enqueued. */
  lemma TurnedAway(j: Job, c: Crawl, v: string)
    requires Steady(c) && Wanted(j, v) && v !in c.found
    requires Eligible(j.policy, v) && !Accepts(j.policy, c.layers, v)
    ensures Loss(j, c.layers) || Crowd(j, c.layers)
  {
    hide Wanted, SeenSet, Recency.Keys;
    if HasSeen(j.policy, c.layers.added, v) && v !in c.layers.added {
      assert FalselySeen(j.policy, c.layers.added, v);
    }
  }

  /** A link is enqueued, or its loss shows. */
  lemma LinkOneAccounted(j: Job, c: Crawl, u: string, n: int, v: string, crowded: bool)
    requires Steady(c) && Accounted(j, c, crowded) && HasPath(j, u, n) && v in j.site.links(u)
    ensures var c' := LinkOne(j.policy, c, v, n + 1); Steady(c') && Accounted(j, c', crowded)
  {
    hide HasPath, Recency.Keys, SeenSet, Recency.Use, Push, Loss, Wanted;
    var p, l := j.policy, c.layers;
    var c' := LinkOne(p, c, v, n + 1);
    if Eligible(p, v) && n + 1 <= j.maxDepth {
      ExtendPath(j, u, n, v);
      PathWanted(j, v, n + 1);
    }
    if !Accepts(p, l, v) {
      if Eligible(p, v) && n + 1 <= j.maxDepth && v !in c.found {
        TurnedAway(j, c, v);
      }
    } else if Admits(l.queue, v) {
      PushSteady(p, c, v, n + 1);
      if Hurt(c, j.maxDepth) && Loss(j, l) {
        LossStays(j, l, c'.layers);
      }
    } else {
      RecordSteady(p, c, v);
      if Hurt(c, j.maxDepth) && Loss(j, l) {
        LossStays(j, l, c'.layers);
      } else if v !in c.found && n + 1 <= j.maxDepth {
        NeverEnqueued(j, c'.layers, v);
      }
    }
  }

  lemma NeverEnqueued(j: Job, l: Layers, u: string)
    requires Wanted(j, u) && u in l.added && u !in SeenSet(l.queue)
    ensures Loss(j, l)
  {
  }

  lemma {:induction false} LinkAllAccounted(
      j: Job, c: Crawl, u: string, n: int, links: seq<string>, crowded: bool)
    requires Steady(c) && Accounted(j, c, crowded) && HasPath(j, u, n)
    requires forall v :: v in links ==> v in j.site.links(u)
    ensures var c' := LinkAll(j.policy, c, links, n + 1); Steady(c') && Accounted(j, c', crowded)
  {
    hide LinkOne, Steady, Accounted, HasPath;
    if links != [] {
      var k := |links| - 1;
      LinkAllAccounted(j, c, u, n, links[..k], crowded);
      LinkOneAccounted(j, LinkAll(j.policy, c, links[..k], n + 1), u, n, links[k], crowded);
    }
  }

  /** The seeding loop does not look at the size of the queue, so no crowd can keep a seed out unrecorded. */
  lemma SeedOneAccounted(j: Job, c: Crawl, s: string)
    requires Steady(c) && (Hurt(c, j.maxDepth) ==> Loss(j, c.layers)) && s in j.seeds
    ensures var c' := SeedOne(j.policy, c, s); Steady(c') && (Hurt(c', j.maxDepth) ==> Loss(j, c'.layers))
  {
    hide HasPath, Recency.Keys, SeenSet, Recency.Use, Push, Loss, Wanted;
    var p, l := j.policy, c.layers;
    var c' := SeedOne(p, c, s);
    if p.valid(s) && 0 <= j.maxDepth {
      SeedPath(j, s);
      PathWanted(j, s, 0);
    }
    if !p.valid(s) || HasSeen(p, l.added, s) {
      if p.valid(s) && 0 <= j.maxDepth && s !in c.found {
        if s in l.added {
          NeverEnqueued(j, l, s);
        } else {
          assert FalselySeen(p, l.added, s);
          FalseLoss(j, l, s);
        }
      }
    } else if Admits(l.queue, s) {
      PushSteady(p, c, s, 0);
      if Hurt(c, j.maxDepth) {
        LossStays(j, l, c'.layers);
      }
    } else {
      RecordSteady(p, c, s);
      if Hurt(c, j.maxDepth) {
        LossStays(j, l, c'.layers);
      } else if s !in c.found && 0 <= j.maxDepth {
        NeverEnqueued(j, c'.layers, s);
      }
    }
  }

  lemma FalseLoss(j: Job, l: Layers, u: string)
    requires Wanted(j, u) && FalselySeen(j.policy, l.added, u)
    ensures Loss(j, l)
  {
  }

  lemma {:induction false} SeedAllAccounted(j: Job, c: Crawl, some: seq<string>)
    requires Steady(c) && (Hurt(c, j.maxDepth) ==> Loss(j, c.layers)) && forall s :: s in some ==> s in j.seeds
    ensures var c' := SeedAll(j.policy, c, some); Steady(c') && (Hurt(c', j.maxDepth) ==> Loss(j, c'.layers))
  {
    hide SeedOne, Steady, Loss;
    if some != [] {
      var k := |some| - 1;
      SeedAllAccounted(j, c, some[..k]);
      SeedOneAccounted(j, SeedAll(j.policy, c, some[..k]), some[k]);
    }
  }

  // ---------- turns ----------

  lemma PopSeen(q: Queue)
    requires q.items != []
    ensures SeenSet(Pop(q)) == SeenSet(q) && Pop(q).maxSize == q.maxSize && |Pop(q).items| < |q.items|
  {
  }

  /** Popping, counting and capturing a page. */
  lemma CapturedSteady(j: Job, c: Crawl, assets: seq<string>)
    requires Steady(c) && c.layers.queue.items != []
    ensures Steady(PopOne(c)) && Later(c.layers, PopOne(c).layers)
    ensures var c' := Captured(j.policy, PopOne(c), assets); Steady(c') && Later(c.layers, c'.layers)
  {
    hide SeenSet, Recency.Keys;
    PopSeen(c.layers.queue);
    CaptureAdds(j.policy, PopOne(c).layers.(total := c.layers.total + 1), assets);
  }

  /** A turn of the dispatch loop keeps every drop accounted for; a crowd that was there before it has passed. */
  lemma TurnAccounted(j: Job, c: Crawl, popped: seq<Entry>, floor: int, crowded: bool)
    requires Base(j, c, popped, floor) && c.layers.queue.items != [] && Steady(c) && Accounted(j, c, crowded)
    ensures Steady(Turn(j, c)) && Accounted(j, Turn(j, c), crowded || Crowd(j, c.layers))
  {
    hide Base, LinkAll, HasPath, Recency.Keys, SeenSet, Loss, Captured, Steady, Later, Pop, Crowd, Wanted;
    var e := Strip(c.layers.queue.items[0]);
    var crowded' := crowded || Crowd(j, c.layers);
    var c1 := PopOne(c);
    var c2 := Captured(j.policy, c1, j.site.captured(e.url));
    PopBase(j, c, popped, floor);
    CapturedSteady(j, c, j.site.captured(e.url));
    CapturedRest(j.policy, c1, j.site.captured(e.url));
    if Hurt(c, j.maxDepth) && Loss(j, c.layers) {
      LossStays(j, c.layers, c1.layers);
      LossStays(j, c.layers, c2.layers);
    }
    if Visits(j, e) {
      assert Accounted(j, c2, crowded');
      LinkAllAccounted(j, c2, e.url, e.depth, j.site.links(e.url), crowded');
    } else {
      SkipSteady(c1, e.depth);
      if e.depth <= j.maxDepth {
        PathWanted(j, e.url, e.depth);
        RefusedLoss(j, c, e);
        LossStays(j, c.layers, c1.layers);
      }
    }
  }

  lemma SkipSteady(c: Crawl, d: int)
    requires Steady(c)
    ensures Steady(c.(lost := c.lost + [d]))
  {
  }

  lemma RefusedLoss(j: Job, c: Crawl, e: Entry)
    requires Steady(c) && e.url in c.found && Wanted(j, e.url) && j.site.refused(e.url)
    ensures Loss(j, c.layers)
  {
  }

  lemma {:induction false} TurnsAccounted(j: Job, c: Crawl, popped: seq<Entry>, floor: int, n: nat)
    requires Base(j, c, popped, floor) && Steady(c) && Accounted(j, c, false)
    ensures var (c', more) := Turns(j, c, n); Steady(c') && Accounted(j, c', Crowded(j, c, n))
  {
    hide Base, Steady, Turn, Loss, Hurt, Crowd;
    if n > 0 {
      TurnsAccounted(j, c, popped, floor, n - 1);
      TurnsBase(j, c, popped, floor, n - 1);
      var (m, more) := Turns(j, c, n - 1);
      if !Over(j.policy, m) {
        TurnAccounted(j, m, popped + more, Level(floor, more), Crowded(j, c, n - 1));
      }
    }
  }

  lemma FreshSteady(j: Job, maxSize: int, total: nat)
    ensures var c := Fresh(maxSize, total); Steady(c) && !Hurt(c, j.maxDepth)
  {
  }

  lemma BeginAccounted(j: Job, maxSize: int, total: nat)
    ensures var c := Begin(j, maxSize, total); Steady(c) && Accounted(j, c, false)
  {
    hide Steady, Hurt, Loss, SeedAll;
    FreshSteady(j, maxSize, total);
    SeedAllAccounted(j, Fresh(maxSize, total), j.seeds);
  }

  // ---------- the end of a run ----------

  /** At the end of the loop the queue is empty or the total limit is reached. */
  lemma TurningEnds(j: Job, c: Crawl, popped: seq<Entry>, crowded: bool)
    requires Turning(j, c, popped) && Accounted(j, c, crowded) && Over(j.policy, c)
    ensures Exact(j, Pages(j, popped)) || Loss(j, c.layers) || crowded
  {
    hide Turning, Exact, Wanted;
    if c.layers.queue.items == [] && !Hurt(c, j.maxDepth) {
      ResultIsExact(j, c, popped);
    }
  }

  /** The crawl of one process that starts with empty layers. */
  lemma CrawlEnds(j: Job, maxSize: int, total: nat, n: nat)
    requires Over(j.policy, Turns(j, Begin(j, maxSize, total), n).0)
    ensures var c := Begin(j, maxSize, total);
      var (c', popped) := Turns(j, c, n);
      && Sound(j, Pages(j, popped))
      && (Exact(j, Pages(j, popped)) || Loss(j, c'.layers) || Crowded(j, c, n))
  {
    hide Turning, Sound, Exact, Loss, Crowd, Crowded, Turns, SeedAll, Steady, Over;
    var c := Begin(j, maxSize, total);
    BeginTurning(j, maxSize, total);
    BeginAccounted(j, maxSize, total);
    BeginBase(j, maxSize, total);
    TurnsKeep(j, c, [], n);
    TurnsAccounted(j, c, [], 0, n);
    var (c', popped) := Turns(j, c, n);
    assert [] + popped == popped;
    ResultIsSound(j, c', popped);
    TurningEnds(j, c', popped, Crowded(j, c, n));
  }

  // ---------- what the filter holds is out for good ----------

  /** The Bloom filter has recorded u, but it was never enqueued. */
  predicate ShutOut(c: Crawl, u: string) {
    u in c.layers.added && u !in c.found
  }

  lemma {:induction false} LinkAllShutsOut(p: Policy, c: Crawl, links: seq<string>, d: int, u: string)
    requires ShutOut(c, u)
    ensures ShutOut(LinkAll(p, c, links, d), u)
  {
    if links != [] {
      LinkAllShutsOut(p, c, links[..|links| - 1], d, u);
      LinkOneCases(p, LinkAll(p, c, links[..|links| - 1], d), links[|links| - 1], d);
    }
  }

  lemma TurnShutsOut(j: Job, c: Crawl, popped: seq<Entry>, floor: int, u: string)
    requires Base(j, c, popped, floor) && ShutOut(c, u) && c.layers.queue.items != []
    ensures ShutOut(Turn(j, c), u) && Strip(c.layers.queue.items[0]).url != u
  {
    hide Base, LinkAll, Captured, HasPath, Pop;
    var e := Strip(c.layers.queue.items[0]);
    PopBase(j, c, popped, floor);
    if Visits(j, e) {
      var c2 := Captured(j.policy, PopOne(c), j.site.captured(e.url));
      CapturedRest(j.policy, PopOne(c), j.site.captured(e.url));
      LinkAllShutsOut(j.policy, c2, j.site.links(e.url), e.depth + 1, u);
    }
  }

  /** It stays out of the queue through any number of turns, and is crawled in none of them. */
  lemma {:induction false} ShutOutStays(j: Job, c: Crawl, popped: seq<Entry>, floor: int, u: string, n: nat)
    requires Base(j, c, popped, floor) && ShutOut(c, u)
    ensures var (c', more) := Turns(j, c, n); ShutOut(c', u) && forall x :: x in more ==> x.url != u
  {
    hide Base, Turn, ShutOut;
    if n > 0 {
      ShutOutStays(j, c, popped, floor, u, n - 1);
      var (m, more) := Turns(j, c, n - 1);
      if !Over(j.policy, m) {
        TurnsBase(j, c, popped, floor, n - 1);
        TurnShutsOut(j, m, popped + more, Level(floor, more), u);
      }
    }
  }

  // ---------- a site that shows no cause ----------

  /** What the pages' stylesheets name. */
  ghost function Assets(j: Job, universe: set<string>): set<string> {
    set u, v | u in universe && v in j.site.captured(u) :: v
  }

  /** What a caller can check before the crawl: no false positives among the site's URLs, no total limit, no refusals,
      no page among the assets, and a site that fits the queue. */
  ghost predicate Lossless(j: Job, universe: set<string>, maxSize: int) {
    && (forall a, u :: a <= universe + Assets(j, universe) && u in universe && u !in a ==>
          !j.policy.falsePositive(a, u))
    && j.policy.maxTotal <= 0
    && (forall u :: u in universe ==> !j.site.refused(u) && u !in Assets(j, universe))
    && |universe| <= MAX_QUEUE_SIZE <= maxSize
  }

  /** Only pages of the site were enqueued, and what else was recorded are assets. */
  ghost predicate Within(j: Job, universe: set<string>, maxSize: int, c: Crawl) {
    && c.found.Keys <= universe && |c.layers.queue.items| <= |c.found|
    && c.layers.queue.maxSize == maxSize
    && c.layers.added <= c.found.Keys + Assets(j, universe)
  }

  lemma {:induction false} PathsStay(j: Job, universe: set<string>, path: seq<string>)
    requires Closed(j, universe) && IsPath(j, path)
    ensures path[|path| - 1] in universe
    decreases |path|
  {
    var n := |path| - 1;
    if n > 0 {
      assert IsPath(j, path[..n]);
      PathsStay(j, universe, path[..n]);
      assert IsLink(j, path[n - 1], path[n]);
    }
  }

  lemma WantedStays(j: Job, universe: set<string>, u: string)
    requires Closed(j, universe) && Wanted(j, u)
    ensures u in universe
  {
    var n :| n <= j.maxDepth && HasPath(j, u, n);
    var path :| IsPath(j, path) && |path| == n + 1 && path[n] == u;
    PathsStay(j, universe, path);
  }

  lemma OneMoreFits(c: Crawl, universe: set<string>, u: string)
    requires c.found.Keys <= universe && u in universe && u !in c.found
    ensures |c.found| < |universe|
  {
    SubsetSize(c.found.Keys + {u}, universe);
    assert |c.found| == |c.found.Keys|;
  }

  lemma LosslessHasNoLoss(j: Job, universe: set<string>, maxSize: int, c: Crawl)
    requires Closed(j, universe) && Lossless(j, universe, maxSize) && Within(j, universe, maxSize, c) && Steady(c)
    ensures !Loss(j, c.layers) && !Crowd(j, c.layers)
  {
    hide SeenSet, Wanted, Recency.Keys, Assets, Closed;
    forall u | Wanted(j, u) ensures u in universe && !FalselySeen(j.policy, c.layers.added, u) {
      WantedStays(j, universe, u);
    }
    forall u | Wanted(j, u) && u !in SeenSet(c.layers.queue)
      ensures |c.layers.queue.items| < MAX_QUEUE_SIZE && u !in c.layers.added
    {
      OneMoreFits(c, universe, u);
    }
  }

  lemma PushWithin(j: Job, universe: set<string>, maxSize: int, c: Crawl, u: string, d: int)
    requires Within(j, universe, maxSize, c) && |universe| <= maxSize && Steady(c)
    requires u in universe && u !in c.layers.added
    ensures Admits(c.layers.queue, u) && Within(j, universe, maxSize, AfterPush(j.policy, c, u, d))
  {
    hide Recency.Use, Recency.Keys, Assets, Push;
    assert u !in c.found && u !in SeenSet(c.layers.queue);
    OneMoreFits(c, universe, u);
    PushLengths(c.layers.queue, u, d);
    OneMoreKey(c.found, u, d);
  }

  lemma OneMoreKey(m: map<string, int>, u: string, d: int)
    requires u !in m
    ensures m[u := d].Keys == m.Keys + {u} && |m[u := d]| == |m| + 1
  {
  }

  lemma LinkOneWithin(j: Job, universe: set<string>, maxSize: int, c: Crawl, u: string, d: int)
    requires Within(j, universe, maxSize, c) && |universe| <= maxSize && Steady(c) && u in universe
    ensures Within(j, universe, maxSize, LinkOne(j.policy, c, u, d))
  {
    hide Within, Steady, Admits, Record;
    LinkOneCases(j.policy, c, u, d);
    if Accepts(j.policy, c.layers, u) {
      PushWithin(j, universe, maxSize, c, u, d);
    } else {
      SameWithin(j, universe, maxSize, c, LinkOne(j.policy, c, u, d));
    }
  }

  lemma SameWithin(j: Job, universe: set<string>, maxSize: int, c: Crawl, c': Crawl)
    requires Within(j, universe, maxSize, c) && c'.found == c.found && c'.layers == c.layers
    ensures Within(j, universe, maxSize, c')
  {
  }

  lemma SeedOneWithin(j: Job, universe: set<string>, maxSize: int, c: Crawl, u: string)
    requires Within(j, universe, maxSize, c) && |universe| <= maxSize && Steady(c) && u in universe
    ensures Within(j, universe, maxSize, SeedOne(j.policy, c, u))
  {
    hide Within, Steady, Admits, Record;
    SeedOneCases(j.policy, c, u);
    if j.policy.valid(u) && !HasSeen(j.policy, c.layers.added, u) {
      PushWithin(j, universe, maxSize, c, u, 0);
    } else {
      SameWithin(j, universe, maxSize, c, SeedOne(j.policy, c, u));
    }
  }

  lemma {:induction false} LinkAllWithin(
      j: Job, universe: set<string>, maxSize: int, c: Crawl, u: string, n: int, links: seq<string>)
    requires Within(j, universe, maxSize, c) && |universe| <= maxSize && Steady(c)
    requires HasPath(j, u, n) && forall v :: v in links ==> v in universe && v in j.site.links(u)
    ensures Within(j, universe, maxSize, LinkAll(j.policy, c, links, n + 1))
  {
    hide Within, LinkOne, Steady, HasPath;
    if links != [] {
      var k := |links| - 1;
      LinkAllWithin(j, universe, maxSize, c, u, n, links[..k]);
      LinkAllAccounted(j, c, u, n, links[..k], true);
      LinkOneWithin(j, universe, maxSize, LinkAll(j.policy, c, links[..k], n + 1), links[k], n + 1);
    }
  }

  lemma {:induction false} SeedAllWithin(j: Job, universe: set<string>, maxSize: int, c: Crawl, seeds: seq<string>)
    requires Within(j, universe, maxSize, c) && |universe| <= maxSize && Steady(c) && !Hurt(c, j.maxDepth)
    requires forall s :: s in seeds ==> s in universe && s in j.seeds
    ensures Within(j, universe, maxSize, SeedAll(j.policy, c, seeds))
  {
    hide Within, SeedOne, Steady, Hurt;
    if seeds != [] {
      var k := |seeds| - 1;
      SeedAllWithin(j, universe, maxSize, c, seeds[..k]);
      SeedAllAccounted(j, c, seeds[..k]);
      SeedOneWithin(j, universe, maxSize, SeedAll(j.policy, c, seeds[..k]), seeds[k]);
    }
  }

  lemma CapturedWithin(j: Job, universe: set<string>, maxSize: int, c: Crawl, u: string)
    requires Within(j, universe, maxSize, c) && c.layers.queue.items != [] && u in universe
    ensures Within(j, universe, maxSize, PopOne(c))
    ensures Within(j, universe, maxSize, Captured(j.policy, PopOne(c), j.site.captured(u)))
  {
    hide Pop, Elements;
    PopSeen(c.layers.queue);
    CaptureAdds(j.policy, PopOne(c).layers.(total := c.layers.total + 1), j.site.captured(u));
    assert Elements(j.site.captured(u)) <= Assets(j, universe) by { CapturedAssets(j, universe, u); }
  }

  lemma CapturedAssets(j: Job, universe: set<string>, u: string)
    requires u in universe
    ensures Elements(j.site.captured(u)) <= Assets(j, universe)
  {
    forall v | v in Elements(j.site.captured(u)) ensures v in j.site.captured(u) {
      assert exists i :: 0 <= i < |j.site.captured(u)| && j.site.captured(u)[i] == v;
    }
  }

  lemma TurnWithin(j: Job, universe: set<string>, maxSize: int, c: Crawl, popped: seq<Entry>, floor: int)
    requires Base(j, c, popped, floor) && Within(j, universe, maxSize, c) && |universe| <= maxSize && Steady(c)
    requires Closed(j, universe) && c.layers.queue.items != []
    ensures Within(j, universe, maxSize, Turn(j, c))
  {
    hide Base, LinkAll, HasPath, Captured, Steady, Later, Pop;
    var e := Strip(c.layers.queue.items[0]);
    PopBase(j, c, popped, floor);
    CapturedSteady(j, c, j.site.captured(e.url));
    CapturedWithin(j, universe, maxSize, c, e.url);
    if Visits(j, e) {
      LinkAllWithin(j, universe, maxSize, Captured(j.policy, PopOne(c), j.site.captured(e.url)), e.url, e.depth,
                    j.site.links(e.url));
    }
  }

  lemma {:induction false} TurnsWithin(j: Job, universe: set<string>, maxSize: int, c: Crawl, popped: seq<Entry>,
                                       floor: int, n: nat)
    requires Base(j, c, popped, floor) && Within(j, universe, maxSize, c) && |universe| <= maxSize && Steady(c)
    requires Closed(j, universe)
    ensures var (c', more) := Turns(j, c, n); Within(j, universe, maxSize, c') && Steady(c')
  {
    hide Base, Within, Steady, Turn, Closed;
    if n > 0 {
      TurnsWithin(j, universe, maxSize, c, popped, floor, n - 1);
      TurnsBase(j, c, popped, floor, n - 1);
      var (m, more) := Turns(j, c, n - 1);
      if !Over(j.policy, m) {
        TurnWithin(j, universe, maxSize, m, popped + more, Level(floor, more));
        TurnAccounted(j, m, popped + more, Level(floor, more), true);
      }
    }
  }

  /** On a lossless site no cause ever shows. */
  lemma LosslessRun(j: Job, universe: set<string>, maxSize: int, c: Crawl, popped: seq<Entry>, n: nat)
    requires Base(j, c, popped, 0) && Within(j, universe, maxSize, c) && Steady(c)
    requires Closed(j, universe) && Lossless(j, universe, maxSize)
    ensures !Loss(j, Turns(j, c, n).0.layers) && !Crowded(j, c, n)
  {
    hide Base, Within, Steady, Turns, Loss, Crowd, Closed;
    forall k: nat ensures !Loss(j, Turns(j, c, k).0.layers) && !Crowd(j, Turns(j, c, k).0.layers) {
      TurnsWithin(j, universe, maxSize, c, popped, 0, k);
      LosslessHasNoLoss(j, universe, maxSize, Turns(j, c, k).0);
    }
  }

  lemma LosslessWithin(j: Job, universe: set<string>, maxSize: int, c: Crawl, popped: seq<Entry>, n: nat)
    requires Base(j, c, popped, 0) && Within(j, universe, maxSize, c) && Steady(c)
    requires Closed(j, universe) && Lossless(j, universe, maxSize)
    ensures Within(j, universe, maxSize, Turns(j, c, n).0)
  {
    hide Base, Within, Steady, Turns, Closed;
    TurnsWithin(j, universe, maxSize, c, popped, 0, n);
  }

  lemma NotCrowded(j: Job, c: Crawl, n: nat)
    requires !Crowded(j, c, n)
    ensures !Crowd(j, Turns(j, c, n).0.layers)
  {
  }

  lemma FreshWithin(j: Job, universe: set<string>, maxSize: int, total: nat)
    ensures Within(j, universe, maxSize, Fresh(maxSize, total))
  {
  }

  lemma BeginWithin(j: Job, universe: set<string>, maxSize: int, total: nat)
    requires Closed(j, universe) && Lossless(j, universe, maxSize)
    ensures Within(j, universe, maxSize, Begin(j, maxSize, total))
  {
    hide Within, Steady, SeedAll, Hurt;
    FreshSteady(j, maxSize, total);
    FreshWithin(j, universe, maxSize, total);
    SeedAllWithin(j, universe, maxSize, Fresh(maxSize, total), j.seeds);
  }

  /** A crawl from empty layers on a lossless site is exact. */
  lemma LosslessCrawl(j: Job, universe: set<string>, maxSize: int, total: nat, n: nat)
    requires Over(j.policy, Turns(j, Begin(j, maxSize, total), n).0)
    requires Closed(j, universe) && Lossless(j, universe, maxSize)
    ensures Exact(j, Pages(j, Turns(j, Begin(j, maxSize, total), n).1))
  {
    hide Base, Within, Steady, Turns, Loss, Crowded, Begin, Exact, Over, Pages, Sound, Lossless, Closed;
    BeginBase(j, maxSize, total);
    BeginWithin(j, universe, maxSize, total);
    BeginAccounted(j, maxSize, total);
    LosslessRun(j, universe, maxSize, Begin(j, maxSize, total), [], n);
    CrawlEnds(j, maxSize, total, n);
  }
}
