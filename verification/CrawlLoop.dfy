/**
 The crawler of internal/crawler/start.go, internal/crawler/queueing.go and
 internal/crawler/do_crawl.go as an object over the real queue and LRU set, used by one
 worker.  Its loops are proved against the functions of modules Admission and CrawlRun.
 */
module CrawlLoop {
  import opened HeapOrder
  import opened CrawlQueue
  import opened Admission
  import opened CrawlRun
  import opened CrawlLoss
  import opened CrawlResume
  import opened CrawlLimit
  import Recency
  import Lru

  class Crawler {
    const urlQueue: PriorityQueue
    const exactDedup: Lru.Lru<()>
    const policy: Policy
    var added: set<string>
    var total: nat

    ghost predicate Valid()
      reads this, exactDedup, exactDedup.nodes
    {
      exactDedup.Valid() && exactDedup.capacity == policy.recentCapacity
    }

    ghost function Value(): Layers
      reads this, urlQueue, exactDedup
    {
      Layers(urlQueue.Value(), added, exactDedup.recency, total)
    }

    constructor (policy: Policy)
      requires policy.recentCapacity > 0
      ensures Valid() && policy == this.policy
      ensures Value() == Layers(New(DEFAULT_MAX_QUEUE_SIZE), {}, [], 0)
      ensures fresh(urlQueue) && fresh(exactDedup) && fresh(exactDedup.nodes)
    {
      this.policy := policy;
      this.urlQueue := new PriorityQueue(DEFAULT_MAX_QUEUE_SIZE);
      this.exactDedup := new Lru.Lru(policy.recentCapacity, ());
      this.added, this.total := {}, 0;
    }

    /** Both dedup layers record u. */
    method Remember(u: string)
      requires Valid()
      modifies this`added, exactDedup, exactDedup.nodes
      ensures Valid() && Value() == Record(policy, old(Value()), u)
      ensures forall k :: 0 <= k < |exactDedup.nodes| ==>
          exactDedup.nodes[k] in old(exactDedup.nodes) || fresh(exactDedup.nodes[k])
    {
      added := added + {u};
      exactDedup.Add(u, ());
      UnitItem(old(exactDedup.recency), u);
    }

    method ShouldQueue(u: string) returns (yes: bool)
      requires Valid()
      modifies this`added, exactDedup, exactDedup.nodes
      ensures Valid() && (Value(), yes) == Admission.ShouldQueue(policy, old(Value()), u)
      ensures yes ==> (policy.maxTotal <= 0 || total < policy.maxTotal) && |urlQueue.items| < 100000
      ensures forall k :: 0 <= k < |exactDedup.nodes| ==>
          exactDedup.nodes[k] in old(exactDedup.nodes) || fresh(exactDedup.nodes[k])
    {
      hide Recency.Use, Recency.Keys;
      if !policy.valid(u) || !policy.allowed(u) {
        return false;
      }
      if policy.maxTotal > 0 && total >= policy.maxTotal {
        return false;
      }
      if |urlQueue.items| >= MAX_QUEUE_SIZE {
        return false;
      }
      var recent := exactDedup.Contains(u);
      if recent || HasSeen(policy, added, u) {
        return false;
      }
      Remember(u);
      yes := true;
    }

    /** The link loop of doCrawl. */
    method QueueLinks(links: seq<string>, depth: int, ghost c: Crawl)
      requires Valid() && c.layers == Value()
      modifies this`added, urlQueue, exactDedup, exactDedup.nodes
      ensures Valid() && Value() == LinkAll(policy, c, links, depth).layers
      ensures forall k :: 0 <= k < |exactDedup.nodes| ==>
          exactDedup.nodes[k] in old(exactDedup.nodes) || fresh(exactDedup.nodes[k])
    {
      hide Accepts, Record, Apply, LinkOne;
      for i := 0 to |links|
        invariant Valid() && Value() == LinkAll(policy, c, links[..i], depth).layers
        invariant forall k :: 0 <= k < |exactDedup.nodes| ==>
            exactDedup.nodes[k] in old(exactDedup.nodes) || fresh(exactDedup.nodes[k])
      {
        assert links[..i + 1][..i] == links[..i];
        LinkOneLayers(policy, LinkAll(policy, c, links[..i], depth), links[i], depth);
        var yes := ShouldQueue(links[i]);
        if yes {
          var _ := urlQueue.PushURL(links[i], depth);
        }
      }
      assert links[..|links|] == links;
    }

    /** Page capture fetches what the page's stylesheets name. */
    method CaptureAssets(assets: seq<string>)
      modifies this`added
      ensures Value() == CaptureAll(policy, old(Value()), assets)
    {
      for i := 0 to |assets|
        invariant Value() == CaptureAll(policy, old(Value()), assets[..i])
      {
        assert assets[..i + 1][..i] == assets[..i];
        if policy.valid(assets[i]) && !HasSeen(policy, added, assets[i]) {
          added := added + {assets[i]};
        }
      }
      assert assets[..|assets|] == assets;
    }

    /** The seeding loop of Start. */
    method SeedURLs(seeds: seq<string>, ghost c: Crawl)
      requires Valid() && c.layers == Value()
      modifies this`added, urlQueue, exactDedup, exactDedup.nodes
      ensures Valid() && Value() == SeedAll(policy, c, seeds).layers
      ensures forall k :: 0 <= k < |exactDedup.nodes| ==>
          exactDedup.nodes[k] in old(exactDedup.nodes) || fresh(exactDedup.nodes[k])
    {
      hide Record, Apply;
      for i := 0 to |seeds|
        invariant Valid() && Value() == SeedAll(policy, c, seeds[..i]).layers
        invariant forall k :: 0 <= k < |exactDedup.nodes| ==>
            exactDedup.nodes[k] in old(exactDedup.nodes) || fresh(exactDedup.nodes[k])
      {
        assert seeds[..i + 1][..i] == seeds[..i];
        if policy.valid(seeds[i]) && !HasSeen(policy, added, seeds[i]) {
          Remember(seeds[i]);
          var _ := urlQueue.PushURL(seeds[i], 0);
        }
      }
      assert seeds[..|seeds|] == seeds;
    }

    /** A page is counted and captured, and its links are queued. */
    method DoCrawl(site: Site, url: string, depth: int, ghost c: Crawl)
      requires Valid() && c.layers == Value()
      modifies this, urlQueue, exactDedup, exactDedup.nodes
      ensures Valid()
      ensures Value() ==
        LinkAll(policy, Captured(policy, c, site.captured(url)), site.links(url), depth + 1).layers
      ensures forall k :: 0 <= k < |exactDedup.nodes| ==>
          exactDedup.nodes[k] in old(exactDedup.nodes) || fresh(exactDedup.nodes[k])
    {
      hide LinkAll, CaptureAll, Lru.Lru.Valid;
      total := total + 1;
      CaptureAssets(site.captured(url));
      QueueLinks(site.links(url), depth + 1, Captured(policy, c, site.captured(url)));
    }

    /** Checkpoint rehydration: reload the queue, then record every visited URL in both dedup layers. */
    method ResumeFrom(items: seq<URLItem>, visited: map<string, bool>) returns (ghost order: seq<string>)
      requires Valid()
      modifies this`added, urlQueue, exactDedup, exactDedup.nodes
      ensures Valid() && Possible(Resume(old(added), items, visited, order))
      ensures Value() == Rehydrate(policy, old(Value()).(queue := Load(items, visited, old(urlQueue.maxSize))), order)
      ensures old(exactDedup.recency == [] && total == 0) ==>
        Value() == Step(policy, old(Value()), Resume(old(added), items, visited, order))
      ensures forall k :: 0 <= k < |exactDedup.nodes| ==>
          exactDedup.nodes[k] in old(exactDedup.nodes) || fresh(exactDedup.nodes[k])
    {
      hide Record, Load;
      urlQueue.LoadFromCheckpoint(items, visited);
      ghost var start := Value();
      order := [];
      var rest := visited.Keys;
      while rest != {}
        invariant rest <= visited.Keys && Valid() && Value() == Rehydrate(policy, start, order)
        invariant Elements(order) == visited.Keys - rest
        invariant forall k :: 0 <= k < |exactDedup.nodes| ==>
            exactDedup.nodes[k] in old(exactDedup.nodes) || fresh(exactDedup.nodes[k])
        decreases rest
      {
        var u :| u in rest;
        Remember(u);
        assert (order + [u])[..|order|] == order;
        NextElement(order, u);
        order := order + [u];
        rest := rest - {u};
      }
    }

    /** The dispatch loop, from any state that the invariant of a process allows: it ends, after as many turns as the
        loop on values, with the same pages. */
    method Dispatch(j: Job, ghost c0: Crawl, ghost popped0: seq<Entry>, ghost floor: int, ghost universe: set<string>)
      returns (crawled: seq<Entry>, ghost turns: nat)
      requires Valid() && Value() == c0.layers && j.policy == policy
      requires Base(j, c0, popped0, floor) && Closed(j, universe) && c0.found.Keys <= universe
      modifies this, urlQueue, exactDedup, exactDedup.nodes
      ensures var (c, popped) := Turns(j, c0, turns);
        Valid() && Value() == c.layers && Over(j.policy, c) && crawled == Pages(j, popped)
      ensures total == old(total) + |crawled|
      ensures urlQueue.items != [] ==> 0 < policy.maxTotal <= old(total) + |crawled|
      ensures 0 < policy.maxTotal && old(total) <= policy.maxTotal ==> old(total) + |crawled| <= policy.maxTotal
    {
      hide Base, Measure, Turn, LinkAll, Captured, Closed, Pop, Pages, Lru.Lru.Valid;
      ghost var c := c0;
      ghost var popped: seq<Entry> := [];
      crawled, turns := [], 0;
      NoPages(j);
      while true
        invariant (c, popped) == Turns(j, c0, turns) && crawled == Pages(j, popped)
        invariant Valid() && Value() == c.layers && c.found.Keys <= universe
        invariant forall k :: 0 <= k < |exactDedup.nodes| ==>
            exactDedup.nodes[k] in old(exactDedup.nodes) || fresh(exactDedup.nodes[k])
        decreases Measure(c, universe)
      {
        if policy.maxTotal > 0 && total >= policy.maxTotal {
          break;
        }
        var item, ok := urlQueue.PopURL();
        if !ok {
          break;
        }
        ghost var e := Strip(c.layers.queue.items[0]);
        TurnFacts(j, c0, popped0, floor, universe, turns);
        if item.depth <= j.maxDepth && !j.site.refused(item.url) {
          crawled := crawled + [Entry(item.url, item.depth)];
          DoCrawl(j.site, item.url, item.depth, PopOne(c));
        }
        c, popped, turns := Turn(j, c), popped + [e], turns + 1;
      }
      LimitFacts(j, c0, turns);
    }

    /** A crawl from fresh layers.  Whatever is dropped, refused or cut short: crawled depths never
        decrease, no URL is crawled twice, and every crawled depth is the length of a link path from a
        seed.  Exactly the pages within maxDepth hops were crawled, each at its shortest distance, unless
        a cause for a loss shows; and on a lossless site there is none. */
    method Crawl(j: Job, ghost universe: set<string>) returns (crawled: seq<Entry>, ghost turns: nat)
      requires Valid() && Value() == Fresh(urlQueue.maxSize, total).layers && j.policy == policy
      requires Closed(j, universe)
      modifies this, urlQueue, exactDedup, exactDedup.nodes
      ensures Sound(j, crawled)
      ensures Exact(j, crawled) || Loss(j, Value()) || Crowded(j, old(Begin(j, urlQueue.maxSize, total)), turns)
      ensures Lossless(j, universe, old(urlQueue.maxSize)) ==> Exact(j, crawled)
      ensures urlQueue.items != [] ==> 0 < policy.maxTotal <= old(total) + |crawled|
      ensures 0 < policy.maxTotal && old(total) <= policy.maxTotal ==> old(total) + |crawled| <= policy.maxTotal
      ensures var (c, popped) := Turns(j, old(Begin(j, urlQueue.maxSize, total)), turns);
        Value() == c.layers && Over(policy, c) && crawled == Pages(j, popped)
    {
      hide Base, SeedAll, Sound, Exact, Lossless, Loss, Crowded, Turns, Closed, Over, Lru.Lru.Valid;
      ghost var maxSize, total0 := urlQueue.maxSize, total;
      BeginBase(j, maxSize, total0);
      SeedsStay(j, maxSize, total0, universe);
      SeedURLs(j.seeds, Fresh(maxSize, total0));
      crawled, turns := Dispatch(j, Begin(j, maxSize, total0), [], 0, universe);
      CrawlEnds(j, maxSize, total0, turns);
      if Lossless(j, universe, maxSize) {
        LosslessCrawl(j, universe, maxSize, total0, turns);
      }
    }

    /** A crawl from the checkpoint of an earlier one, with the Bloom filter that was loaded from its file, if any.  The
        laws of CrawlResume speak about the pages it crawls. */
    method ResumeCrawl(j: Job, items: seq<URLItem>, visited: map<string, bool>,
                       ghost c: Crawl, ghost popped0: seq<Entry>, ghost floor: int, ghost universe: set<string>)
      returns (crawled: seq<Entry>, ghost order: seq<string>, ghost turns: nat)
      requires Valid() && Value() == Layers(New(urlQueue.maxSize), added, [], 0) && j.policy == policy
      requires c.layers.queue == Queue(items, visited, urlQueue.maxSize)
      requires Base(j, c, popped0, floor) && Closed(j, universe) && c.found.Keys <= universe
      modifies this, urlQueue, exactDedup, exactDedup.nodes
      ensures Elements(order) == visited.Keys
      ensures var (c', popped) := Turns(j, Restart(j, c, old(added), order), turns);
        Value() == c'.layers && Over(policy, c') && crawled == Pages(j, popped)
      ensures urlQueue.items != [] ==> 0 < policy.maxTotal <= |crawled|
      ensures 0 < policy.maxTotal ==> |crawled| <= policy.maxTotal
    {
      hide Base, SeedAll, Resumed, Turns, Closed, Over, Elements, Lru.Lru.Valid;
      ghost var filter := added;
      order := ResumeFrom(items, visited);
      ghost var r := Resumed(policy, c, filter, order);
      ResumedStep(policy, c, filter, order, old(Value()));
      RestartBase(j, c, popped0, floor, filter, order);
      RestartStays(j, c, popped0, floor, filter, order, universe);
      SeedURLs(j.seeds, r);
      crawled, turns := Dispatch(j, Restart(j, c, filter, order), popped0, 0, universe);
    }
  }

  lemma ResumedStep(p: Policy, c: Crawl, filter: set<string>, order: seq<string>, l: Layers)
    requires l.queue.maxSize == c.layers.queue.maxSize
    ensures Resumed(p, c, filter, order).layers ==
      Step(p, l, Resume(filter, c.layers.queue.items, c.layers.queue.seen, order))
  {
  }

  lemma SeedsStay(j: Job, maxSize: int, total: nat, universe: set<string>)
    requires Closed(j, universe)
    ensures Begin(j, maxSize, total).found.Keys <= universe
  {
    SeedAllStays(j.policy, Fresh(maxSize, total), j.seeds, universe);
  }

  lemma RestartStays(j: Job, c: Crawl, popped: seq<Entry>, floor: int, filter: set<string>, order: seq<string>,
                     universe: set<string>)
    requires Base(j, c, popped, floor) && Elements(order) == c.layers.queue.seen.Keys
    requires Closed(j, universe) && c.found.Keys <= universe
    ensures Restart(j, c, filter, order).found.Keys <= universe
  {
    hide Base, Resumed, SeedAll, Elements;
    BaseIsHeap(j, c, popped, floor);
    ResumedLayers(j.policy, c, filter, order);
    SeedAllStays(j.policy, Resumed(j.policy, c, filter, order), j.seeds, universe);
  }

  /** What the next turn does, and that it brings the end nearer. */
  lemma TurnFacts(j: Job, c0: Crawl, popped0: seq<Entry>, floor: int, universe: set<string>, n: nat)
    requires Base(j, c0, popped0, floor) && Closed(j, universe)
    requires var c := Turns(j, c0, n).0; c.found.Keys <= universe && !Over(j.policy, c)
    ensures var (c, popped) := Turns(j, c0, n);
      var e := Strip(c.layers.queue.items[0]);
      && Turns(j, c0, n + 1) == (Turn(j, c), popped + [e])
      && Turn(j, c).found.Keys <= universe
      && 0 <= Measure(c, universe) && Measure(Turn(j, c), universe) < Measure(c, universe)
      && Pages(j, popped + [e]) == (if Visits(j, e) then Pages(j, popped) + [e] else Pages(j, popped))
      && Turn(j, c).layers ==
           var c1 := PopOne(c);
           if !Visits(j, e) then c1.layers
           else
             var c2 := Captured(j.policy, c1, j.site.captured(e.url));
             LinkAll(j.policy, c2, j.site.links(e.url), e.depth + 1).layers
  {
    hide Base, Measure, Turn, LinkAll, Captured, Closed, Pop, Ascending, Pages;
    var (c, popped) := Turns(j, c0, n);
    TurnsBase(j, c0, popped0, floor, n);
    MeasurePositive(c, universe);
    TurnShrinks(j, c, popped0 + popped, Level(floor, popped), universe);
    TurnCases(j, c);
    PagesNext(j, popped, Strip(c.layers.queue.items[0]));
  }

  lemma NoPages(j: Job)
    ensures Pages(j, []) == []
  {
  }

  lemma LimitFacts(j: Job, c: Crawl, n: nat)
    requires Over(j.policy, Turns(j, c, n).0)
    ensures var (c', more) := Turns(j, c, n);
      var reached := c.layers.total + |Pages(j, more)|;
      && c'.layers.total == reached
      && (c'.layers.queue.items != [] ==> 0 < j.policy.maxTotal <= reached)
      && (0 < j.policy.maxTotal && c.layers.total <= j.policy.maxTotal ==> reached <= j.policy.maxTotal)
  {
    hide Turns, Pages;
    TotalCounts(j, c, n);
    EndsIff(j, c, n);
    if 0 < j.policy.maxTotal && c.layers.total <= j.policy.maxTotal {
      LimitHolds(j, c, n);
    }
  }

  lemma TurnCases(j: Job, c: Crawl)
    requires c.layers.queue.items != []
    ensures var e := Strip(c.layers.queue.items[0]);
      var c1 := PopOne(c);
      Turn(j, c).layers ==
        if !Visits(j, e) then c1.layers
        else LinkAll(j.policy, Captured(j.policy, c1, j.site.captured(e.url)), j.site.links(e.url), e.depth + 1).layers
  {
  }

  lemma LinkOneLayers(p: Policy, c: Crawl, u: string, d: int)
    ensures LinkOne(p, c, u, d).layers ==
      var (l, yes) := Admission.ShouldQueue(p, c.layers, u);
      if yes then Enqueue(l, u, d) else l
  {
  }

  lemma UnitItem(s: seq<Recency.Item<()>>, k: string)
    ensures k in Recency.Keys(s) ==> s[Recency.Find(s, k)] == Recency.Item(k, ())
  {
    if k in Recency.Keys(s) {
      var v: () := s[Recency.Find(s, k)].value;
      match v
      case () =>
    }
  }
}
