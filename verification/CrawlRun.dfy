/**
 A one-worker crawl over a fixed site: seeding, the dispatch loop and the work on one
 page (internal/crawler/start.go, internal/crawler/do_crawl.go and
 internal/crawler/capture.go), on top of the admission layers and the depth-ordered queue.

 Pages can be refused between the queue and the browser (host caps, robots rules,
 rate limits, an open breaker), links can be dropped by the admission layers, stylesheet
 assets recorded in the Bloom filter can hide pages, and the total limit can end the run
 early.  What is proved here holds regardless, in a new process and in a resumed one.
 */
module CrawlRun {
  import opened HeapOrder
  import opened CrawlQueue
  import opened Admission
  import Recency

  datatype Site = Site(
    links: string -> seq<string>,      // the normalized links of each page
    captured: string -> seq<string>,   // the URLs in its stylesheets, which page capture fetches
    refused: string -> bool)           // pages that the dispatcher refuses

  datatype Job = Job(policy: Policy, site: Site, seeds: seq<string>, maxDepth: int)

  /** A crawl in progress: the layers, every URL enqueued so far with its depth, and the depths at which an
      eligible URL was lost. */
  datatype Crawl = Crawl(layers: Layers, found: map<string, int>, lost: seq<int>)

  /** A URL within the depth limit was lost. */
  ghost predicate Hurt(c: Crawl, maxDepth: int) {
    exists i :: 0 <= i < |c.lost| && c.lost[i] <= maxDepth
  }

  // ---------- link paths ----------

  predicate Eligible(p: Policy, u: string) {
    p.valid(u) && p.allowed(u)
  }

  predicate IsLink(j: Job, u: string, v: string) {
    v in j.site.links(u) && Eligible(j.policy, v)
  }

  /** A link path from a seed: consecutive pages are linked and every linked page is eligible. */
  ghost predicate IsPath(j: Job, path: seq<string>) {
    && path != [] && path[0] in j.seeds && j.policy.valid(path[0])
    && forall i :: 0 < i < |path| ==> IsLink(j, path[i - 1], path[i])
  }

  ghost predicate HasPath(j: Job, u: string, n: int) {
    exists path :: IsPath(j, path) && |path| == n + 1 && path[n] == u
  }

  lemma ExtendPath(j: Job, u: string, n: int, v: string)
    requires HasPath(j, u, n) && IsLink(j, u, v)
    ensures HasPath(j, v, n + 1)
  {
    var path :| IsPath(j, path) && |path| == n + 1 && path[n] == u;
    var longer := path + [v];
    forall i | 0 < i < |longer| ensures IsLink(j, longer[i - 1], longer[i]) {
      if i < |path| {
        assert IsLink(j, path[i - 1], path[i]);
      }
    }
    assert IsPath(j, longer);
  }

  lemma SeedPath(j: Job, s: string)
    requires s in j.seeds && j.policy.valid(s)
    ensures HasPath(j, s, 0)
  {
    assert IsPath(j, [s]) && [s][0] == s;
  }

  // ---------- the steps ----------

  /** shouldQueue and PushURL for one link. */
  function LinkOne(p: Policy, c: Crawl, u: string, d: int): Crawl {
    var pushed := Accepts(p, c.layers, u) && Admits(c.layers.queue, u);
    Crawl(Step(p, c.layers, Link(u, d)),
          if pushed then c.found[u := d] else c.found,
          if Eligible(p, u) && u !in c.found && !pushed then c.lost + [d] else c.lost)
  }

  function LinkAll(p: Policy, c: Crawl, links: seq<string>, d: int): Crawl {
    if links == [] then c else LinkOne(p, LinkAll(p, c, links[..|links| - 1], d), links[|links| - 1], d)
  }

  function SeedOne(p: Policy, c: Crawl, u: string): Crawl {
    var pushed := p.valid(u) && !HasSeen(p, c.layers.added, u) && Admits(c.layers.queue, u);
    Crawl(Step(p, c.layers, Seed(u)),
          if pushed then c.found[u := 0] else c.found,
          if p.valid(u) && u !in c.found && !pushed then c.lost + [0] else c.lost)
  }

  function SeedAll(p: Policy, c: Crawl, seeds: seq<string>): Crawl {
    if seeds == [] then c else SeedOne(p, SeedAll(p, c, seeds[..|seeds| - 1]), seeds[|seeds| - 1])
  }

  function PopOne(c: Crawl): Crawl
    requires c.layers.queue.items != []
  {
    c.(layers := c.layers.(queue := Pop(c.layers.queue)))
  }

  /** Page capture records the assets that it has not seen in the Bloom filter, and nowhere else. */
  function CaptureAll(p: Policy, l: Layers, assets: seq<string>): Layers {
    if assets == [] then l
    else
      var m := CaptureAll(p, l, assets[..|assets| - 1]);
      var u := assets[|assets| - 1];
      if p.valid(u) && !HasSeen(p, m.added, u) then Step(p, m, AddOnly(u)) else m
  }

  /** The page is counted and captured. */
  function Captured(p: Policy, c: Crawl, assets: seq<string>): Crawl {
    c.(layers := CaptureAll(p, c.layers.(total := c.layers.total + 1), assets))
  }

  predicate Visits(j: Job, e: Entry) {
    e.depth <= j.maxDepth && !j.site.refused(e.url)
  }

  /** One popped item: skipped, refused, or crawled and its links queued. */
  function Turn(j: Job, c: Crawl): Crawl
    requires c.layers.queue.items != []
  {
    var e := Strip(c.layers.queue.items[0]);
    var c1 := PopOne(c);
    if e.depth > j.maxDepth then c1
    else if j.site.refused(e.url) then c1.(lost := c1.lost + [e.depth])
    else LinkAll(j.policy, Captured(j.policy, c1, j.site.captured(e.url)), j.site.links(e.url), e.depth + 1)
  }

  /** The loop ends here. */
  predicate Over(p: Policy, c: Crawl) {
    c.layers.queue.items == [] || TotalReached(p, c.layers)
  }

  /** At most n turns of the dispatch loop, and what they pop. */
  function Turns(j: Job, c: Crawl, n: nat): (Crawl, seq<Entry>) {
    if n == 0 then (c, [])
    else
      var (m, popped) := Turns(j, c, n - 1);
      if Over(j.policy, m) then (m, popped) else (Turn(j, m), popped + [Strip(m.layers.queue.items[0])])
  }

  /** The pages crawled among the popped items. */
  function Pages(j: Job, popped: seq<Entry>): seq<Entry> {
    if popped == [] then []
    else
      var e := popped[|popped| - 1];
      Pages(j, popped[..|popped| - 1]) + if Visits(j, e) then [e] else []
  }

  function Fresh(maxSize: int, total: nat): Crawl {
    Crawl(Layers(New(maxSize), {}, [], total), map[], [])
  }

  /** Seeding a new process. */
  function Begin(j: Job, maxSize: int, total: nat): Crawl {
    SeedAll(j.policy, Fresh(maxSize, total), j.seeds)
  }

  // ---------- the invariant of every process ----------

  /** The queue is a heap of found URLs, each once; exactly the found URLs are seen, and all of them are in the
      Bloom filter. */
  ghost predicate Tracked(c: Crawl) {
    var q := c.layers.queue;
    && IsHeap(q.items)
    && (forall e :: e in Bag(q.items) ==> e.url in c.found && c.found[e.url] == e.depth && Bag(q.items)[e] == 1)
    && (forall u :: Seen(q, u) <==> u in c.found) && q.seen.Keys == c.found.Keys
    && c.found.Keys <= c.layers.added
  }

  ghost predicate Rooted(j: Job, c: Crawl) {
    forall u :: u in c.found ==> 0 <= c.found[u] && HasPath(j, u, c.found[u])
  }

  /** Every found URL was popped or is held, never both, and none was popped twice. */
  ghost predicate Split(c: Crawl, popped: seq<Entry>) {
    && (forall i :: 0 <= i < |popped| ==>
          && popped[i].url in c.found && c.found[popped[i].url] == popped[i].depth
          && popped[i] !in Bag(c.layers.queue.items))
    && (forall i, k :: 0 <= i < k < |popped| ==> popped[i].url != popped[k].url)
    && (forall u :: u in c.found ==>
          Entry(u, c.found[u]) in popped || Entry(u, c.found[u]) in Bag(c.layers.queue.items))
  }

  ghost predicate Floor(c: Crawl, floor: int) {
    forall e :: e in Bag(c.layers.queue.items) ==> e.depth >= floor
  }

  /** What holds after any turns, popped being all that this process and the ones it continues have popped. */
  ghost predicate Base(j: Job, c: Crawl, popped: seq<Entry>, floor: int) {
    Tracked(c) && Rooted(j, c) && Split(c, popped) && Floor(c, floor)
  }

  // ---------- pushes ----------

  /** The crawl after u was recorded and pushed at depth d. */
  function AfterPush(p: Policy, c: Crawl, u: string, d: int): Crawl
    requires Admits(c.layers.queue, u)
  {
    Crawl(Record(p, c.layers, u).(queue := Push(c.layers.queue, u, d)), c.found[u := d], c.lost)
  }

  /** Nothing was pushed. */
  ghost predicate Unpushed(c: Crawl, c': Crawl) {
    && c'.layers.queue == c.layers.queue && c'.found == c.found
    && c.layers.added <= c'.layers.added && c.lost <= c'.lost
  }

  lemma LinkOneCases(p: Policy, c: Crawl, u: string, d: int)
    ensures var c' := LinkOne(p, c, u, d);
      if Accepts(p, c.layers, u) && Admits(c.layers.queue, u) then c' == AfterPush(p, c, u, d) else Unpushed(c, c')
  {
  }

  lemma SeedOneCases(p: Policy, c: Crawl, u: string)
    ensures var c' := SeedOne(p, c, u);
      if p.valid(u) && !HasSeen(p, c.layers.added, u) && Admits(c.layers.queue, u) then c' == AfterPush(p, c, u, 0)
      else Unpushed(c, c')
  {
  }

  lemma PushTracked(p: Policy, c: Crawl, u: string, d: int)
    requires Tracked(c) && Admits(c.layers.queue, u)
    ensures Tracked(AfterPush(p, c, u, d)) && u !in c.found
  {
    hide IsHeap, Bag;
    var q := c.layers.queue;
    PushKeeps(q, u, d);
    var q' := Push(q, u, d);
    assert u !in c.found;
    forall e | e in Bag(q'.items)
      ensures e.url in c.found[u := d] && c.found[u := d][e.url] == e.depth && Bag(q'.items)[e] == 1
    {
      if e != Entry(u, d) {
        assert e in Bag(q.items);
      } else {
        assert Entry(u, d) !in Bag(q.items);
      }
    }
  }

  lemma PushSplit(c: Crawl, popped: seq<Entry>, u: string, d: int, c': Crawl)
    requires Split(c, popped) && u !in c.found
    requires Bag(c'.layers.queue.items) == Bag(c.layers.queue.items) + multiset{Entry(u, d)}
    requires c'.found == c.found[u := d]
    ensures Split(c', popped)
  {
  }

  lemma PathLength(j: Job, u: string, n: int)
    requires HasPath(j, u, n)
    ensures n >= 0
  {
  }

  lemma PushBase(j: Job, c: Crawl, popped: seq<Entry>, floor: int, u: string, d: int)
    requires Base(j, c, popped, floor) && Admits(c.layers.queue, u)
    requires floor <= d && HasPath(j, u, d)
    ensures Base(j, AfterPush(j.policy, c, u, d), popped, floor) && u !in c.found
  {
    hide IsHeap, Bag, HasPath, Push, Split;
    PushTracked(j.policy, c, u, d);
    PushKeeps(c.layers.queue, u, d);
    PushSplit(c, popped, u, d, AfterPush(j.policy, c, u, d));
    PathLength(j, u, d);
  }

  lemma SameBase(j: Job, c: Crawl, popped: seq<Entry>, floor: int, c': Crawl)
    requires Base(j, c, popped, floor) && Unpushed(c, c')
    ensures Base(j, c', popped, floor)
  {
    hide IsHeap, Bag, HasPath;
  }

  /** What queueing URLs does: found URLs stay found, lost ones lost. */
  ghost predicate Grows(c: Crawl, c': Crawl) {
    && (forall u :: u in c.found ==> u in c'.found && c'.found[u] == c.found[u])
    && c.lost <= c'.lost
  }

  lemma LinkOneBase(j: Job, c: Crawl, popped: seq<Entry>, floor: int, u: string, n: int, v: string)
    requires Base(j, c, popped, floor) && HasPath(j, u, n) && floor <= n + 1 && v in j.site.links(u)
    ensures var c' := LinkOne(j.policy, c, v, n + 1); Base(j, c', popped, floor) && Grows(c, c')
  {
    hide Base, HasPath, LinkOne, HasSeen, Admits;
    LinkOneCases(j.policy, c, v, n + 1);
    if Accepts(j.policy, c.layers, v) && Admits(c.layers.queue, v) {
      ExtendPath(j, u, n, v);
      PushBase(j, c, popped, floor, v, n + 1);
    } else {
      SameBase(j, c, popped, floor, LinkOne(j.policy, c, v, n + 1));
    }
  }

  lemma {:induction false} LinkAllBase(
      j: Job, c: Crawl, popped: seq<Entry>, floor: int, u: string, n: int, links: seq<string>)
    requires Base(j, c, popped, floor) && HasPath(j, u, n) && floor <= n + 1
    requires forall v :: v in links ==> v in j.site.links(u)
    ensures var c' := LinkAll(j.policy, c, links, n + 1); Base(j, c', popped, floor) && Grows(c, c')
  {
    hide Base, HasPath, LinkOne;
    if links != [] {
      var k := |links| - 1;
      LinkAllBase(j, c, popped, floor, u, n, links[..k]);
      LinkOneBase(j, LinkAll(j.policy, c, links[..k], n + 1), popped, floor, u, n, links[k]);
    }
  }

  lemma SeedOneBase(j: Job, c: Crawl, popped: seq<Entry>, s: string)
    requires Base(j, c, popped, 0) && s in j.seeds
    ensures var c' := SeedOne(j.policy, c, s); Base(j, c', popped, 0) && Grows(c, c')
  {
    hide Base, HasPath, SeedOne, HasSeen, Admits;
    SeedOneCases(j.policy, c, s);
    if j.policy.valid(s) && !HasSeen(j.policy, c.layers.added, s) && Admits(c.layers.queue, s) {
      SeedPath(j, s);
      PushBase(j, c, popped, 0, s, 0);
    } else {
      SameBase(j, c, popped, 0, SeedOne(j.policy, c, s));
    }
  }

  lemma {:induction false} SeedAllBase(j: Job, c: Crawl, popped: seq<Entry>, some: seq<string>)
    requires Base(j, c, popped, 0) && forall s :: s in some ==> s in j.seeds
    ensures var c' := SeedAll(j.policy, c, some); Base(j, c', popped, 0) && Grows(c, c')
  {
    hide Base, SeedOne;
    if some != [] {
      var k := |some| - 1;
      SeedAllBase(j, c, popped, some[..k]);
      SeedOneBase(j, SeedAll(j.policy, c, some[..k]), popped, some[k]);
    }
  }

  /** Capture touches nothing but the Bloom filter. */
  lemma {:induction false} CaptureAdds(p: Policy, l: Layers, assets: seq<string>)
    ensures var l' := CaptureAll(p, l, assets);
      && l' == l.(added := l'.added)
      && l.added <= l'.added <= l.added + Elements(assets)
  {
    hide Elements;
    if assets == [] {
      NoElements();
    } else {
      var k := |assets| - 1;
      CaptureAdds(p, l, assets[..k]);
      NextElement(assets[..k], assets[k]);
      assert assets[..k] + [assets[k]] == assets;
    }
  }

  /** It records only valid URLs, and every valid asset unless the filter reported it falsely. */
  lemma {:induction false} CaptureRecords(p: Policy, l: Layers, assets: seq<string>, u: string)
    ensures var added := CaptureAll(p, l, assets).added;
      && (u in added && u !in l.added ==> u in assets && p.valid(u))
      && (u in assets && p.valid(u) && u !in added ==>
            exists a :: l.added <= a <= added && u !in a && p.falsePositive(a, u))
  {
    if assets != [] {
      var k := |assets| - 1;
      CaptureRecords(p, l, assets[..k], u);
      CaptureAdds(p, l, assets[..k]);
      assert u in assets <==> u in assets[..k] || u == assets[k];
    }
  }

  lemma CapturedRest(p: Policy, c: Crawl, assets: seq<string>)
    ensures var c' := Captured(p, c, assets);
      Unpushed(c, c') && c'.lost == c.lost && c'.layers.total == c.layers.total + 1
  {
    CaptureAdds(p, c.layers.(total := c.layers.total + 1), assets);
  }

  // ---------- pops ----------

  /** The root of the queue's heap, and what popping it leaves. */
  lemma LeastHeld(c: Crawl, e: Entry)
    requires Tracked(c) && c.layers.queue.items != [] && e == Strip(c.layers.queue.items[0])
    ensures var q, q' := c.layers.queue, PopOne(c).layers.queue;
      && IsHeap(q'.items) && q'.seen == q.seen && Bag(q.items) == Bag(q'.items) + multiset{e}
      && e in Bag(q.items) && e !in Bag(q'.items) && e.url in c.found && c.found[e.url] == e.depth
      && forall f :: f in Bag(q.items) ==> e.depth <= f.depth
  {
    hide IsHeap, RootToEnd, Bag;
    var q := c.layers.queue;
    PopKeeps(q);
    forall f | f in Bag(q.items) ensures e in Bag(q.items) && e.depth <= f.depth {
      PoppedIsLeast(q, f);
    }
    assert e in Bag(q.items);
  }

  lemma PopTracked(c: Crawl, c': Crawl, e: Entry)
    requires Tracked(c) && IsHeap(c'.layers.queue.items)
    requires Bag(c.layers.queue.items) == Bag(c'.layers.queue.items) + multiset{e}
    requires c'.found == c.found && c'.layers.added == c.layers.added && c'.layers.queue.seen == c.layers.queue.seen
    ensures Tracked(c') && e !in Bag(c'.layers.queue.items)
  {
  }

  lemma PopSplit(c: Crawl, c': Crawl, popped: seq<Entry>, e: Entry)
    requires Split(c, popped) && Tracked(c) && c'.found == c.found
    requires Bag(c.layers.queue.items) == Bag(c'.layers.queue.items) + multiset{e} && e !in Bag(c'.layers.queue.items)
    ensures Split(c', popped + [e])
  {
    hide IsHeap, Bag;
    var popped' := popped + [e];
    assert e in Bag(c.layers.queue.items);
    forall i | 0 <= i < |popped| ensures popped[i].url != e.url {
      assert popped[i] !in Bag(c.layers.queue.items);
    }
    assert forall i :: 0 <= i < |popped| ==> popped'[i] == popped[i];
    assert popped'[|popped|] == e;
  }

  /** Popping the least deep item. */
  lemma PopBase(j: Job, c: Crawl, popped: seq<Entry>, floor: int)
    requires Base(j, c, popped, floor) && c.layers.queue.items != []
    ensures var e := Strip(c.layers.queue.items[0]);
      && Base(j, PopOne(c), popped + [e], e.depth) && e.depth >= floor
      && e in Bag(c.layers.queue.items) && HasPath(j, e.url, e.depth) && e.url in c.found && c.found[e.url] == e.depth
  {
    hide IsHeap, HasPath, Pop, Bag, Tracked, Split;
    var e := Strip(c.layers.queue.items[0]);
    LeastHeld(c, e);
    PopTracked(c, PopOne(c), e);
    PopSplit(c, PopOne(c), popped, e);
  }

  // ---------- turns ----------

  lemma TurnBase(j: Job, c: Crawl, popped: seq<Entry>, floor: int)
    requires Base(j, c, popped, floor) && c.layers.queue.items != []
    ensures var e := Strip(c.layers.queue.items[0]);
      Base(j, Turn(j, c), popped + [e], e.depth) && e.depth >= floor && Grows(c, Turn(j, c))
  {
    hide Base, HasPath, LinkAll, Captured;
    var e := Strip(c.layers.queue.items[0]);
    var c1 := PopOne(c);
    PopBase(j, c, popped, floor);
    if Visits(j, e) {
      var c2 := Captured(j.policy, c1, j.site.captured(e.url));
      CapturedRest(j.policy, c1, j.site.captured(e.url));
      SameBase(j, c1, popped + [e], e.depth, c2);
      LinkAllBase(j, c2, popped + [e], e.depth, e.url, e.depth, j.site.links(e.url));
    } else {
      SameBase(j, c1, popped + [e], e.depth, Turn(j, c));
    }
  }

  ghost predicate Ascending(s: seq<Entry>) {
    forall i, k :: 0 <= i < k < |s| ==> s[i].depth <= s[k].depth
  }

  /** The depth reached by popping s from a level on. */
  function Level(floor: int, s: seq<Entry>): int {
    if s == [] then floor else s[|s| - 1].depth
  }

  lemma AscendingNext(floor: int, s: seq<Entry>, e: Entry)
    requires Ascending(s) && e.depth >= Level(floor, s)
    ensures Ascending(s + [e]) && Level(floor, s + [e]) == e.depth
  {
    assert forall i :: 0 <= i < |s| - 1 ==> s[i].depth <= s[|s| - 1].depth;
  }

  /** In every number of turns pops never go back to a smaller depth, and the invariant holds. */
  lemma {:induction false} TurnsBase(j: Job, c: Crawl, popped: seq<Entry>, floor: int, n: nat)
    requires Base(j, c, popped, floor)
    ensures var (c', more) := Turns(j, c, n);
      && Base(j, c', popped + more, Level(floor, more)) && Grows(c, c')
      && Ascending(more) && (forall i :: 0 <= i < |more| ==> floor <= more[i].depth) && floor <= Level(floor, more)
  {
    hide Base, Turn;
    if n == 0 {
      assert popped + [] == popped;
    } else {
      TurnsBase(j, c, popped, floor, n - 1);
      var (m, more) := Turns(j, c, n - 1);
      if !Over(j.policy, m) {
        var e := Strip(m.layers.queue.items[0]);
        TurnBase(j, m, popped + more, Level(floor, more));
        AscendingNext(floor, more, e);
        assert popped + (more + [e]) == popped + more + [e];
      }
    }
  }

  // ---------- the pages crawled ----------

  lemma {:induction false} PagesConcat(j: Job, a: seq<Entry>, b: seq<Entry>)
    ensures Pages(j, a + b) == Pages(j, a) + Pages(j, b)
  {
    if b == [] {
      assert a + b == a;
    } else {
      var k := |b| - 1;
      PagesConcat(j, a, b[..k]);
      assert (a + b)[..|a + b| - 1] == a + b[..k] && (a + b)[|a + b| - 1] == b[k];
    }
  }

  lemma PagesNext(j: Job, popped: seq<Entry>, e: Entry)
    ensures Pages(j, popped + [e]) == if Visits(j, e) then Pages(j, popped) + [e] else Pages(j, popped)
  {
    assert (popped + [e])[..|popped|] == popped;
  }

  /** Exactly the popped items within maxDepth that are not refused are crawled. */
  lemma {:induction false} PagesMembers(j: Job, popped: seq<Entry>, x: Entry)
    ensures x in Pages(j, popped) <==> x in popped && Visits(j, x)
  {
    if popped != [] {
      PagesMembers(j, popped[..|popped| - 1], x);
      assert popped == popped[..|popped| - 1] + [popped[|popped| - 1]];
    }
  }

  lemma {:induction false} PagesAscend(j: Job, popped: seq<Entry>)
    requires Ascending(popped)
    ensures Ascending(Pages(j, popped))
  {
    if popped != [] {
      var k := |popped| - 1;
      PagesAscend(j, popped[..k]);
      var pages := Pages(j, popped[..k]);
      forall i | 0 <= i < |pages| ensures pages[i].depth <= popped[k].depth {
        PagesMembers(j, popped[..k], pages[i]);
      }
    }
  }

  lemma {:induction false} PagesDistinct(j: Job, popped: seq<Entry>)
    requires forall i, k :: 0 <= i < k < |popped| ==> popped[i].url != popped[k].url
    ensures Distinct(Pages(j, popped))
  {
    if popped != [] {
      var k := |popped| - 1;
      PagesDistinct(j, popped[..k]);
      var pages := Pages(j, popped[..k]);
      forall i | 0 <= i < |pages| ensures pages[i].url != popped[k].url {
        PagesMembers(j, popped[..k], pages[i]);
      }
    }
  }

  ghost predicate Distinct(crawled: seq<Entry>) {
    forall i, k :: 0 <= i < k < |crawled| ==> crawled[i].url != crawled[k].url
  }

  /** No page is crawled twice, and each is within maxDepth, at the length of a real link path. */
  ghost predicate Genuine(j: Job, crawled: seq<Entry>) {
    && Distinct(crawled)
    && forall i :: 0 <= i < |crawled| ==>
         crawled[i].depth <= j.maxDepth && HasPath(j, crawled[i].url, crawled[i].depth)
  }

  /** What holds of the pages of one process besides. */
  ghost predicate Sound(j: Job, crawled: seq<Entry>) {
    Genuine(j, crawled) && Ascending(crawled)
  }

  ghost predicate Covers(crawled: seq<Entry>, u: string, n: int) {
    exists i :: 0 <= i < |crawled| && crawled[i].url == u && crawled[i].depth <= n
  }

  /** What holds when nothing was dropped: every page within maxDepth hops is crawled, at its distance. */
  ghost predicate Exact(j: Job, crawled: seq<Entry>) {
    forall path :: IsPath(j, path) && |path| - 1 <= j.maxDepth ==> Covers(crawled, path[|path| - 1], |path| - 1)
  }

  lemma PagesAreGenuine(j: Job, c: Crawl, popped: seq<Entry>, floor: int)
    requires Base(j, c, popped, floor)
    ensures Genuine(j, Pages(j, popped))
  {
    hide Tracked, HasPath;
    PagesDistinct(j, popped);
    forall x | x in Pages(j, popped) ensures x.depth <= j.maxDepth && HasPath(j, x.url, x.depth) {
      PagesMembers(j, popped, x);
      var i :| 0 <= i < |popped| && popped[i] == x;
    }
  }

  // ---------- termination over a finite site ----------

  ghost predicate Closed(j: Job, universe: set<string>) {
    && (forall s :: s in j.seeds ==> s in universe)
    && (forall u, v :: u in universe && v in j.site.links(u) ==> v in universe)
  }

  /** Twice the URLs not yet found plus the queue length: a pop lowers it, a push too. */
  ghost function Measure(c: Crawl, universe: set<string>): int {
    2 * (|universe| - |c.found|) + |c.layers.queue.items|
  }

  lemma PushLengths(q: Queue, u: string, d: int)
    requires Admits(q, u)
    ensures |Push(q, u, d).items| == |q.items| + 1 && Push(q, u, d).maxSize == q.maxSize
  {
  }

  lemma LinkOneShrinks(p: Policy, c: Crawl, v: string, d: int, universe: set<string>)
    requires Tracked(c) && c.found.Keys <= universe && v in universe
    ensures var c' := LinkOne(p, c, v, d);
      c'.found.Keys <= universe && Measure(c', universe) <= Measure(c, universe)
  {
  }

  lemma {:induction false} LinkAllShrinks(
      j: Job, c: Crawl, popped: seq<Entry>, floor: int, u: string, n: int, links: seq<string>, universe: set<string>)
    requires Base(j, c, popped, floor) && HasPath(j, u, n) && floor <= n + 1
    requires forall v :: v in links ==> v in j.site.links(u) && v in universe
    requires c.found.Keys <= universe
    ensures var c' := LinkAll(j.policy, c, links, n + 1);
      c'.found.Keys <= universe && Measure(c', universe) <= Measure(c, universe)
  {
    hide LinkOne, Tracked, Measure, HasPath;
    if links != [] {
      var k := |links| - 1;
      LinkAllShrinks(j, c, popped, floor, u, n, links[..k], universe);
      LinkAllBase(j, c, popped, floor, u, n, links[..k]);
      LinkOneShrinks(j.policy, LinkAll(j.policy, c, links[..k], n + 1), links[k], n + 1, universe);
    }
  }

  lemma SubsetSize(a: set<string>, b: set<string>)
    requires a <= b
    ensures |a| <= |b|
  {
    assert |b| == |a| + |b - a| by {
      assert b == a + (b - a);
    }
  }

  lemma {:induction false} SeedAllStays(p: Policy, c: Crawl, seeds: seq<string>, universe: set<string>)
    requires c.found.Keys <= universe && forall s :: s in seeds ==> s in universe
    ensures SeedAll(p, c, seeds).found.Keys <= universe
  {
    if seeds != [] {
      SeedAllStays(p, c, seeds[..|seeds| - 1], universe);
    }
  }

  lemma PopMeasure(c: Crawl, c': Crawl, universe: set<string>)
    requires c.layers.queue.items != []
    requires c'.layers.queue == PopOne(c).layers.queue && c'.found == c.found
    ensures Measure(c', universe) == Measure(c, universe) - 1
  {
  }

  /** A turn stays among the URLs of the site and lowers the measure. */
  lemma TurnShrinks(j: Job, c: Crawl, popped: seq<Entry>, floor: int, universe: set<string>)
    requires Base(j, c, popped, floor) && Closed(j, universe) && c.found.Keys <= universe
    requires c.layers.queue.items != []
    ensures Turn(j, c).found.Keys <= universe && Measure(Turn(j, c), universe) < Measure(c, universe)
  {
    hide Base, HasPath, LinkAll, Captured, Measure, Pop;
    var e := Strip(c.layers.queue.items[0]);
    var c1 := PopOne(c);
    PopBase(j, c, popped, floor);
    if Visits(j, e) {
      var c2 := Captured(j.policy, c1, j.site.captured(e.url));
      CapturedRest(j.policy, c1, j.site.captured(e.url));
      SameBase(j, c1, popped + [e], e.depth, c2);
      PopMeasure(c, c2, universe);
      LinkAllShrinks(j, c2, popped + [e], e.depth, e.url, e.depth, j.site.links(e.url), universe);
    } else {
      PopMeasure(c, Turn(j, c), universe);
    }
  }

  lemma MeasurePositive(c: Crawl, universe: set<string>)
    requires c.found.Keys <= universe
    ensures Measure(c, universe) >= 0
  {
    SubsetSize(c.found.Keys, universe);
    assert |c.found| == |c.found.Keys|;
  }

  lemma FreshBase(j: Job, maxSize: int, total: nat)
    ensures Base(j, Fresh(maxSize, total), [], 0)
  {
  }

  lemma BeginBase(j: Job, maxSize: int, total: nat)
    ensures Base(j, Begin(j, maxSize, total), [], 0)
  {
    hide Base;
    FreshBase(j, maxSize, total);
    SeedAllBase(j, Fresh(maxSize, total), [], j.seeds);
  }
}
