/**
 The breadth-first order of one process (the dispatch loop of internal/crawler/start.go):
 depths, shortest distances and completeness.  Completeness holds unless something within
 the depth limit was lost.
 */
module CrawlOrder {
  import opened HeapOrder
  import opened CrawlQueue
  import opened Admission
  import opened CrawlRun

  /** Breadth-first window: nothing found or lost is more than one below the last popped depth. */
  ghost predicate Ahead(c: Crawl, level: int) {
    && (forall u :: u in c.found ==> c.found[u] <= level + 1)
    && (forall i :: 0 <= i < |c.lost| ==> c.lost[i] <= level + 1)
  }

  /** The links of a page are all found, no deeper than one level down. */
  ghost predicate Expanded(j: Job, c: Crawl, e: Entry) {
    forall v :: IsLink(j, e.url, v) ==> v in c.found && c.found[v] <= e.depth + 1
  }

  /** Unless something within the limit was lost, every popped page above it is expanded, none within it was refused,
      and every seed is found. */
  ghost predicate Complete(j: Job, c: Crawl, popped: seq<Entry>) {
    !Hurt(c, j.maxDepth) ==>
      && (forall x :: x in popped && x.depth < j.maxDepth ==> Expanded(j, c, x))
      && (forall x :: x in popped && x.depth <= j.maxDepth ==> !j.site.refused(x.url))
      && (j.maxDepth >= 0 ==> forall s :: s in j.seeds && j.policy.valid(s) ==> s in c.found && c.found[s] == 0)
  }

  /** The invariant of the dispatch loop. */
  ghost predicate Turning(j: Job, c: Crawl, popped: seq<Entry>) {
    && Base(j, c, popped, Level(0, popped)) && Ascending(popped)
    && Ahead(c, Level(0, popped)) && Complete(j, c, popped)
  }

  // ---------- links ----------

  lemma LinkOneFinds(p: Policy, c: Crawl, v: string, level: int)
    requires Ahead(c, level)
    ensures var c' := LinkOne(p, c, v, level + 1);
      Ahead(c', level) && (Eligible(p, v) && c'.lost == [] ==> v in c'.found && c'.found[v] <= level + 1)
  {
    hide Step, Accepts;
  }

  lemma {:induction false} LinkAllFinds(j: Job, c: Crawl, popped: seq<Entry>, u: string, level: int, links: seq<string>)
    requires Base(j, c, popped, level) && Ahead(c, level) && HasPath(j, u, level)
    requires forall v :: v in links ==> v in j.site.links(u)
    ensures var c' := LinkAll(j.policy, c, links, level + 1);
      && Base(j, c', popped, level) && Ahead(c', level) && Grows(c, c')
      && forall v :: v in links && Eligible(j.policy, v) && c'.lost == [] ==> v in c'.found && c'.found[v] <= level + 1
  {
    hide Base, Ahead, HasPath, LinkOne;
    if links != [] {
      var k := |links| - 1;
      LinkAllFinds(j, c, popped, u, level, links[..k]);
      var m := LinkAll(j.policy, c, links[..k], level + 1);
      LinkOneBase(j, m, popped, level, u, level, links[k]);
      LinkOneFinds(j.policy, m, links[k], level);
      assert forall v :: v in links ==> v in links[..k] || v == links[k];
    }
  }

  lemma FirstHurts(c: Crawl, maxDepth: int)
    requires c.lost != [] && c.lost[0] <= maxDepth
    ensures Hurt(c, maxDepth)
  {
  }

  lemma HurtGrows(c: Crawl, c': Crawl, maxDepth: int)
    requires c.lost <= c'.lost
    ensures Hurt(c, maxDepth) ==> Hurt(c', maxDepth)
    ensures c.lost < c'.lost && c'.lost[|c'.lost| - 1] <= maxDepth ==> Hurt(c', maxDepth)
  {
    assert forall i :: 0 <= i < |c.lost| ==> c.lost[i] == c'.lost[i];
  }

  lemma ExpandedStays(j: Job, c: Crawl, c': Crawl, e: Entry)
    requires Expanded(j, c, e) && Grows(c, c')
    ensures Expanded(j, c', e)
  {
    hide IsLink;
  }

  /** After a page's links were processed the page is expanded, and earlier pages stay expanded. */
  lemma LinkAllCompletes(j: Job, c: Crawl, popped: seq<Entry>, e: Entry)
    requires Base(j, c, popped + [e], e.depth) && Ahead(c, e.depth) && HasPath(j, e.url, e.depth) && Visits(j, e)
    requires Complete(j, c, popped)
    ensures var c' := LinkAll(j.policy, c, j.site.links(e.url), e.depth + 1);
      && Base(j, c', popped + [e], e.depth) && Ahead(c', e.depth) && Complete(j, c', popped + [e]) && Grows(c, c')
  {
    hide Base, HasPath, LinkAll, Hurt;
    LinkAllFinds(j, c, popped + [e], e.url, e.depth, j.site.links(e.url));
    var c' := LinkAll(j.policy, c, j.site.links(e.url), e.depth + 1);
    HurtGrows(c, c', j.maxDepth);
    if !Hurt(c', j.maxDepth) {
      if e.depth < j.maxDepth && c'.lost != [] {
        FirstHurts(c', j.maxDepth);
      }
      forall x | x in popped + [e] && x.depth < j.maxDepth ensures Expanded(j, c', x) {
        if x in popped {
          ExpandedStays(j, c, c', x);
        }
      }
    }
  }

  // ---------- one turn ----------

  /** The popped item was skipped or refused. */
  lemma SkipCompletes(j: Job, c: Crawl, popped: seq<Entry>, e: Entry, c': Crawl)
    requires Complete(j, c, popped) && !Visits(j, e) && c'.found == c.found
    requires c'.lost == if e.depth > j.maxDepth then c.lost else c.lost + [e.depth]
    ensures Complete(j, c', popped + [e])
  {
    hide Hurt, IsLink;
    HurtGrows(c, c', j.maxDepth);
    forall x | Expanded(j, c, x) ensures Expanded(j, c', x) {
      ExpandedStays(j, c, c', x);
    }
  }

  lemma SameComplete(j: Job, c: Crawl, popped: seq<Entry>, c': Crawl)
    requires Complete(j, c, popped) && c'.found == c.found && c'.lost == c.lost
    ensures Complete(j, c', popped)
  {
    hide IsLink;
    HurtGrows(c', c, j.maxDepth);
    forall x | Expanded(j, c, x) ensures Expanded(j, c', x) {
      ExpandedStays(j, c, c', x);
    }
  }

  lemma AheadFurther(c: Crawl, level: int, deeper: int, c': Crawl)
    requires Ahead(c, level) && level <= deeper && c'.found == c.found
    requires c'.lost == c.lost || c'.lost == c.lost + [deeper]
    ensures Ahead(c', deeper)
  {
  }

  /** A turn of the dispatch loop keeps the invariant. */
  lemma TurnKeeps(j: Job, c: Crawl, popped: seq<Entry>)
    requires Turning(j, c, popped) && c.layers.queue.items != []
    ensures Turning(j, Turn(j, c), popped + [Strip(c.layers.queue.items[0])])
  {
    hide Base, Complete, Ahead, Ascending, HasPath, LinkAll, Captured, Pop, Level;
    var e := Strip(c.layers.queue.items[0]);
    var level := Level(0, popped);
    var c1 := PopOne(c);
    PopBase(j, c, popped, level);
    AscendingNext(0, popped, e);
    if Visits(j, e) {
      var c2 := Captured(j.policy, c1, j.site.captured(e.url));
      CapturedRest(j.policy, c1, j.site.captured(e.url));
      SameBase(j, c1, popped + [e], e.depth, c2);
      SameComplete(j, c, popped, c2);
      AheadFurther(c, level, e.depth, c2);
      LinkAllCompletes(j, c2, popped, e);
    } else {
      TurnBase(j, c, popped, level);
      SkipCompletes(j, c, popped, e, Turn(j, c));
      AheadFurther(c, level, e.depth, Turn(j, c));
    }
  }

  lemma {:induction false} TurnsKeep(j: Job, c: Crawl, popped: seq<Entry>, n: nat)
    requires Turning(j, c, popped)
    ensures var (c', more) := Turns(j, c, n); Turning(j, c', popped + more)
  {
    hide Turning, Turn;
    if n == 0 {
      assert popped + [] == popped;
    } else {
      TurnsKeep(j, c, popped, n - 1);
      var (m, more) := Turns(j, c, n - 1);
      if !Over(j.policy, m) {
        TurnKeeps(j, m, popped + more);
        var e := Strip(m.layers.queue.items[0]);
        assert popped + (more + [e]) == popped + more + [e];
      }
    }
  }

  // ---------- seeding ----------

  /** Only seeds were processed yet. */
  ghost predicate AtSeeds(c: Crawl) {
    && (forall u :: u in c.found ==> c.found[u] == 0)
    && (forall i :: 0 <= i < |c.lost| ==> c.lost[i] <= 0)
  }

  lemma SeedOneFinds(p: Policy, c: Crawl, s: string)
    requires AtSeeds(c)
    ensures var c' := SeedOne(p, c, s);
      AtSeeds(c') && c.found.Keys <= c'.found.Keys && c.lost <= c'.lost
      && (p.valid(s) && c'.lost == [] ==> s in c'.found)
  {
    hide Step;
  }

  lemma {:induction false} SeedAllFinds(p: Policy, c: Crawl, seeds: seq<string>)
    requires AtSeeds(c)
    ensures var c' := SeedAll(p, c, seeds);
      && AtSeeds(c') && c.found.Keys <= c'.found.Keys && c.lost <= c'.lost
      && (c'.lost == [] ==> forall s :: s in seeds && p.valid(s) ==> s in c'.found)
  {
    hide AtSeeds, SeedOne;
    if seeds != [] {
      var k := |seeds| - 1;
      SeedAllFinds(p, c, seeds[..k]);
      SeedOneFinds(p, SeedAll(p, c, seeds[..k]), seeds[k]);
      assert forall s :: s in seeds ==> s in seeds[..k] || s == seeds[k];
    }
  }

  lemma BeginTurning(j: Job, maxSize: int, total: nat)
    ensures Turning(j, Begin(j, maxSize, total), [])
  {
    hide Base, SeedAll;
    var c := Fresh(maxSize, total);
    FreshBase(j, maxSize, total);
    SeedAllBase(j, c, [], j.seeds);
    SeedAllFinds(j.policy, c, j.seeds);
    var c' := SeedAll(j.policy, c, j.seeds);
    if j.maxDepth >= 0 && c'.lost != [] {
      FirstHurts(c', j.maxDepth);
    }
  }

  // ---------- the end of a run ----------

  lemma EmptyBag(s: seq<URLItem>)
    requires s == []
    ensures Bag(s) == multiset{}
  {
  }

  /** With the queue drained and nothing within the limit lost, every page within the depth limit was popped, at a depth
      no greater than the length of any link path to it. */
  lemma {:induction false} DrainedCoversPaths(j: Job, c: Crawl, popped: seq<Entry>, path: seq<string>)
    requires Turning(j, c, popped) && c.layers.queue.items == [] && !Hurt(c, j.maxDepth)
    requires IsPath(j, path) && |path| - 1 <= j.maxDepth
    ensures var u := path[|path| - 1];
      u in c.found && c.found[u] <= |path| - 1 && Entry(u, c.found[u]) in popped
    decreases |path|
  {
    hide HasPath, Tracked, Ahead, Ascending;
    var n := |path| - 1;
    if n > 0 {
      assert forall i :: 0 < i < n ==> IsLink(j, path[..n][i - 1], path[..n][i]);
      DrainedCoversPaths(j, c, popped, path[..n]);
      var w := path[n - 1];
      assert Expanded(j, c, Entry(w, c.found[w])) && IsLink(j, w, path[n]);
    }
    EmptyBag(c.layers.queue.items);
  }

  lemma ResultIsSound(j: Job, c: Crawl, popped: seq<Entry>)
    requires Turning(j, c, popped)
    ensures Sound(j, Pages(j, popped))
  {
    hide Base, Genuine;
    PagesAreGenuine(j, c, popped, Level(0, popped));
    PagesAscend(j, popped);
  }

  lemma ResultIsExact(j: Job, c: Crawl, popped: seq<Entry>)
    requires Turning(j, c, popped) && c.layers.queue.items == [] && !Hurt(c, j.maxDepth)
    ensures Exact(j, Pages(j, popped))
  {
    hide Turning;
    forall path | IsPath(j, path) && |path| - 1 <= j.maxDepth
      ensures Covers(Pages(j, popped), path[|path| - 1], |path| - 1)
    {
      DrainedCoversPaths(j, c, popped, path);
      var x := Entry(path[|path| - 1], c.found[path[|path| - 1]]);
      PopVisits(j, c, popped, x);
      PagesMembers(j, popped, x);
    }
  }

  lemma PopVisits(j: Job, c: Crawl, popped: seq<Entry>, x: Entry)
    requires Turning(j, c, popped) && !Hurt(c, j.maxDepth) && x in popped && x.depth <= j.maxDepth
    ensures Visits(j, x)
  {
  }
}
