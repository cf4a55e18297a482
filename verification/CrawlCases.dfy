/**
 Two small crawls that fall short of what they are for: in one the resumed process goes
 back to a seed, in the other a captured asset hides a page (internal/crawler/start.go and
 internal/crawler/capture.go).
 */
module CrawlCases {
  import opened HeapOrder
  import opened CrawlQueue
  import opened Admission
  import opened CrawlRun
  import opened CrawlResume
  import Recency

  // ---------- a false positive keeps a seed out until the crawl is resumed ----------

  /** Page a links to c; a filter that holds a alone falsely reports b. */
  function TwoSeeds(): Job {
    Job(Policy((u: string) => true, (u: string) => true, (a: set<string>, u: string) => a == {"a"} && u == "b", 0, 10),
        Site((u: string) => if u == "a" then ["c"] else [], (u: string) => [], (u: string) => false),
        ["a", "b"], 1)
  }

  lemma PushOnEmpty(q: Queue, u: string, d: int)
    requires q.items == [] && Admits(q, u)
    ensures Push(q, u, d) == Queue([URLItem(u, d, 0)], q.seen[u := true], q.maxSize)
  {
  }

  lemma PopOfOne(q: Queue)
    requires |q.items| == 1
    ensures Pop(q) == q.(items := [])
  {
  }

  /** Seeding loses b. */
  lemma SeedsLoseB()
    ensures var c := Begin(TwoSeeds(), 10, 0);
      && c.layers.queue == Queue([URLItem("a", 0, 0)], map["a" := true], 10)
      && c.layers.added == {"a"} && c.layers.total == 0 && Recency.Keys(c.layers.recent) <= {"a"}
  {
    hide Recency.Use;
    var p := TwoSeeds().policy;
    var c := Fresh(10, 0);
    var seeds := TwoSeeds().seeds;
    PushOnEmpty(c.layers.queue, "a", 0);
    UseKeys([], 10, Recency.Item("a", ()));
    assert SeedAll(p, c, []) == c && seeds[..1] == ["a"] && seeds[..1][..0] == [];
    assert SeedAll(p, c, ["a"]) == SeedOne(p, c, "a");
    assert SeedAll(p, c, seeds) == SeedOne(p, SeedOne(p, c, "a"), "b");
  }

  lemma TurnOfA(c: Crawl)
    requires c.layers.queue == Queue([URLItem("a", 0, 0)], map["a" := true], 10)
    requires c.layers.added == {"a"} && Recency.Keys(c.layers.recent) <= {"a"}
    ensures var c' := Turn(TwoSeeds(), c);
      && c'.layers.queue == Queue([URLItem("c", 1, 0)], map["a" := true, "c" := true], 10)
      && c'.layers.added == {"a", "c"}
  {
    hide Recency.Use, Recency.Keys, Pop, Push;
    var p := TwoSeeds().policy;
    PopOfOne(c.layers.queue);
    var c2 := Captured(p, PopOne(c), []);
    assert c2.layers.queue.items == [] && c2.layers.added == {"a"};
    PushOnEmpty(c2.layers.queue, "c", 1);
    assert ["c"][..0] == [];
    assert LinkAll(p, c2, ["c"], 1) == LinkOne(p, c2, "c", 1);
  }

  /** A page without links. */
  lemma TurnOfLeaf(c: Crawl, u: string, d: int)
    requires c.layers.queue.items == [URLItem(u, d, 0)] && u != "a" && d <= 1
    ensures var c' := Turn(TwoSeeds(), c);
      c'.layers.queue == c.layers.queue.(items := []) && c'.layers.added == c.layers.added
  {
    hide Pop;
    PopOfOne(c.layers.queue);
  }

  lemma NextTurn(j: Job, c: Crawl, n: nat)
    ensures var (m, popped) := Turns(j, c, n);
      !Over(j.policy, m) ==> Turns(j, c, n + 1) == (Turn(j, m), popped + [Strip(m.layers.queue.items[0])])
  {
  }

  lemma PagesOfRun()
    ensures var j, a, b, c := TwoSeeds(), Entry("a", 0), Entry("b", 0), Entry("c", 1);
      Pages(j, [a, c]) == [a, c] && Pages(j, [b]) == [b]
  {
    var j, a, b, c := TwoSeeds(), Entry("a", 0), Entry("b", 0), Entry("c", 1);
    PagesNext(j, [], a);
    PagesNext(j, [a], c);
    PagesNext(j, [], b);
    assert [a] + [c] == [a, c] && forall x: Entry :: [] + [x] == [x];
  }

  /** The first process: two turns. */
  lemma FirstProcess()
    ensures var j := TwoSeeds();
      var (c, popped) := Turns(j, Begin(j, 10, 0), 2);
      && c.layers.queue == Queue([], map["a" := true, "c" := true], 10)
      && popped == [Entry("a", 0), Entry("c", 1)]
  {
    hide Turn, Begin;
    var j := TwoSeeds();
    var c0 := Begin(j, 10, 0);
    SeedsLoseB();
    TurnOfA(c0);
    var c1 := Turn(j, c0);
    TurnOfLeaf(c1, "c", 1);
    assert Turns(j, c0, 0) == (c0, []) && !Over(j.policy, c0) && !Over(j.policy, c1);
    NextTurn(j, c0, 0);
    assert [] + [Entry("a", 0)] == [Entry("a", 0)];
    assert Turns(j, c0, 1) == (c1, [Entry("a", 0)]);
    NextTurn(j, c0, 1);
    assert [Entry("a", 0)] + [Entry("c", 1)] == [Entry("a", 0), Entry("c", 1)];
  }

  /** The second process: one turn. */
  lemma SecondProcess(c: Crawl)
    requires c.layers.queue == Queue([], map["a" := true, "c" := true], 10)
    ensures Elements(["a", "c"]) == c.layers.queue.seen.Keys
    ensures var j := TwoSeeds();
      var (c', popped) := Turns(j, Restart(j, c, {}, ["a", "c"]), 1);
      Over(j.policy, c') && popped == [Entry("b", 0)]
  {
    hide Turn, Restart;
    var j := TwoSeeds();
    RestartWithB(c);
    var r := Restart(j, c, {}, ["a", "c"]);
    TurnOfLeaf(r, "b", 0);
    assert Turns(j, r, 0) == (r, []) && !Over(j.policy, r);
    NextTurn(j, r, 0);
    assert [] + [Entry("b", 0)] == [Entry("b", 0)];
  }

  /** Two turns crawl a and c; the process that resumes without a filter file enqueues b, and crawls it after c. */
  lemma ReseedingGoesBack()
    ensures var j := TwoSeeds();
      var (c, popped) := Turns(j, Begin(j, 10, 0), 2);
      var r := Restart(j, c, {}, ["a", "c"]);
      && Elements(["a", "c"]) == c.layers.queue.seen.Keys && Over(j.policy, Turns(j, r, 1).0)
      && Pages(j, popped) + Pages(j, Turns(j, r, 1).1) == [Entry("a", 0), Entry("c", 1), Entry("b", 0)]
      && !Sound(j, Pages(j, popped) + Pages(j, Turns(j, r, 1).1))
  {
    hide Turns, Begin, Restart, Over, Elements, TwoSeeds;
    var j := TwoSeeds();
    FirstProcess();
    SecondProcess(Turns(j, Begin(j, 10, 0), 2).0);
    PagesOfRun();
    var crawled := [Entry("a", 0), Entry("c", 1), Entry("b", 0)];
    assert crawled[1].depth > crawled[2].depth;
  }

  lemma RestartWithB(c: Crawl)
    requires c.layers.queue == Queue([], map["a" := true, "c" := true], 10)
    ensures Elements(["a", "c"]) == c.layers.queue.seen.Keys
    ensures var r := Restart(TwoSeeds(), c, {}, ["a", "c"]);
      r.layers.queue.items == [URLItem("b", 0, 0)]
  {
    hide Recency.Use, Recency.Keys, Push, Resumed;
    var j := TwoSeeds();
    assert ["a", "c"][0] == "a" && ["a", "c"][1] == "c";
    ResumedLayers(j.policy, c, {}, ["a", "c"]);
    var r := Resumed(j.policy, c, {}, ["a", "c"]);
    assert j.seeds[..1] == ["a"] && j.seeds[..1][..0] == [];
    assert SeedAll(j.policy, r, ["a"]) == SeedOne(j.policy, r, "a") by { assert ["a"][..0] == []; }
    var s := SeedOne(j.policy, r, "a");
    assert s.layers == r.layers;
    assert "c" in s.layers.added && !HasSeen(j.policy, s.layers.added, "b");
    PushOnEmpty(s.layers.queue, "b", 0);
    assert SeedAll(j.policy, r, j.seeds) == SeedOne(j.policy, SeedOne(j.policy, r, "a"), "b");
  }

  // ---------- a page linked by the page whose stylesheet names it ----------

  function AssetPage(): Job {
    Job(Policy((u: string) => true, (u: string) => true, (a: set<string>, u: string) => false, 0, 10),
        Site((u: string) => if u == "a" then ["b"] else [], (u: string) => if u == "a" then ["b"] else [],
             (u: string) => false),
        ["a"], 1)
  }

  lemma AssetSeeded()
    ensures var c := Begin(AssetPage(), 10, 0);
      c.layers.queue == Queue([URLItem("a", 0, 0)], map["a" := true], 10) && c.layers.added == {"a"}
  {
    hide Recency.Use;
    var c := Fresh(10, 0);
    PushOnEmpty(c.layers.queue, "a", 0);
    assert ["a"][..0] == [];
    assert SeedAll(AssetPage().policy, c, ["a"]) == SeedOne(AssetPage().policy, c, "a");
  }

  lemma AssetTurn(c: Crawl)
    requires c.layers.queue == Queue([URLItem("a", 0, 0)], map["a" := true], 10) && c.layers.added == {"a"}
    ensures Turn(AssetPage(), c).layers.queue.items == []
  {
    hide Recency.Use, Recency.Keys, Pop, Push;
    var p := AssetPage().policy;
    PopOfOne(c.layers.queue);
    var c2 := Captured(p, PopOne(c), ["b"]);
    assert ["b"][..0] == [];
    assert CaptureAll(p, PopOne(c).layers.(total := c.layers.total + 1), []) ==
        PopOne(c).layers.(total := c.layers.total + 1);
    assert c2.layers.queue.items == [] && "b" in c2.layers.added;
    assert LinkAll(p, c2, ["b"], 1) == LinkOne(p, c2, "b", 1);
  }

  lemma AssetRun()
    ensures var j := AssetPage();
      var (c, popped) := Turns(j, Begin(j, 10, 0), 1);
      Over(j.policy, c) && popped == [Entry("a", 0)]
  {
    hide Turn, Begin;
    var j := AssetPage();
    var c0 := Begin(j, 10, 0);
    AssetSeeded();
    AssetTurn(c0);
    assert Turns(j, c0, 0) == (c0, []) && !Over(j.policy, c0);
    NextTurn(j, c0, 0);
    assert [] + [Entry("a", 0)] == [Entry("a", 0)];
  }

  lemma PathToB()
    ensures IsPath(AssetPage(), ["a", "b"])
  {
  }

  lemma OnlyA(j: Job)
    ensures Visits(j, Entry("a", 0)) ==> Pages(j, [Entry("a", 0)]) == [Entry("a", 0)]
    ensures IsPath(j, ["a", "b"]) && j.maxDepth == 1 ==> !Exact(j, [Entry("a", 0)])
  {
    hide Visits, IsPath;
    PagesNext(j, [], Entry("a", 0));
    assert [] + [Entry("a", 0)] == [Entry("a", 0)];
    assert !Covers([Entry("a", 0)], "b", 1);
    assert ["a", "b"][1] == "b" && |["a", "b"]| - 1 == 1;
  }

  /** The crawl ends with page a alone, although a links to b. */
  lemma AssetHidesPage()
    ensures var j := AssetPage();
      var (c, popped) := Turns(j, Begin(j, 10, 0), 1);
      Over(j.policy, c) && Pages(j, popped) == [Entry("a", 0)] && !Exact(j, Pages(j, popped))
  {
    hide Turns, Begin, Over, IsPath, Exact, Pages;
    AssetRun();
    PathToB();
    OnlyA(AssetPage());
  }
}
