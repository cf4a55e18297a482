/**
 A crawl as a run of the events of module Admission (internal/crawler/start.go,
 internal/crawler/do_crawl.go and internal/crawler/capture.go).
 */
module CrawlEvents {
  import opened HeapOrder
  import opened CrawlQueue
  import opened Admission
  import opened CrawlRun

  /** No event of the list starts a process. */
  ghost predicate NoResume(events: seq<Event>) {
    forall i :: 0 <= i < |events| ==> !events[i].Resume?
  }

  lemma {:induction false} AfterConcat(p: Policy, l: Layers, a: seq<Event>, b: seq<Event>)
    ensures After(p, l, a + b) == After(p, After(p, l, a), b)
  {
    hide Step;
    if b == [] {
      assert a + b == a;
    } else {
      var k := |b| - 1;
      AfterConcat(p, l, a, b[..k]);
      assert (a + b)[..|a + b| - 1] == a + b[..k] && (a + b)[|a + b| - 1] == b[k];
    }
  }

  lemma AfterOne(p: Policy, l: Layers, e: Event)
    ensures After(p, l, [e]) == Step(p, l, e) && After(p, l, []) == l
  {
    hide Step;
    assert [e][..0] == [];
  }

  lemma {:induction false} CaptureIsRun(p: Policy, l: Layers, assets: seq<string>) returns (events: seq<Event>)
    ensures NoResume(events) && After(p, l, events) == CaptureAll(p, l, assets)
  {
    hide Step;
    if assets == [] {
      events := [];
    } else {
      var k := |assets| - 1;
      events := CaptureIsRun(p, l, assets[..k]);
      var m := CaptureAll(p, l, assets[..k]);
      if p.valid(assets[k]) && !HasSeen(p, m.added, assets[k]) {
        AfterConcat(p, l, events, [AddOnly(assets[k])]);
        AfterOne(p, m, AddOnly(assets[k]));
        events := events + [AddOnly(assets[k])];
      }
    }
  }

  lemma {:induction false} LinksAreRun(p: Policy, c: Crawl, links: seq<string>, d: int) returns (events: seq<Event>)
    ensures NoResume(events) && After(p, c.layers, events) == LinkAll(p, c, links, d).layers
  {
    hide Step, Accepts;
    if links == [] {
      events := [];
    } else {
      var k := |links| - 1;
      events := LinksAreRun(p, c, links[..k], d);
      AfterConcat(p, c.layers, events, [Link(links[k], d)]);
      AfterOne(p, LinkAll(p, c, links[..k], d).layers, Link(links[k], d));
      events := events + [Link(links[k], d)];
    }
  }

  lemma {:induction false} SeedsAreRun(p: Policy, c: Crawl, seeds: seq<string>) returns (events: seq<Event>)
    ensures NoResume(events) && After(p, c.layers, events) == SeedAll(p, c, seeds).layers
  {
    hide Step, HasSeen;
    if seeds == [] {
      events := [];
    } else {
      var k := |seeds| - 1;
      events := SeedsAreRun(p, c, seeds[..k]);
      AfterConcat(p, c.layers, events, [Seed(seeds[k])]);
      AfterOne(p, SeedAll(p, c, seeds[..k]).layers, Seed(seeds[k]));
      events := events + [Seed(seeds[k])];
    }
  }

  lemma PopIsEvent(p: Policy, c: Crawl)
    requires c.layers.queue.items != []
    ensures Step(p, c.layers, Dequeue) == PopOne(c).layers
  {
  }

  lemma CountIsEvent(p: Policy, l: Layers)
    ensures Step(p, l, Crawled) == l.(total := l.total + 1)
  {
  }

  lemma TurnIsRun(j: Job, c: Crawl) returns (events: seq<Event>)
    requires c.layers.queue.items != []
    ensures NoResume(events) && After(j.policy, c.layers, events) == Turn(j, c).layers
  {
    hide Step, After, LinkAll, CaptureAll, Pop;
    var p := j.policy;
    var e := Strip(c.layers.queue.items[0]);
    var c1 := PopOne(c);
    PopIsEvent(p, c);
    AfterOne(p, c.layers, Dequeue);
    events := [Dequeue];
    if Visits(j, e) {
      CountIsEvent(p, c1.layers);
      AfterOne(p, c1.layers, Crawled);
      var captures := CaptureIsRun(p, c1.layers.(total := c1.layers.total + 1), j.site.captured(e.url));
      var c2 := Captured(p, c1, j.site.captured(e.url));
      var links := LinksAreRun(p, c2, j.site.links(e.url), e.depth + 1);
      AfterConcat(p, c.layers, [Dequeue], [Crawled]);
      AfterConcat(p, c.layers, [Dequeue] + [Crawled], captures);
      AfterConcat(p, c.layers, [Dequeue] + [Crawled] + captures, links);
      events := [Dequeue] + [Crawled] + captures + links;
    }
  }

  /** Every crawl is a run of admission events, so the laws of the admission layers hold in it. */
  lemma {:induction false} CrawlIsRun(j: Job, maxSize: int, total: nat, n: nat) returns (events: seq<Event>)
    ensures NoResume(events)
    ensures After(j.policy, Fresh(maxSize, total).layers, events) == Turns(j, Begin(j, maxSize, total), n).0.layers
  {
    hide Step, After, Turn, SeedAll;
    if n == 0 {
      events := SeedsAreRun(j.policy, Fresh(maxSize, total), j.seeds);
    } else {
      events := CrawlIsRun(j, maxSize, total, n - 1);
      var m := Turns(j, Begin(j, maxSize, total), n - 1).0;
      if !Over(j.policy, m) {
        var more := TurnIsRun(j, m);
        AfterConcat(j.policy, Fresh(maxSize, total).layers, events, more);
        events := events + more;
      }
    }
  }
}
