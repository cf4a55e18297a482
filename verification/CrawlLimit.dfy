/**
 The total limit MaxTotalURLs over a whole crawl: how many pages it lets through, and that
 these are the first ones of the crawl without a limit (internal/crawler/start.go and
 internal/crawler/queueing.go).
 */
module CrawlLimit {
  import opened HeapOrder
  import opened CrawlQueue
  import opened Admission
  import opened CrawlRun

  /** Every page counts. */
  lemma {:induction false} TotalCounts(j: Job, c: Crawl, n: nat)
    ensures var (c', more) := Turns(j, c, n); c'.layers.total == c.layers.total + |Pages(j, more)|
  {
    hide Turn, Visits;
    if n > 0 {
      TotalCounts(j, c, n - 1);
      var (m, more) := Turns(j, c, n - 1);
      if !Over(j.policy, m) {
        TurnTotal(j, m);
        PagesNext(j, more, Strip(m.layers.queue.items[0]));
      }
    }
  }

  lemma TurnTotal(j: Job, c: Crawl)
    requires c.layers.queue.items != []
    ensures Turn(j, c).layers.total == c.layers.total + if Visits(j, Strip(c.layers.queue.items[0])) then 1 else 0
  {
    hide LinkAll, Captured, Pop;
    var e := Strip(c.layers.queue.items[0]);
    var c2 := Captured(j.policy, PopOne(c), j.site.captured(e.url));
    CapturedRest(j.policy, PopOne(c), j.site.captured(e.url));
    LinkAllTotal(j.policy, c2, j.site.links(e.url), e.depth + 1);
  }

  lemma {:induction false} LinkAllTotal(p: Policy, c: Crawl, links: seq<string>, d: int)
    ensures LinkAll(p, c, links, d).layers.total == c.layers.total
  {
    if links != [] {
      LinkAllTotal(p, c, links[..|links| - 1], d);
    }
  }

  /** The limit is never exceeded. */
  lemma {:induction false} LimitHolds(j: Job, c: Crawl, n: nat)
    requires j.policy.maxTotal > 0 && c.layers.total <= j.policy.maxTotal
    ensures c.layers.total + |Pages(j, Turns(j, c, n).1)| <= j.policy.maxTotal
  {
    hide Turn, Visits;
    if n > 0 {
      LimitHolds(j, c, n - 1);
      TotalCounts(j, c, n - 1);
      var (m, more) := Turns(j, c, n - 1);
      if !Over(j.policy, m) {
        PagesNext(j, more, Strip(m.layers.queue.items[0]));
      }
    }
  }

  /** The loop ends with an empty queue, or when the count of pages has reached the limit, and not before. */
  lemma EndsIff(j: Job, c: Crawl, n: nat)
    ensures var (c', more) := Turns(j, c, n);
      Over(j.policy, c') <==>
        || c'.layers.queue.items == []
        || (0 < j.policy.maxTotal <= c.layers.total + |Pages(j, more)|)
  {
    TotalCounts(j, c, n);
  }

  // ---------- the crawl without a limit ----------

  function Unlimited(j: Job): Job {
    j.(policy := j.policy.(maxTotal := 0))
  }

  lemma LinkOneUnlimited(j: Job, c: Crawl, u: string, d: int)
    requires !TotalReached(j.policy, c.layers)
    ensures LinkOne(j.policy, c, u, d) == LinkOne(Unlimited(j).policy, c, u, d)
  {
  }

  lemma {:induction false} LinkAllUnlimited(j: Job, c: Crawl, links: seq<string>, d: int)
    requires !TotalReached(j.policy, c.layers)
    ensures LinkAll(j.policy, c, links, d) == LinkAll(Unlimited(j).policy, c, links, d)
  {
    hide LinkOne;
    if links != [] {
      var k := |links| - 1;
      LinkAllUnlimited(j, c, links[..k], d);
      LinkAllTotal(j.policy, c, links[..k], d);
      LinkOneUnlimited(j, LinkAll(j.policy, c, links[..k], d), links[k], d);
    }
  }

  lemma {:induction false} CaptureUnlimited(j: Job, l: Layers, assets: seq<string>)
    ensures CaptureAll(j.policy, l, assets) == CaptureAll(Unlimited(j).policy, l, assets)
  {
    if assets != [] {
      CaptureUnlimited(j, l, assets[..|assets| - 1]);
    }
  }

  /** A turn that does not reach the limit is a turn of the crawl without one. */
  lemma TurnUnlimited(j: Job, c: Crawl)
    requires c.layers.queue.items != [] && !TotalReached(j.policy, Turn(j, c).layers)
    ensures Turn(j, c) == Turn(Unlimited(j), c)
  {
    hide LinkAll, CaptureAll, Pop;
    var e := Strip(c.layers.queue.items[0]);
    var c1 := PopOne(c);
    CaptureUnlimited(j, c1.layers.(total := c1.layers.total + 1), j.site.captured(e.url));
    var c2 := Captured(j.policy, c1, j.site.captured(e.url));
    LinkAllTotal(j.policy, c2, j.site.links(e.url), e.depth + 1);
    if Visits(j, e) {
      LinkAllUnlimited(j, c2, j.site.links(e.url), e.depth + 1);
    }
  }

  lemma PagesUnlimited(j: Job, popped: seq<Entry>)
    ensures Pages(Unlimited(j), popped) == Pages(j, popped)
  {
    if popped != [] {
      PagesUnlimited(j, popped[..|popped| - 1]);
    }
  }

  /** Up to the end of a limited crawl the crawl without a limit pops the same items, and until the limit is reached it
      is in the same state. */
  lemma {:induction false} FollowsUnlimited(j: Job, c: Crawl, n: nat)
    ensures var (c', more) := Turns(j, c, n);
      var (u, all) := Turns(Unlimited(j), c, |more|);
      all == more && (!TotalReached(j.policy, c'.layers) ==> u == c')
  {
    hide Turn;
    if n > 0 {
      FollowsUnlimited(j, c, n - 1);
      var (m, more) := Turns(j, c, n - 1);
      if !Over(j.policy, m) {
        var e := Strip(m.layers.queue.items[0]);
        assert |more + [e]| == |more| + 1;
        if !TotalReached(j.policy, Turn(j, m).layers) {
          TurnUnlimited(j, m);
        }
      }
    }
  }

  /** What was popped stays popped, and after the end nothing is. */
  lemma {:induction false} TurnsGoOn(j: Job, c: Crawl, m: nat, n: nat)
    requires m <= n
    ensures Turns(j, c, m).1 <= Turns(j, c, n).1
    ensures Over(j.policy, Turns(j, c, m).0) ==> Turns(j, c, n) == Turns(j, c, m)
  {
    hide Turn;
    if m < n {
      TurnsGoOn(j, c, m, n - 1);
    }
  }

  lemma PagesPrefix(j: Job, a: seq<Entry>, b: seq<Entry>)
    requires a <= b
    ensures Pages(j, a) <= Pages(j, b)
  {
    PagesConcat(j, a, b[|a|..]);
    assert a + b[|a|..] == b;
  }

  /** A crawl with a limit takes exactly as many pages as the limit leaves, or all if there are fewer, and they are the
      first ones of the crawl without a limit. */
  lemma LimitedCrawlIsPrefix(j: Job, c: Crawl, n: nat, m: nat)
    requires j.policy.maxTotal > 0 && c.layers.total <= j.policy.maxTotal
    requires Over(j.policy, Turns(j, c, n).0) && Over(Unlimited(j).policy, Turns(Unlimited(j), c, m).0)
    ensures var left := j.policy.maxTotal - c.layers.total;
      var all := Pages(j, Turns(Unlimited(j), c, m).1);
      Pages(j, Turns(j, c, n).1) == if left <= |all| then all[..left] else all
  {
    hide Turns, Pages;
    var (c', more) := Turns(j, c, n);
    var all := Turns(Unlimited(j), c, m).1;
    FollowsUnlimited(j, c, n);
    LimitHolds(j, c, n);
    TotalCounts(j, c, n);
    if |more| <= m {
      TurnsGoOn(Unlimited(j), c, |more|, m);
    } else {
      TurnsGoOn(Unlimited(j), c, m, |more|);
    }
    PagesPrefix(j, more, all);
    if !TotalReached(j.policy, c'.layers) {
      assert all == more;
    }
  }

  // ---------- one URL ----------

  /** What shouldQueue asks of a URL, in numbers: the exact set does not matter. */
  lemma AcceptsIff(p: Policy, l: Layers, u: string)
    requires Agree(l)
    ensures ShouldQueue(p, l, u).1 <==>
      && p.valid(u) && p.allowed(u)
      && (p.maxTotal <= 0 || l.total < p.maxTotal)
      && |l.queue.items| < 100000
      && u !in l.added && !p.falsePositive(l.added, u)
  {
  }

  /** So a yes is always followed by a successful push: the queue's own default cap is no smaller. */
  lemma CapsAgree()
    ensures MAX_QUEUE_SIZE == 100000 == DEFAULT_MAX_QUEUE_SIZE
  {
  }
}
