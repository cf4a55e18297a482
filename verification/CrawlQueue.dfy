/**
 The in-memory crawl queue of internal/queue/ops.go and internal/queue/heap.go: a
 depth-ordered binary heap with a seen map and a size cap, checkpointed by Snapshot
 and LoadFromCheckpoint.

 Queue is the value of the queue; the class PriorityQueue updates it in place, each
 method proved against the function on values, and the laws are about all runs of
 those functions.
 */
module CrawlQueue {
  import opened Collections
  import opened HeapOrder

  /** seen is a Go map[string]bool: a checkpoint may bring entries mapped to false. */
  datatype Queue = Queue(items: seq<URLItem>, seen: map<string, bool>, maxSize: int)

  datatype Op = PushURL(url: string, depth: int) | PopURL | MarkSeen(marked: string)

  datatype Answer = Pushed(ok: bool) | Popped(item: Entry) | Empty | Marked

  function Seen(q: Queue, u: string): bool {
    u in q.seen && q.seen[u]
  }

  // ---------- the operations on values ----------

  predicate Admits(q: Queue, u: string) {
    !Seen(q, u) && |q.items| < q.maxSize
  }

  function Push(q: Queue, u: string, d: int): Queue
    requires Admits(q, u)
  {
    var s := q.items + [URLItem(u, d, |q.items|)];
    q.(seen := q.seen[u := true], items := SiftUp(s, |s| - 1))
  }

  /** heap.Pop before the last element is cut off: root swapped to the end, rest sifted. */
  function RootToEnd(s: seq<URLItem>): (r: seq<URLItem>)
    requires s != []
    ensures |r| == |s|
  {
    SiftDown(Swap(s, 0, |s| - 1), 0, |s| - 1)
  }

  function Pop(q: Queue): Queue
    requires q.items != []
  {
    q.(items := RootToEnd(q.items)[..|q.items| - 1])
  }

  function Apply(q: Queue, op: Op): (Queue, Answer) {
    match op
    case PushURL(u, d) => if Admits(q, u) then (Push(q, u, d), Pushed(true)) else (q, Pushed(false))
    case PopURL => if q.items == [] then (q, Empty) else (Pop(q), Popped(Strip(q.items[0])))
    case MarkSeen(u) => (q.(seen := q.seen[u := true]), Marked)
  }

  function Load(items: seq<URLItem>, visited: map<string, bool>, maxSize: int): Queue {
    Queue(Heapify(items), visited, maxSize)
  }

  // ---------- one operation ----------

  /** What every operation keeps: heap order, and Index equal to position. */
  ghost predicate Valid(q: Queue) {
    IsHeap(q.items) && Positioned(q.items)
  }

  lemma AppendRises(s: seq<URLItem>, x: URLItem)
    requires IsHeap(s)
    ensures Rising(s + [x], |s|)
  {
  }

  lemma PushKeeps(q: Queue, u: string, d: int)
    requires Admits(q, u) && IsHeap(q.items)
    ensures IsHeap(Push(q, u, d).items)
    ensures Positioned(q.items) ==> Positioned(Push(q, u, d).items)
    ensures Bag(Push(q, u, d).items) == Bag(q.items) + multiset{Entry(u, d)}
  {
    var x := URLItem(u, d, |q.items|);
    var s := q.items + [x];
    AppendRises(q.items, x);
    SiftUpOrders(s, |s| - 1);
    SiftUpKeeps(s, |s| - 1);
    assert Entries(s) == Entries(q.items) + [Entry(u, d)];
  }

  lemma CutLast(r: seq<URLItem>)
    requires r != [] && HeapFrom(r, 0, |r| - 1)
    ensures IsHeap(r[..|r| - 1])
    ensures Positioned(r) ==> Positioned(r[..|r| - 1])
    ensures Bag(r) == Bag(r[..|r| - 1]) + multiset{Strip(r[|r| - 1])}
  {
    var n := |r| - 1;
    forall j: nat | 0 < j < n ensures r[..n][Parent(j)].depth <= r[..n][j].depth {
      assert r[Parent(j)].depth <= r[j].depth;
    }
    assert Entries(r) == Entries(r[..n]) + [Strip(r[n])];
  }

  lemma PopKeeps(q: Queue)
    requires q.items != [] && IsHeap(q.items)
    ensures IsHeap(Pop(q).items)
    ensures Positioned(q.items) ==> Positioned(Pop(q).items)
    ensures Strip(RootToEnd(q.items)[|q.items| - 1]) == Strip(q.items[0])
    ensures Bag(q.items) == Bag(Pop(q).items) + multiset{Strip(q.items[0])}
  {
    var s := q.items;
    var n := |s| - 1;
    SwapKeeps(s, 0, n);
    SiftDownOrders(Swap(s, 0, n), 0, 0, n);
    SiftDownKeeps(Swap(s, 0, n), 0, n);
    LastAfterSift(s);
    CutLast(RootToEnd(s));
  }

  lemma LastAfterSift(s: seq<URLItem>)
    requires s != []
    ensures Strip(RootToEnd(s)[|s| - 1]) == Strip(s[0])
  {
    var n := |s| - 1;
    SiftDownKeeps(Swap(s, 0, n), 0, n);
    assert RootToEnd(s)[n] == RootToEnd(s)[n..][0] == Swap(s, 0, n)[n..][0];
  }

  /** The popped item is one of the least deep. */
  lemma PoppedIsLeast(q: Queue, e: Entry)
    requires q.items != [] && IsHeap(q.items) && e in Bag(q.items)
    ensures Strip(q.items[0]) in Bag(q.items) && q.items[0].depth <= e.depth
  {
    var j :| 0 <= j < |q.items| && Entries(q.items)[j] == e;
    RootIsLeast(q.items, j);
    assert Entries(q.items)[0] in Entries(q.items);
  }

  // ---------- whole runs ----------

  function Run(q: Queue, ops: seq<Op>): (r: (Queue, seq<Answer>))
    ensures |r.1| == |ops|
  {
    if ops == [] then (q, [])
    else
      var (q', answers) := Run(q, ops[..|ops| - 1]);
      var (q'', a) := Apply(q', ops[|ops| - 1]);
      (q'', answers + [a])
  }

  function PushedBag(ops: seq<Op>, answers: seq<Answer>): multiset<Entry>
    requires |ops| == |answers|
  {
    if ops == [] then multiset{}
    else
      var n := |ops| - 1;
      PushedBag(ops[..n], answers[..n]) + NewlyPushed(ops[n], answers[n])
  }

  function PoppedBag(answers: seq<Answer>): multiset<Entry> {
    if answers == [] then multiset{}
    else
      var n := |answers| - 1;
      PoppedBag(answers[..n]) + NewlyPopped(answers[n])
  }

  function New(maxSize: int): Queue {
    Queue([], map[], maxSize)
  }

  /** In every run from a fresh queue: the array stays a min-heap by depth with Index equal to position,
      and within its cap. */
  lemma {:induction false} RunStaysValid(maxSize: int, ops: seq<Op>)
    ensures var q := Run(New(maxSize), ops).0;
      Valid(q) && q.maxSize == maxSize && (q.items == [] || |q.items| <= maxSize)
  {
    if ops != [] {
      var n := |ops| - 1;
      RunStaysValid(maxSize, ops[..n]);
      ValidStep(Run(New(maxSize), ops[..n]).0, ops[n]);
    }
  }

  /** In every run from a fresh queue: what was pushed is exactly what was popped plus what is held, and
      no URL was enqueued twice. */
  lemma {:induction false} RunConserves(maxSize: int, ops: seq<Op>)
    ensures var (q, answers) := Run(New(maxSize), ops);
      && PushedBag(ops, answers) == PoppedBag(answers) + Bag(q.items)
      && EachOnce(PushedBag(ops, answers), q)
  {
    if ops != [] {
      var n := |ops| - 1;
      RunConserves(maxSize, ops[..n]);
      RunStaysValid(maxSize, ops[..n]);
      var (q, answers) := Run(New(maxSize), ops[..n]);
      var (q', a) := Apply(q, ops[n]);
      var pushed, popped := PushedBag(ops[..n], answers), PoppedBag(answers);
      ValidStep(q, ops[n]);
      EachOnceStep(q, ops[n], pushed);
      assert (answers + [a])[..n] == answers;
      Rebalance(pushed, popped, Bag(q.items), Bag(q'.items), NewlyPushed(ops[n], a), NewlyPopped(a));
    }
  }

  /** Call i marks u seen: it says so, or enqueues it. */
  predicate Marks(ops: seq<Op>, answers: seq<Answer>, u: string, i: nat)
    requires |ops| == |answers| && i < |ops|
  {
    ops[i] == MarkSeen(u) || (ops[i].PushURL? && ops[i].url == u && answers[i] == Pushed(true))
  }

  /** In every run a URL is seen exactly if some call marked or enqueued it. */
  lemma {:induction false} SeenIff(maxSize: int, ops: seq<Op>, u: string)
    ensures var (q, answers) := Run(New(maxSize), ops);
      Seen(q, u) <==> exists i :: 0 <= i < |ops| && Marks(ops, answers, u, i)
  {
    hide SiftUp, RootToEnd;
    if ops != [] {
      var n := |ops| - 1;
      SeenIff(maxSize, ops[..n], u);
      var (q, answers) := Run(New(maxSize), ops[..n]);
      var (q', a) := Apply(q, ops[n]);
      assert forall i :: 0 <= i < n ==> Marks(ops, answers + [a], u, i) == Marks(ops[..n], answers, u, i);
      assert Seen(q', u) <==> Seen(q, u) || Marks(ops, answers + [a], u, n);
    }
  }

  /** What each call of a run answers, from the history before it: a push succeeds exactly if its URL was neither marked
      nor enqueued and fewer items are held than the cap allows; a pop gives a least deep item of those pushed and not
      yet popped, and says that there is none exactly if there is none. */
  lemma RunAnswers(maxSize: int, ops: seq<Op>, op: Op)
    ensures var (q, answers) := Run(New(maxSize), ops);
      var held := PushedBag(ops, answers) - PoppedBag(answers);
      match Apply(q, op).1
      case Pushed(ok) => op.PushURL? &&
        (ok <==> |held| < maxSize && !exists i :: 0 <= i < |ops| && Marks(ops, answers, op.url, i))
      case Popped(e) => op.PopURL? && e in held && forall f :: f in held ==> e.depth <= f.depth
      case Empty => op.PopURL? && held == multiset{}
      case Marked => op.MarkSeen?
  {
    hide PushedBag, PoppedBag, Marks;
    var (q, answers) := Run(New(maxSize), ops);
    RunConserves(maxSize, ops);
    RunStaysValid(maxSize, ops);
    assert PushedBag(ops, answers) - PoppedBag(answers) == Bag(q.items);
    BagSize(q.items);
    match op
    case PushURL(u, d) => SeenIff(maxSize, ops, u);
    case PopURL =>
      if q.items != [] {
        forall f | f in Bag(q.items) ensures Strip(q.items[0]).depth <= f.depth {
          PoppedIsLeast(q, f);
        }
        RootIsHeld(q.items);
      }
    case MarkSeen(u) =>
  }

  lemma BagSize(s: seq<URLItem>)
    ensures |Bag(s)| == |s|
  {
  }

  lemma RootIsHeld(s: seq<URLItem>)
    requires s != []
    ensures Strip(s[0]) in Bag(s)
  {
    assert Entries(s)[0] in Entries(s);
  }

  lemma Rebalance(pushed: multiset<Entry>, popped: multiset<Entry>, held: multiset<Entry>, held': multiset<Entry>,
                  new1: multiset<Entry>, gone: multiset<Entry>)
    requires pushed == popped + held && held + new1 == held' + gone
    ensures pushed + new1 == (popped + gone) + held'
  {
    assert pushed + new1 == popped + (held + new1);
    assert popped + (held' + gone) == (popped + gone) + held';
  }

  /** Every URL in the bag is there once, at one depth, and marked seen. */
  ghost predicate EachOnce(pushed: multiset<Entry>, q: Queue) {
    && (forall e, f :: e in pushed && f in pushed && e.url == f.url ==> e == f)
    && (forall e :: e in pushed ==> pushed[e] == 1 && Seen(q, e.url))
  }

  function NewlyPushed(op: Op, a: Answer): multiset<Entry> {
    if op.PushURL? && a == Pushed(true) then multiset{Entry(op.url, op.depth)} else multiset{}
  }

  function NewlyPopped(a: Answer): multiset<Entry> {
    if a.Popped? then multiset{a.item} else multiset{}
  }

  lemma ValidStep(q: Queue, op: Op)
    requires Valid(q)
    ensures var (q', a) := Apply(q, op);
      && Valid(q')
      && q'.maxSize == q.maxSize && |q'.items| <= (if |q.items| <= q.maxSize then q.maxSize else |q.items|)
      && Bag(q.items) + NewlyPushed(op, a) == Bag(q'.items) + NewlyPopped(a)
  {
    match op
    case PushURL(u, d) => if Admits(q, u) { PushKeeps(q, u, d); }
    case PopURL => if q.items != [] { PopKeeps(q); }
    case MarkSeen(_) =>
  }

  lemma EachOnceStep(q: Queue, op: Op, pushed: multiset<Entry>)
    requires EachOnce(pushed, q)
    ensures EachOnce(pushed + NewlyPushed(op, Apply(q, op).1), Apply(q, op).0)
  {
  }

  // ---------- checkpoints ----------

  /** Loading any list of items gives a heap of the same contents. */
  lemma LoadKeeps(items: seq<URLItem>, visited: map<string, bool>, maxSize: int)
    ensures IsHeap(Load(items, visited, maxSize).items)
    ensures Bag(Load(items, visited, maxSize).items) == Bag(items)
    ensures Positioned(items) ==> Positioned(Load(items, visited, maxSize).items)
  {
    HeapifyOrders(items);
    HeapifyBelowKeeps(items, |items| / 2);
  }

  /** Snapshot followed by LoadFromCheckpoint restores the queue exactly, so every later operation
      sequence gets the same answers and ends in the same queue. */
  lemma CheckpointRoundTrip(maxSize: int, before: seq<Op>, after: seq<Op>)
    ensures var q := Run(New(maxSize), before).0;
      && Load(q.items, q.seen, q.maxSize) == q
      && Run(Load(q.items, q.seen, q.maxSize), after) == Run(q, after)
  {
    var q := Run(New(maxSize), before).0;
    RunStaysValid(maxSize, before);
    HeapifyBelowOfHeap(q.items, |q.items| / 2);
  }

  /** heap.Init repairs Index only where it swaps: of any loaded list, Index is right afterwards exactly when every
      item that is not moved came with its position. */
  lemma LoadTrustsIndex(items: seq<URLItem>, visited: map<string, bool>, maxSize: int)
    ensures Positioned(Load(items, visited, maxSize).items) <==>
      forall p :: 0 <= p < |items| && p !in Moved(DepthsOf(items)) ==> items[p].index == p
  {
    HeapifyBelowMoves(items, |items| / 2);
    assert MovedOnly(items, Heapify(items), Moved(DepthsOf(items)));
  }

  /** A one-item checkpoint with a stale Index keeps it. */
  lemma StaleIndexStays(u: string, d: int, visited: map<string, bool>, maxSize: int)
    ensures !Positioned(Load([URLItem(u, d, 7)], visited, maxSize).items)
  {
    assert Heapify([URLItem(u, d, 7)])[0].index == 7;
  }

  // ---------- the order inside a checkpoint does not matter ----------

  function DepthBag(q: Queue): multiset<int> {
    multiset(Depths(Entries(q.items)))
  }

  /** Same depths held, same seen map, same cap; the arrangement and the tied URLs may differ. */
  ghost predicate Alike(p: Queue, q: Queue) {
    && IsHeap(p.items) && IsHeap(q.items)
    && DepthBag(p) == DepthBag(q)
    && p.seen == q.seen
    && p.maxSize == q.maxSize
  }

  /** An answer up to which of several equally deep URLs was popped. */
  ghost predicate AlikeAnswers(a: Answer, b: Answer) {
    if a.Popped? then b.Popped? && a.item.depth == b.item.depth else a == b
  }

  lemma DepthsWithout(t: seq<Entry>, j: nat)
    requires j < |t|
    ensures multiset(RemoveAt(t, j)) == multiset(t) - multiset{t[j]}
    ensures multiset(Depths(t)) == multiset(Depths(RemoveAt(t, j))) + multiset{t[j].depth}
  {
    RemoveAtBag(t, j);
    RemoveAtBag(Depths(t), j);
    assert Depths(RemoveAt(t, j)) == RemoveAt(Depths(t), j);
  }

  lemma {:induction false} DepthBagFromBag(s: seq<Entry>, t: seq<Entry>)
    requires multiset(s) == multiset(t)
    ensures multiset(Depths(s)) == multiset(Depths(t))
    decreases |s|
  {
    if s == [] {
      assert |multiset(t)| == 0;
    } else {
      assert s[0] in multiset(t);
      var j :| 0 <= j < |t| && t[j] == s[0];
      DepthsWithout(s, 0);
      DepthsWithout(t, j);
      DepthBagFromBag(RemoveAt(s, 0), RemoveAt(t, j));
    }
  }

  lemma DepthsAfterPush(q: Queue, u: string, d: int)
    requires IsHeap(q.items) && Admits(q, u)
    ensures DepthBag(Push(q, u, d)) == DepthBag(q) + multiset{d}
  {
    PushKeeps(q, u, d);
    var e := Entries(q.items) + [Entry(u, d)];
    DepthBagFromBag(Entries(Push(q, u, d).items), e);
    assert Depths(e) == Depths(Entries(q.items)) + [d];
  }

  lemma DepthsAfterPop(q: Queue)
    requires IsHeap(q.items) && q.items != []
    ensures DepthBag(q) == DepthBag(Pop(q)) + multiset{q.items[0].depth}
    ensures forall d :: d in DepthBag(q) ==> q.items[0].depth <= d
    ensures q.items[0].depth in DepthBag(q)
  {
    PopKeeps(q);
    var e := Entries(Pop(q).items) + [Strip(q.items[0])];
    DepthBagFromBag(Entries(q.items), e);
    assert Depths(e) == Depths(Entries(Pop(q).items)) + [q.items[0].depth];
    forall d | d in DepthBag(q) ensures q.items[0].depth <= d {
      var j :| 0 <= j < |q.items| && Depths(Entries(q.items))[j] == d;
      RootIsLeast(q.items, j);
    }
  }

  lemma AlikePush(p: Queue, q: Queue, u: string, d: int)
    requires Alike(p, q) && Admits(p, u) && Admits(q, u)
    ensures Alike(Push(p, u, d), Push(q, u, d))
  {
    PushKeeps(p, u, d);
    PushKeeps(q, u, d);
    DepthsAfterPush(p, u, d);
    DepthsAfterPush(q, u, d);
  }

  lemma AlikePop(p: Queue, q: Queue)
    requires Alike(p, q) && p.items != [] && q.items != []
    ensures Alike(Pop(p), Pop(q)) && p.items[0].depth == q.items[0].depth
  {
    PopKeeps(p);
    PopKeeps(q);
    DepthsAfterPop(p);
    DepthsAfterPop(q);
    RestAfterLeast(DepthBag(p), p.items[0].depth, DepthBag(Pop(p)), q.items[0].depth, DepthBag(Pop(q)));
  }

  lemma RestAfterLeast(b: multiset<int>, x: int, rx: multiset<int>, y: int, ry: multiset<int>)
    requires b == rx + multiset{x} && b == ry + multiset{y}
    requires forall d :: d in b ==> x <= d && y <= d
    ensures x == y && rx == ry
  {
    assert rx == b - multiset{x} && ry == b - multiset{y};
  }

  lemma AlikeStep(p: Queue, q: Queue, op: Op)
    requires Alike(p, q)
    ensures Alike(Apply(p, op).0, Apply(q, op).0) && AlikeAnswers(Apply(p, op).1, Apply(q, op).1)
  {
    assert |p.items| == |DepthBag(p)| == |DepthBag(q)| == |q.items|;
    match op
    case PushURL(u, d) => if Admits(p, u) { AlikePush(p, q, u, d); }
    case PopURL => if p.items != [] { AlikePop(p, q); }
    case MarkSeen(_) =>
  }

  /** A checkpoint may list the held items in any order: two loads of rearranged lists answer every
      operation sequence alike, the same pushes accepted and the same depths popped in the same order. */
  lemma {:induction false} LoadOrderIrrelevant(
      items: seq<URLItem>, items': seq<URLItem>, visited: map<string, bool>, maxSize: int, ops: seq<Op>)
    requires Bag(items) == Bag(items')
    ensures var (p, a) := Run(Load(items, visited, maxSize), ops);
      var (q, b) := Run(Load(items', visited, maxSize), ops);
      Alike(p, q) && forall i :: 0 <= i < |ops| ==> AlikeAnswers(a[i], b[i])
  {
    if ops == [] {
      LoadKeeps(items, visited, maxSize);
      LoadKeeps(items', visited, maxSize);
      DepthBagFromBag(Entries(Heapify(items)), Entries(Heapify(items')));
    } else {
      var n := |ops| - 1;
      LoadOrderIrrelevant(items, items', visited, maxSize, ops[..n]);
      AlikeStep(Run(Load(items, visited, maxSize), ops[..n]).0, Run(Load(items', visited, maxSize), ops[..n]).0,
                ops[n]);
    }
  }

  // ---------- the queue updated in place ----------

  lemma LoadOfHeap(items: seq<URLItem>)
    ensures IsHeap(items) ==> Heapify(items) == items
  {
    if IsHeap(items) {
      HeapifyBelowOfHeap(items, |items| / 2);
    }
  }

  /** A map copied entry by entry, in some order. */
  method CopyOf(m: map<string, bool>) returns (copy: map<string, bool>)
    ensures copy == m
  {
    copy := map[];
    var rest := m.Keys;
    while rest != {}
      invariant rest <= m.Keys && copy.Keys == m.Keys - rest
      invariant forall k :: k in copy ==> copy[k] == m[k]
      decreases rest
    {
      var k :| k in rest;
      copy, rest := copy[k := m[k]], rest - {k};
    }
  }

  const DEFAULT_MAX_QUEUE_SIZE := 100000

  class PriorityQueue {
    var items: seq<URLItem>
    var seen: map<string, bool>
    var maxSize: int

    ghost function Value(): Queue
      reads this
    {
      Queue(items, seen, maxSize)
    }

    constructor (maxSize: int)
      ensures Value() == New(maxSize)
    {
      this.items, this.seen, this.maxSize := [], map[], maxSize;
    }

    /** container/heap up. */
    method Up(start: nat)
      requires start < |items|
      modifies this`items
      ensures items == SiftUp(old(items), start)
    {
      var j: nat := start;
      while j != 0 && Less(items, j, Parent(j))
        invariant j < |items|
        invariant SiftUp(items, j) == SiftUp(old(items), start)
      {
        var i := Parent(j);
        items := Swap(items, i, j);
        j := i;
      }
    }

    /** container/heap down. */
    method Down(start: nat, n: nat)
      requires n <= |items|
      modifies this`items
      ensures items == SiftDown(old(items), start, n)
    {
      var i := start;
      while 2 * i + 1 < n
        invariant n <= |items|
        invariant SiftDown(items, i, n) == SiftDown(old(items), start, n)
        decreases n - i
      {
        var j := SmallerChild(items, i, n);
        if !Less(items, j, i) {
          break;
        }
        items := Swap(items, i, j);
        i := j;
      }
    }

    /** container/heap Init. */
    method Init()
      modifies this`items
      ensures items == Heapify(old(items))
    {
      var k: nat := |items| / 2;
      while k > 0
        invariant |items| == |old(items)|
        invariant HeapifyBelow(items, k) == Heapify(old(items))
      {
        k := k - 1;
        Down(k, |items|);
      }
    }

    method PushURL(url: string, depth: int) returns (ok: bool)
      modifies this`items, this`seen
      ensures (Value(), Pushed(ok)) == Apply(old(Value()), Op.PushURL(url, depth))
    {
      if (url in seen && seen[url]) || |items| >= maxSize {
        return false;
      }
      seen := seen[url := true];
      items := items + [URLItem(url, depth, |items|)];
      Up(|items| - 1);
      ok := true;
    }

    method PopURL() returns (item: URLItem, ok: bool)
      modifies this`items
      ensures ok == (old(items) != [])
      ensures ok ==> item == old(items)[0].(index := -1)
      ensures (Value(), if ok then Popped(Strip(item)) else Empty) == Apply(old(Value()), Op.PopURL)
    {
      if |items| == 0 {
        return URLItem("", 0, 0), false;
      }
      var n := |items| - 1;
      items := Swap(items, 0, n);
      ghost var swapped := items;
      Down(0, n);
      SiftDownKeeps(swapped, 0, n);
      assert items[n] == items[n..][0] == swapped[n..][0] == swapped[n];
      item, ok := items[n].(index := -1), true;
      items := items[..n];
    }

    method MarkSeen(url: string)
      modifies this`seen
      ensures Value() == Apply(old(Value()), Op.MarkSeen(url)).0
    {
      seen := seen[url := true];
    }

    /** The copies restore this very queue when they are loaded. */
    method Snapshot() returns (queued: seq<URLItem>, visited: map<string, bool>)
      ensures IsHeap(items) ==> Load(queued, visited, maxSize) == Value()
      ensures Entries(queued) == Entries(items) && visited == seen
    {
      queued := [];
      for i := 0 to |items|
        invariant queued == items[..i]
      {
        queued := queued + [items[i]];
      }
      assert queued == items;
      visited := CopyOf(seen);
      LoadOfHeap(items);
    }

    method LoadFromCheckpoint(queued: seq<URLItem>, visited: map<string, bool>)
      modifies this`items, this`seen
      ensures Value() == Load(queued, visited, old(maxSize))
    {
      items := queued;
      seen := CopyOf(visited);
      Init();
    }
  }
}
