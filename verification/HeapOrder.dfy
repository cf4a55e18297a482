/**
 The binary heap under the crawl queue: the sift operations of Go's container/heap
 acting on items ordered by depth (internal/queue/heap.go), as functions on
 sequences, and what they keep.
 */
module HeapOrder {
  /** A queued URL.  Index is the item's own record of its position. */
  datatype URLItem = URLItem(url: string, depth: int, index: int)

  /** An item without its Index: what the caller pushed. */
  datatype Entry = Entry(url: string, depth: int)

  function Strip(x: URLItem): Entry {
    Entry(x.url, x.depth)
  }

  function Entries(s: seq<URLItem>): (r: seq<Entry>)
    ensures |r| == |s| && forall i :: 0 <= i < |s| ==> r[i] == Strip(s[i])
  {
    seq(|s|, i requires 0 <= i < |s| => Strip(s[i]))
  }

  /** The contents, regardless of arrangement. */
  function Bag(s: seq<URLItem>): multiset<Entry> {
    multiset(Entries(s))
  }

  predicate Less(s: seq<URLItem>, i: nat, j: nat)
    requires i < |s| && j < |s|
  {
    s[i].depth < s[j].depth
  }

  function Swap(s: seq<URLItem>, i: nat, j: nat): (r: seq<URLItem>)
    requires i < |s| && j < |s|
    ensures |r| == |s|
  {
    s[i := s[j].(index := i)][j := s[i].(index := j)]
  }

  function Parent(j: nat): (i: nat)
    ensures j > 0 ==> i < j
  {
    if j == 0 then 0 else (j - 1) / 2
  }

  function SiftUp(s: seq<URLItem>, j: nat): (r: seq<URLItem>)
    requires j < |s|
    ensures |r| == |s|
    decreases j
  {
    if j == 0 || !Less(s, j, Parent(j)) then s else SiftUp(Swap(s, Parent(j), j), Parent(j))
  }

  /** The child that container/heap compares with its parent: the right one only if strictly smaller. */
  function SmallerChild(s: seq<URLItem>, i: nat, n: nat): (j: nat)
    requires 2 * i + 1 < n <= |s|
    ensures j < n && (j == 2 * i + 1 || j == 2 * i + 2) && Parent(j) == i
    ensures forall c: nat :: c < n && c > 0 && Parent(c) == i ==> s[j].depth <= s[c].depth
  {
    if 2 * i + 2 < n && Less(s, 2 * i + 2, 2 * i + 1) then 2 * i + 2 else 2 * i + 1
  }

  function SiftDown(s: seq<URLItem>, i: nat, n: nat): (r: seq<URLItem>)
    requires n <= |s|
    ensures |r| == |s|
    decreases n - i
  {
    if 2 * i + 1 >= n then s
    else
      var j := SmallerChild(s, i, n);
      if !Less(s, j, i) then s else SiftDown(Swap(s, i, j), j, n)
  }

  /** heap.Init: sift down from position k - 1 to 0. */
  function HeapifyBelow(s: seq<URLItem>, k: nat): (r: seq<URLItem>)
    ensures |r| == |s|
    decreases k
  {
    if k == 0 then s else HeapifyBelow(SiftDown(s, k - 1, |s|), k - 1)
  }

  function Heapify(s: seq<URLItem>): (r: seq<URLItem>)
    ensures |r| == |s|
  {
    HeapifyBelow(s, |s| / 2)
  }

  // ---------- heap order ----------

  /** Every parent at or above position lo is no deeper than its children within the first n. */
  ghost predicate HeapFrom(s: seq<URLItem>, lo: nat, n: nat)
    requires n <= |s|
  {
    forall j: nat :: 0 < j < n && Parent(j) >= lo ==> s[Parent(j)].depth <= s[j].depth
  }

  ghost predicate IsHeap(s: seq<URLItem>) {
    HeapFrom(s, 0, |s|)
  }

  /** Heap order with a hole at i: i may be too deep for its children, but its parent is not. */
  ghost predicate HoleAt(s: seq<URLItem>, lo: nat, n: nat, i: nat)
    requires n <= |s|
  {
    && (forall j: nat :: 0 < j < n && Parent(j) >= lo && Parent(j) != i ==> s[Parent(j)].depth <= s[j].depth)
    && (forall j: nat :: 0 < j < n && Parent(j) == i && 0 < i && Parent(i) >= lo ==> s[Parent(i)].depth <= s[j].depth)
  }

  lemma {:induction false} SiftDownOrders(s: seq<URLItem>, lo: nat, i: nat, n: nat)
    requires n <= |s| && lo <= i && HoleAt(s, lo, n, i)
    ensures HeapFrom(SiftDown(s, i, n), lo, n)
    decreases n - i
  {
    if 2 * i + 1 < n {
      var j := SmallerChild(s, i, n);
      if Less(s, j, i) {
        SiftDownOrders(Swap(s, i, j), lo, j, n);
      }
    }
  }

  /** Heap order except that j may be too shallow for its parent. */
  ghost predicate Rising(s: seq<URLItem>, j: nat) {
    && (forall c: nat :: 0 < c < |s| && c != j ==> s[Parent(c)].depth <= s[c].depth)
    && (forall c: nat :: 0 < c < |s| && 0 < j && Parent(c) == j && Parent(j) < |s| ==> s[Parent(j)].depth <= s[c].depth)
  }

  lemma {:induction false} SiftUpOrders(s: seq<URLItem>, j: nat)
    requires j < |s| && Rising(s, j)
    ensures IsHeap(SiftUp(s, j))
    decreases j
  {
    if j != 0 && Less(s, j, Parent(j)) {
      SiftUpOrders(Swap(s, Parent(j), j), Parent(j));
    }
  }

  lemma {:induction false} HeapifyBelowOrders(s: seq<URLItem>, k: nat)
    requires HeapFrom(s, k, |s|)
    ensures IsHeap(HeapifyBelow(s, k))
    decreases k
  {
    if k != 0 {
      SiftDownOrders(s, k - 1, k - 1, |s|);
      HeapifyBelowOrders(SiftDown(s, k - 1, |s|), k - 1);
    }
  }

  /** heap.Init orders any sequence. */
  lemma HeapifyOrders(s: seq<URLItem>)
    ensures IsHeap(Heapify(s))
  {
    HeapifyBelowOrders(s, |s| / 2);
  }

  /** The root is a least element. */
  lemma {:induction false} RootIsLeast(s: seq<URLItem>, j: nat)
    requires IsHeap(s) && j < |s|
    ensures s[0].depth <= s[j].depth
  {
    if j > 0 {
      RootIsLeast(s, Parent(j));
    }
  }

  lemma {:induction false} HeapifyBelowOfHeap(s: seq<URLItem>, k: nat)
    requires IsHeap(s)
    ensures HeapifyBelow(s, k) == s
  {
    if k != 0 {
      assert SiftDown(s, k - 1, |s|) == s;
      HeapifyBelowOfHeap(s, k - 1);
    }
  }

  // ---------- contents and Index ----------

  ghost predicate Positioned(s: seq<URLItem>) {
    forall i :: 0 <= i < |s| ==> s[i].index == i
  }

  lemma SwapKeeps(s: seq<URLItem>, i: nat, j: nat)
    requires i < |s| && j < |s|
    ensures Bag(Swap(s, i, j)) == Bag(s)
    ensures Positioned(s) ==> Positioned(Swap(s, i, j))
  {
    var e := Entries(s);
    assert Entries(Swap(s, i, j)) == e[i := e[j]][j := e[i]];
  }

  lemma {:induction false} SiftUpKeeps(s: seq<URLItem>, j: nat)
    requires j < |s|
    ensures Bag(SiftUp(s, j)) == Bag(s)
    ensures Positioned(s) ==> Positioned(SiftUp(s, j))
    decreases j
  {
    if j != 0 && Less(s, j, Parent(j)) {
      SwapKeeps(s, Parent(j), j);
      SiftUpKeeps(Swap(s, Parent(j), j), Parent(j));
    }
  }

  lemma {:induction false} SiftDownKeeps(s: seq<URLItem>, i: nat, n: nat)
    requires n <= |s|
    ensures Bag(SiftDown(s, i, n)) == Bag(s)
    ensures Positioned(s) ==> Positioned(SiftDown(s, i, n))
    ensures SiftDown(s, i, n)[n..] == s[n..]
    decreases n - i
  {
    if 2 * i + 1 < n {
      var j := SmallerChild(s, i, n);
      if Less(s, j, i) {
        SwapKeeps(s, i, j);
        SiftDownKeeps(Swap(s, i, j), j, n);
      }
    }
  }

  lemma {:induction false} HeapifyBelowKeeps(s: seq<URLItem>, k: nat)
    ensures Bag(HeapifyBelow(s, k)) == Bag(s)
    ensures Positioned(s) ==> Positioned(HeapifyBelow(s, k))
    decreases k
  {
    hide SiftDown, Bag, Positioned;
    if k != 0 {
      SiftDownKeeps(s, k - 1, |s|);
      HeapifyBelowKeeps(SiftDown(s, k - 1, |s|), k - 1);
    }
  }

  // ---------- which positions heap.Init moves ----------

  function Depths(b: seq<Entry>): (r: seq<int>)
    ensures |r| == |b| && forall i :: 0 <= i < |b| ==> r[i] == b[i].depth
  {
    seq(|b|, i requires 0 <= i < |b| => b[i].depth)
  }

  function DepthsOf(s: seq<URLItem>): (d: seq<int>)
    ensures |d| == |s| && forall i :: 0 <= i < |s| ==> d[i] == s[i].depth
  {
    Depths(Entries(s))
  }

  /** Sifting down on bare depths: the depths afterwards, and the positions that took part in a swap. */
  function Sink(d: seq<int>, i: nat, n: nat): (r: (seq<int>, set<nat>))
    requires n <= |d|
    ensures |r.0| == |d|
    decreases n - i
  {
    if 2 * i + 1 >= n then (d, {})
    else
      var j := if 2 * i + 2 < n && d[2 * i + 2] < d[2 * i + 1] then 2 * i + 2 else 2 * i + 1;
      if d[j] >= d[i] then (d, {})
      else
        var (d', moved) := Sink(d[i := d[j]][j := d[i]], j, n);
        (d', moved + {i, j})
  }

  function MovedBelow(d: seq<int>, k: nat): set<nat>
    decreases k
  {
    if k == 0 then {} else var (d', moved) := Sink(d, k - 1, |d|); moved + MovedBelow(d', k - 1)
  }

  /** The positions that heap.Init moves, from the depths alone. */
  function Moved(d: seq<int>): set<nat> {
    MovedBelow(d, |d| / 2)
  }

  /** Positions outside moved hold what they held, the others an item whose Index is right. */
  ghost predicate MovedOnly(s: seq<URLItem>, r: seq<URLItem>, moved: set<nat>) {
    && |r| == |s|
    && forall p :: 0 <= p < |s| ==> if p in moved then r[p].index == p else r[p] == s[p]
  }

  lemma SwapMoves(s: seq<URLItem>, i: nat, j: nat, r: seq<URLItem>, moved: set<nat>)
    requires i < |s| && j < |s|
    ensures var d := DepthsOf(s); DepthsOf(Swap(s, i, j)) == d[i := d[j]][j := d[i]]
    ensures MovedOnly(Swap(s, i, j), r, moved) ==> MovedOnly(s, r, moved + {i, j})
  {
    hide DepthsOf;
  }

  lemma {:induction false} SiftDownMoves(s: seq<URLItem>, i: nat, n: nat)
    requires n <= |s|
    ensures DepthsOf(SiftDown(s, i, n)) == Sink(DepthsOf(s), i, n).0
    ensures MovedOnly(s, SiftDown(s, i, n), Sink(DepthsOf(s), i, n).1)
    decreases n - i
  {
    hide DepthsOf, MovedOnly, Swap;
    if 2 * i + 1 < n && Less(s, SmallerChild(s, i, n), i) {
      var j := SmallerChild(s, i, n);
      SiftDownMoves(Swap(s, i, j), j, n);
      SwapMoves(s, i, j, SiftDown(s, i, n), Sink(DepthsOf(Swap(s, i, j)), j, n).1);
    } else {
      NothingMoved(s);
    }
  }

  lemma NothingMoved(s: seq<URLItem>)
    ensures MovedOnly(s, s, {})
  {
  }

  lemma {:induction false} HeapifyBelowMoves(s: seq<URLItem>, k: nat)
    ensures MovedOnly(s, HeapifyBelow(s, k), MovedBelow(DepthsOf(s), k))
    decreases k
  {
    hide SiftDown, Sink;
    if k != 0 {
      SiftDownMoves(s, k - 1, |s|);
      HeapifyBelowMoves(SiftDown(s, k - 1, |s|), k - 1);
    }
  }

  /** heap.Init moves nothing exactly when the list is in heap order. */
  lemma NothingMovedIff(s: seq<URLItem>)
    ensures Moved(DepthsOf(s)) == {} <==> IsHeap(s)
  {
    if IsHeap(s) {
      HeapMovesNothing(s, |s| / 2);
    } else {
      HeapifyBelowMoves(s, |s| / 2);
      HeapifyOrders(s);
      assert Heapify(s) != s;
    }
  }

  lemma {:induction false} HeapMovesNothing(s: seq<URLItem>, k: nat)
    requires IsHeap(s)
    ensures MovedBelow(DepthsOf(s), k) == {}
  {
    if k != 0 {
      var d := DepthsOf(s);
      var i := k - 1;
      assert Sink(d, i, |s|) == (d, {}) by {
        if 2 * i + 1 < |s| {
          assert Parent(2 * i + 1) == i && s[i].depth <= s[2 * i + 1].depth;
          assert 2 * i + 2 < |s| ==> Parent(2 * i + 2) == i && s[i].depth <= s[2 * i + 2].depth;
        }
      }
      HeapMovesNothing(s, k - 1);
    }
  }
}
