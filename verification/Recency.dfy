/**
 Bounded recency sequences: the value of the LRU structures of internal/util, most
 recently used entry first, and the law that defines least-recently-used eviction.
 */
module Recency {
  import opened Collections

  datatype Item<V> = Item(key: string, value: V)

  ghost predicate Unique<V>(s: seq<Item<V>>) {
    forall i, j :: 0 <= i < j < |s| ==> s[i].key != s[j].key
  }

  function Keys<V>(s: seq<Item<V>>): set<string> {
    set i | 0 <= i < |s| :: s[i].key
  }

  function Find<V>(s: seq<Item<V>>, k: string): (i: nat)
    requires k in Keys(s)
    ensures i < |s| && s[i].key == k
    ensures forall j :: 0 <= j < i ==> s[j].key != k
  {
    if s[0].key == k then 0 else 1 + Find(s[1..], k)
  }

  /** The entry with u's key replaced by u, at the front. */
  function Touch<V>(s: seq<Item<V>>, u: Item<V>): seq<Item<V>>
    requires u.key in Keys(s)
  {
    [u] + RemoveAt(s, Find(s, u.key))
  }

  /** A new entry in front; past the capacity the last one goes. */
  function Insert<V>(s: seq<Item<V>>, capacity: nat, u: Item<V>): seq<Item<V>> {
    var t := [u] + s;
    if |t| > capacity then t[..|t| - 1] else t
  }

  function Use<V>(s: seq<Item<V>>, capacity: nat, u: Item<V>): seq<Item<V>> {
    if u.key in Keys(s) then Touch(s, u) else Insert(s, capacity, u)
  }

  /** The structure after a history of uses. */
  function After<V>(h: seq<Item<V>>, capacity: nat): seq<Item<V>> {
    if h == [] then [] else Use(After(h[..|h| - 1], capacity), capacity, h[|h| - 1])
  }

  // ---------- the least-recently-used law ----------

  /** The distinct keys used since the last use of k. */
  function Newer<V>(h: seq<Item<V>>, k: string): set<string> {
    if h == [] || h[|h| - 1].key == k then {} else Newer(h[..|h| - 1], k) + {h[|h| - 1].key}
  }

  /** Position in the sequence equals the number of keys used since. */
  ghost predicate Ranked<V>(s: seq<Item<V>>, h: seq<Item<V>>) {
    && Unique(s)
    && forall p :: 0 <= p < |s| ==> s[p].key in Keys(h) && Newer(h, s[p].key) == Keys(s[..p])
  }

  lemma {:induction false} UniqueSize<V>(s: seq<Item<V>>)
    requires Unique(s)
    ensures |Keys(s)| == |s|
  {
    if s != [] {
      var n := |s| - 1;
      UniqueSize(s[..n]);
      assert Keys(s) == Keys(s[..n]) + {s[n].key};
    }
  }

  lemma AppendUse<V>(h: seq<Item<V>>, u: Item<V>, k: string)
    ensures Keys(h + [u]) == Keys(h) + {u.key}
    ensures Newer(h + [u], k) == if u.key == k then {} else Newer(h, k) + {u.key}
  {
    var h' := h + [u];
    assert h'[..|h|] == h && h'[|h|] == u;
    forall x | x in Keys(h) ensures x in Keys(h') {
      var i :| 0 <= i < |h| && h[i].key == x;
      assert h'[i].key == x;
    }
  }

  lemma TouchShape<V>(s: seq<Item<V>>, u: Item<V>)
    requires u.key in Keys(s) && Unique(s)
    ensures var t, p := Touch(s, u), Find(s, u.key);
      && |t| == |s| && t[0] == u && Unique(t) && Keys(t) == Keys(s)
      && (forall q :: 0 < q <= p ==> t[q] == s[q - 1])
      && (forall q :: p < q < |s| ==> t[q] == s[q])
  {
    var t, p := Touch(s, u), Find(s, u.key);
    assert forall q :: 0 < q <= p ==> t[q] == s[q - 1];
    assert forall q :: p < q < |s| ==> t[q] == s[q];
    RotatedKeys(s, t, p, |s|);
    assert s[..|s|] == s && t[..|s|] == t;
  }

  lemma TouchRanked<V>(s: seq<Item<V>>, h: seq<Item<V>>, u: Item<V>)
    requires Ranked(s, h) && u.key in Keys(s)
    ensures Ranked(Touch(s, u), h + [u])
  {
    var t, p := Touch(s, u), Find(s, u.key);
    TouchShape(s, u);
    forall q | 0 <= q < |t| ensures t[q].key in Keys(h + [u]) && Newer(h + [u], t[q].key) == Keys(t[..q]) {
      AppendUse(h, u, t[q].key);
      if 0 < q <= p {
        ShiftedKeys(s, t, u, q);
      } else if p < q {
        RotatedKeys(s, t, p, q);
        assert s[..q][p].key == u.key;
      }
    }
  }

  lemma ShiftedKeys<V>(s: seq<Item<V>>, t: seq<Item<V>>, u: Item<V>, q: nat)
    requires 0 < q <= |t| && q - 1 <= |s| && t[0].key == u.key
    requires forall i :: 0 < i < q ==> t[i] == s[i - 1]
    ensures Keys(t[..q]) == Keys(s[..q - 1]) + {u.key}
  {
    assert t[..q] == [t[0]] + s[..q - 1];
    forall k | k in Keys(s[..q - 1]) ensures k in Keys(t[..q]) {
      var i :| 0 <= i < q - 1 && s[..q - 1][i].key == k;
      assert t[..q][i + 1].key == k;
    }
    assert t[..q][0].key == u.key;
  }

  lemma RotatedKeys<V>(s: seq<Item<V>>, t: seq<Item<V>>, p: nat, q: nat)
    requires p < q <= |s| == |t| && t[0].key == s[p].key
    requires forall i :: 0 < i <= p ==> t[i] == s[i - 1]
    requires forall i :: p < i < |s| ==> t[i] == s[i]
    ensures Keys(t[..q]) == Keys(s[..q])
  {
    forall k | k in Keys(s[..q]) ensures k in Keys(t[..q]) {
      var i :| 0 <= i < q && s[..q][i].key == k;
      assert t[..q][if i < p then i + 1 else if i == p then 0 else i].key == k;
    }
    forall k | k in Keys(t[..q]) ensures k in Keys(s[..q]) {
      var i :| 0 <= i < q && t[..q][i].key == k;
      assert s[..q][if i == 0 then p else if i <= p then i - 1 else i].key == k;
    }
  }

  lemma InsertRanked<V>(s: seq<Item<V>>, h: seq<Item<V>>, u: Item<V>)
    requires Ranked(s, h) && u.key !in Keys(s)
    ensures Ranked([u] + s, h + [u])
  {
    var t := [u] + s;
    forall q | 0 <= q < |t| ensures t[q].key in Keys(h + [u]) && Newer(h + [u], t[q].key) == Keys(t[..q]) {
      AppendUse(h, u, t[q].key);
      if q > 0 {
        ShiftedKeys(s, t, u, q);
        assert s[q - 1].key in Keys(s);
      }
    }
  }

  lemma PrefixRanked<V>(s: seq<Item<V>>, h: seq<Item<V>>, n: nat)
    requires Ranked(s, h) && n <= |s|
    ensures Ranked(s[..n], h)
  {
    forall p | 0 <= p < n ensures s[..n][p].key in Keys(h) && Newer(h, s[..n][p].key) == Keys(s[..n][..p]) {
      assert s[..n][..p] == s[..p];
    }
  }

  /** A key leaves only when capacity other keys have been used since, and stays away until used again. */
  ghost predicate Dropped<V>(s: seq<Item<V>>, h: seq<Item<V>>, capacity: nat) {
    forall k :: k in Keys(h) && k !in Keys(s) ==> |Newer(h, k)| >= capacity
  }

  lemma DroppedStep<V>(s: seq<Item<V>>, h: seq<Item<V>>, capacity: nat, u: Item<V>)
    requires capacity > 0 && |s| <= capacity && Ranked(s, h) && Dropped(s, h, capacity)
    ensures Dropped(Use(s, capacity, u), h + [u], capacity)
  {
    hide Newer, Touch, Insert, Unique;
    var s' := Use(s, capacity, u);
    forall k | k in Keys(h + [u]) && k !in Keys(s') ensures |Newer(h + [u], k)| >= capacity {
      AppendUse(h, u, k);
      UsedIsFront(s, capacity, u);
      if k !in Keys(s) {
        CardinalGrows(Newer(h, k), u.key);
      } else if u.key in Keys(s) {
        TouchShape(s, u);
      } else {
        PushedOut(s, capacity, u, k);
        UniqueSize(s[..|s| - 1]);
      }
    }
  }

  lemma UsedIsFront<V>(s: seq<Item<V>>, capacity: nat, u: Item<V>)
    requires capacity > 0
    ensures u.key in Keys(Use(s, capacity, u))
  {
    assert Use(s, capacity, u)[0] == u;
  }

  lemma FrontOrBack<V>(s: seq<Item<V>>, u: Item<V>)
    ensures Keys([u] + s) == Keys(s + [u])
  {
    assert forall i :: 0 <= i < |s| ==> ([u] + s)[i + 1] == s[i] == (s + [u])[i];
    assert ([u] + s)[0] == u == (s + [u])[|s|];
    forall k | k in Keys(s + [u]) ensures k in Keys([u] + s) {
      var i :| 0 <= i < |s + [u]| && (s + [u])[i].key == k;
      assert ([u] + s)[if i < |s| then i + 1 else 0].key == k;
    }
    forall k | k in Keys([u] + s) ensures k in Keys(s + [u]) {
      var i :| 0 <= i < |[u] + s| && ([u] + s)[i].key == k;
      assert (s + [u])[if i > 0 then i - 1 else |s|].key == k;
    }
  }

  /** What an insertion can push out is the last entry, and only at capacity. */
  lemma PushedOut<V>(s: seq<Item<V>>, capacity: nat, u: Item<V>, k: string)
    requires |s| <= capacity && Unique(s) && u.key !in Keys(s)
    requires k in Keys(s) && k !in Keys(Insert(s, capacity, u))
    ensures |s| == capacity && s != [] && s[|s| - 1].key == k && Insert(s, capacity, u) == [u] + s[..|s| - 1]
    ensures Unique(s[..|s| - 1])
    ensures u.key !in Keys(s[..|s| - 1]) && Keys(s) == Keys(s[..|s| - 1]) + {k}
  {
    var t := Insert(s, capacity, u);
    forall i | 0 <= i < |t| - 1 ensures s[i].key in Keys(t) {
      assert t[i + 1].key == s[i].key;
    }
  }

  lemma CardinalGrows(a: set<string>, x: string)
    ensures |a + {x}| >= |a|
  {
    if x in a {
      assert a + {x} == a;
    }
  }

  lemma UseRanked<V>(s: seq<Item<V>>, h: seq<Item<V>>, capacity: nat, u: Item<V>)
    requires |s| <= capacity && Ranked(s, h)
    ensures Ranked(Use(s, capacity, u), h + [u]) && |Use(s, capacity, u)| <= capacity
  {
    if u.key in Keys(s) {
      TouchShape(s, u);
      TouchRanked(s, h, u);
    } else {
      InsertRanked(s, h, u);
      PrefixRanked([u] + s, h + [u], |Insert(s, capacity, u)|);
      assert ([u] + s)[..|s| + 1] == [u] + s;
    }
  }

  lemma {:induction false} AfterInvariant<V>(h: seq<Item<V>>, capacity: nat)
    requires capacity > 0
    ensures var s := After(h, capacity); |s| <= capacity && Ranked(s, h) && Dropped(s, h, capacity)
  {
    if h != [] {
      var n := |h| - 1;
      var s := After(h[..n], capacity);
      AfterInvariant(h[..n], capacity);
      assert h[..n] + [h[n]] == h;
      UseRanked(s, h[..n], capacity, h[n]);
      DroppedStep(s, h[..n], capacity, h[n]);
    }
  }

  /** The law of LRU: after any history, exactly those keys are present that were used and since whose
      last use fewer than capacity distinct other keys were used; and a key's position is that number. */
  lemma LruLaw<V>(h: seq<Item<V>>, capacity: nat, k: string)
    requires capacity > 0
    ensures var s := After(h, capacity);
      && Unique(s) && |s| <= capacity
      && (k in Keys(s) <==> k in Keys(h) && |Newer(h, k)| < capacity)
      && (k in Keys(s) ==> Find(s, k) == |Newer(h, k)|)
  {
    AfterInvariant(h, capacity);
    var s := After(h, capacity);
    if k in Keys(s) {
      UniqueSize(s[..Find(s, k)]);
    }
  }

  /** The key an insertion pushes out was used, and every other key present was used since. */
  lemma EvictsLeastRecent<V>(h: seq<Item<V>>, capacity: nat, u: Item<V>, k: string)
    requires capacity > 0
    requires k in Keys(After(h, capacity)) && k !in Keys(After(h + [u], capacity))
    ensures Newer(h, k) == Keys(After(h, capacity)) - {k}
    ensures Keys(After(h + [u], capacity)) == Keys(After(h, capacity)) - {k} + {u.key}
  {
    var s := After(h, capacity);
    AfterInvariant(h, capacity);
    assert (h + [u])[..|h|] == h;
    if u.key in Keys(s) {
      TouchShape(s, u);
    } else {
      PushedOut(s, capacity, u, k);
      var rest := s[..|s| - 1];
      assert Newer(h, k) == Keys(rest) && k !in Keys(rest);
      AppendUse(rest, u, k);
      FrontOrBack(rest, u);
    }
  }

  // ---------- whole runs of calls ----------

  datatype CacheOp<V> = Get(key: string) | Put(key: string, value: V) | PutIfAbsent(key: string, value: V)

  datatype CacheAnswer<V> = Hit(value: V) | Miss | Stored | Existing(value: V) | Added

  function ApplyCache<V>(s: seq<Item<V>>, capacity: nat, op: CacheOp<V>): (seq<Item<V>>, CacheAnswer<V>) {
    match op
    case Get(k) =>
      if k !in Keys(s) then (s, Miss)
      else var v := s[Find(s, k)].value; (Use(s, capacity, Item(k, v)), Hit(v))
    case Put(k, v) => (Use(s, capacity, Item(k, v)), Stored)
    case PutIfAbsent(k, v) =>
      if k !in Keys(s) then (Use(s, capacity, Item(k, v)), Added)
      else var old' := s[Find(s, k)].value; (Use(s, capacity, Item(k, old')), Existing(old'))
  }

  function RunCache<V>(capacity: nat, ops: seq<CacheOp<V>>): (r: (seq<Item<V>>, seq<CacheAnswer<V>>))
    ensures |r.1| == |ops|
  {
    if ops == [] then ([], [])
    else
      var (s, answers) := RunCache(capacity, ops[..|ops| - 1]);
      var (s', a) := ApplyCache(s, capacity, ops[|ops| - 1]);
      (s', answers + [a])
  }

  /** The entry a call uses: none for a Get that misses. */
  function UseOf<V>(op: CacheOp<V>, a: CacheAnswer<V>): seq<Item<V>> {
    if a.Hit? || a.Existing? then [Item(op.key, a.value)]
    else if op.Get? then []
    else [Item(op.key, op.value)]
  }

  function History<V>(ops: seq<CacheOp<V>>, answers: seq<CacheAnswer<V>>): seq<Item<V>>
    requires |ops| == |answers|
  {
    if ops == [] then []
    else
      var n := |ops| - 1;
      History(ops[..n], answers[..n]) + UseOf(ops[n], answers[n])
  }

  /** A call changes the sequence by exactly the use it reports. */
  lemma CallIsUse<V>(s: seq<Item<V>>, capacity: nat, op: CacheOp<V>)
    ensures var (s', a) := ApplyCache(s, capacity, op);
      s' == if UseOf(op, a) == [] then s else Use(s, capacity, UseOf(op, a)[0])
  {
  }

  lemma AfterAppend<V>(h: seq<Item<V>>, u: seq<Item<V>>, capacity: nat)
    requires |u| <= 1
    ensures After(h + u, capacity) == if u == [] then After(h, capacity) else Use(After(h, capacity), capacity, u[0])
  {
    hide Use;
    if u == [] {
      assert h + u == h;
    } else {
      assert (h + u)[..|h|] == h && (h + u)[|h|] == u[0];
    }
  }

  lemma {:induction false} RunFollowsHistory<V>(capacity: nat, ops: seq<CacheOp<V>>)
    ensures RunCache(capacity, ops).0 == After(History(ops, RunCache(capacity, ops).1), capacity)
  {
    hide Use, ApplyCache, UseOf, After;
    if ops == [] {
      assert After<V>([], capacity) == [] by { AfterNothing<V>(capacity); }
    } else {
      var n := |ops| - 1;
      RunFollowsHistory(capacity, ops[..n]);
      var (s, answers) := RunCache(capacity, ops[..n]);
      var a := ApplyCache(s, capacity, ops[n]).1;
      assert (answers + [a])[..n] == answers;
      CallIsUse(s, capacity, ops[n]);
      OneUse(ops[n], a);
      AfterAppend(History(ops[..n], answers), UseOf(ops[n], a), capacity);
    }
  }

  lemma AfterNothing<V>(capacity: nat)
    ensures After<V>([], capacity) == []
  {
  }

  lemma OneUse<V>(op: CacheOp<V>, a: CacheAnswer<V>)
    ensures |UseOf(op, a)| <= 1
  {
  }

  /** After any run of calls a Get finds exactly the keys used with fewer than capacity distinct other
      keys used since. */
  lemma CacheHolds<V>(capacity: nat, ops: seq<CacheOp<V>>, k: string)
    requires capacity > 0
    ensures var (s, answers) := RunCache(capacity, ops);
      var h := History(ops, answers);
      && |s| <= capacity
      && (ApplyCache(s, capacity, Get(k)).1 != Miss <==> k in Keys(h) && |Newer(h, k)| < capacity)
  {
    RunFollowsHistory(capacity, ops);
    LruLaw(History(ops, RunCache(capacity, ops).1), capacity, k);
  }

  /** The value last written to k: by a Put, or by a PutIfAbsent that added it. */
  function LastWrite<V>(ops: seq<CacheOp<V>>, answers: seq<CacheAnswer<V>>, k: string): Option<V>
    requires |ops| == |answers|
  {
    if ops == [] then None
    else
      var n := |ops| - 1;
      if ops[n].key == k && (ops[n].Put? || (ops[n].PutIfAbsent? && answers[n].Added?)) then Some(ops[n].value)
      else LastWrite(ops[..n], answers[..n], k)
  }

  ghost predicate HoldsLastWrites<V>(s: seq<Item<V>>, ops: seq<CacheOp<V>>, answers: seq<CacheAnswer<V>>)
    requires |ops| == |answers|
  {
    forall i :: 0 <= i < |s| ==> LastWrite(ops, answers, s[i].key) == Some(s[i].value)
  }

  /** The entries after a use are the used one and entries that were there. */
  lemma UseEntries<V>(s: seq<Item<V>>, capacity: nat, u: Item<V>, e: Item<V>)
    requires Unique(s) && e in Use(s, capacity, u)
    ensures e == u || (e in s && e.key != u.key)
  {
  }

  /** A hit returns the value last written, however many evictions and re-insertions lie between. */
  lemma {:induction false} HitReturnsLastWrite<V>(capacity: nat, ops: seq<CacheOp<V>>)
    requires capacity > 0
    ensures var (s, answers) := RunCache(capacity, ops);
      && HoldsLastWrites(s, ops, answers)
      && forall i :: 0 <= i < |ops| && answers[i].Hit? ==>
           LastWrite(ops[..i], answers[..i], ops[i].key) == Some(answers[i].value)
  {
    if ops != [] {
      var n := |ops| - 1;
      HitReturnsLastWrite(capacity, ops[..n]);
      var (s, answers) := RunCache(capacity, ops[..n]);
      var (s', a) := ApplyCache(s, capacity, ops[n]);
      RunFollowsHistory(capacity, ops[..n]);
      AfterInvariant(History(ops[..n], answers), capacity);
      assert (answers + [a])[..n] == answers;
      forall i | 0 <= i < |s'| ensures LastWrite(ops, answers + [a], s'[i].key) == Some(s'[i].value) {
        LastWriteStep(s, capacity, ops, answers, s'[i]);
      }
      forall i | 0 <= i < |ops| && (answers + [a])[i].Hit?
        ensures LastWrite(ops[..i], (answers + [a])[..i], ops[i].key) == Some((answers + [a])[i].value)
      {
        assert i < n ==> ops[..i] == ops[..n][..i] && (answers + [a])[..i] == answers[..i];
      }
    }
  }

  lemma LastWriteStep<V>(s: seq<Item<V>>, capacity: nat, ops: seq<CacheOp<V>>, answers: seq<CacheAnswer<V>>, e: Item<V>)
    requires ops != [] && |answers| == |ops| - 1 && Unique(s)
    requires HoldsLastWrites(s, ops[..|ops| - 1], answers)
    requires e in ApplyCache(s, capacity, ops[|ops| - 1]).0
    ensures LastWrite(ops, answers + [ApplyCache(s, capacity, ops[|ops| - 1]).1], e.key) == Some(e.value)
  {
    hide Use;
    var n := |ops| - 1;
    var a := ApplyCache(s, capacity, ops[n]).1;
    assert (answers + [a])[..n] == answers;
    CallIsUse(s, capacity, ops[n]);
    var u := UseOf(ops[n], a);
    if u != [] {
      UseEntries(s, capacity, u[0], e);
    }
  }

  // ---------- the set ----------

  datatype SetOp = Add(key: string) | AddIfAbsent(key: string) | Contains(key: string)

  function ApplySet(s: seq<Item<()>>, capacity: nat, op: SetOp): (seq<Item<()>>, bool) {
    match op
    case Add(k) => (Use(s, capacity, Item(k, ())), true)
    case AddIfAbsent(k) => if k in Keys(s) then (s, false) else (Use(s, capacity, Item(k, ())), true)
    case Contains(k) => (s, k in Keys(s))
  }

  function RunSet(capacity: nat, ops: seq<SetOp>): (r: (seq<Item<()>>, seq<bool>))
    ensures |r.1| == |ops|
  {
    if ops == [] then ([], [])
    else
      var (s, answers) := RunSet(capacity, ops[..|ops| - 1]);
      var (s', a) := ApplySet(s, capacity, ops[|ops| - 1]);
      (s', answers + [a])
  }

  /** Add always uses its key; AddIfAbsent only when it adds; Contains never. */
  function SetHistory(ops: seq<SetOp>, answers: seq<bool>): seq<Item<()>>
    requires |ops| == |answers|
  {
    if ops == [] then []
    else
      var n := |ops| - 1;
      SetHistory(ops[..n], answers[..n]) + SetUseOf(ops[n], answers[n])
  }

  function SetUseOf(op: SetOp, answer: bool): (u: seq<Item<()>>)
    ensures |u| <= 1
  {
    if !op.Contains? && answer then [Item(op.key, ())] else []
  }

  lemma {:induction false} SetFollowsHistory(capacity: nat, ops: seq<SetOp>)
    ensures RunSet(capacity, ops).0 == After(SetHistory(ops, RunSet(capacity, ops).1), capacity)
  {
    hide Use;
    if ops != [] {
      var n := |ops| - 1;
      SetFollowsHistory(capacity, ops[..n]);
      var (s, answers) := RunSet(capacity, ops[..n]);
      var a := ApplySet(s, capacity, ops[n]).1;
      assert (answers + [a])[..n] == answers;
      AfterAppend(SetHistory(ops[..n], answers), SetUseOf(ops[n], a), capacity);
    }
  }

  /** After any run of calls the set contains exactly the keys used with fewer than capacity distinct
      other keys used since. */
  lemma SetHolds(capacity: nat, ops: seq<SetOp>, k: string)
    requires capacity > 0
    ensures var (s, answers) := RunSet(capacity, ops);
      var h := SetHistory(ops, answers);
      && |s| <= capacity
      && (ApplySet(s, capacity, Contains(k)).1 <==> k in Keys(h) && |Newer(h, k)| < capacity)
  {
    SetFollowsHistory(capacity, ops);
    LruLaw(SetHistory(ops, RunSet(capacity, ops).1), capacity, k);
  }
}
