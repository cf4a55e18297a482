/**
 The sharded map of internal/sync/sharded.go: keys spread over a power-of-two number
 of map partitions by masking a hash.  Each operation is proved against one plain
 map.
 */
module ShardedMap {
  import opened Collections

  // ---------- the number of shards ----------

  /** Fill every bit below the highest set one, of a number that fits 32 bits. */
  function Smear(n: bv64): bv64 {
    var a := n | (n >> 1);
    var b := a | (a >> 2);
    var c := b | (b >> 4);
    var d := c | (c >> 8);
    d | (d >> 16)
  }

  function AtLeastFour(procs: bv64): bv64 {
    if procs < 4 then 4 else procs
  }

  /** The int arithmetic, cut down to a uint32 at the end. */
  function ShardCount(procs: bv64): bv32 {
    ((Smear(AtLeastFour(procs) * 4 - 1) + 1) & 0xFFFF_FFFF) as bv32
  }

  /** The shard count is the least power of two that is at least four per processor and at least 16, exactly up to 2^29
      processors. */
  lemma ShardCountIsLeastPowerIff(procs: bv64)
    ensures var c := ShardCount(procs);
      (c != 0 && c & (c - 1) == 0 && c >= 16 && procs <= (c as bv64) >> 2 && (c == 16 || (c as bv64) >> 3 < procs)) <==>
        procs <= 0x2000_0000
  {
  }

  lemma SomeShards(procs: bv64)
    ensures procs <= 0x2000_0000 ==> ShardCount(procs) as nat > 0
  {
    ShardCountIsLeastPowerIff(procs);
    var c := ShardCount(procs);
    assert c != 0 ==> c as nat > 0;
  }

  // ---------- masking ----------

  /** Bitwise and of two naturals. */
  function And(x: nat, y: nat): (r: nat)
    ensures r <= y
  {
    if y == 0 then 0 else 2 * And(x / 2, y / 2) + (if x % 2 == 1 && y % 2 == 1 then 1 else 0)
  }

  function Pow2(k: nat): (r: nat)
    ensures r > 0
  {
    if k == 0 then 1 else 2 * Pow2(k - 1)
  }

  /** With a power-of-two number of shards the mask takes the remainder, so every shard is used. */
  lemma {:induction false} MaskIsRemainder(h: nat, k: nat)
    ensures And(h, Pow2(k) - 1) == h % Pow2(k)
  {
    hide And;
    if k == 0 {
      assert h % 1 == 0;
    } else {
      var half := Pow2(k - 1);
      MaskIsRemainder(h / 2, k - 1);
      calc {
        And(h, 2 * (half - 1) + 1);
        { AndOdd(h, half - 1); }
        2 * And(h / 2, half - 1) + h % 2;
        2 * (h / 2 % half) + h % 2;
        { RemainderByHalves(h, half); }
        h % (2 * half);
      }
    }
  }

  lemma AndOdd(x: nat, y: nat)
    ensures And(x, 2 * y + 1) == 2 * And(x / 2, y) + x % 2
  {
  }

  lemma RemainderByHalves(h: nat, half: nat)
    requires half > 0
    ensures h % (2 * half) == 2 * (h / 2 % half) + h % 2
  {
    var q, r := h / 2 / half, h / 2 % half;
    assert h / 2 == q * half + r;
    assert h == q * (2 * half) + (2 * r + h % 2);
    UniqueRemainder(h, 2 * half, q, 2 * r + h % 2);
  }

  lemma UniqueRemainder(h: nat, d: nat, q: nat, r: nat)
    requires d > 0 && h == q * d + r && r < d
    ensures h % d == r
  {
    var z := h / d - q;
    assert z * d == (h / d) * d - q * d;
    assert z * d == r - h % d;
    if z >= 1 {
    } else if z <= -1 {
    }
  }

  // ---------- the map ----------

  /** The shards hold the entries of one map, each in the shard its masked hash selects. */
  ghost predicate Partitions<K(!new), V>(shards: seq<map<K, V>>, hash: K -> nat, contents: map<K, V>) {
    && |shards| > 0
    && (forall k :: k in contents <==> k in shards[And(hash(k), |shards| - 1)])
    && (forall k :: k in contents ==> shards[And(hash(k), |shards| - 1)][k] == contents[k])
    && (forall i, k :: 0 <= i < |shards| && k in shards[i] ==> And(hash(k), |shards| - 1) == i)
  }

  /** The keys whose shard comes before i. */
  ghost function Before<K, V>(shards: seq<map<K, V>>, hash: K -> nat, contents: map<K, V>, i: nat): set<K>
    requires |shards| > 0
  {
    set k | k in contents && And(hash(k), |shards| - 1) < i
  }

  lemma BeforeNext<K(!new), V>(shards: seq<map<K, V>>, hash: K -> nat, contents: map<K, V>, i: nat)
    requires Partitions(shards, hash, contents) && i < |shards|
    ensures Before(shards, hash, contents, i + 1) == Before(shards, hash, contents, i) + shards[i].Keys
    ensures Before(shards, hash, contents, i) !! shards[i].Keys
  {
  }

  lemma BeforeEnd<K(!new), V>(shards: seq<map<K, V>>, hash: K -> nat, contents: map<K, V>)
    requires Partitions(shards, hash, contents)
    ensures |shards| > 0 && Before(shards, hash, contents, |shards|) == contents.Keys
    ensures Before(shards, hash, contents, 0) == {}
  {
  }

  class ShardedMap<K(!new, ==), V> {
    var shards: seq<map<K, V>>
    const hash: K -> nat
    ghost var contents: map<K, V>

    ghost predicate Valid()
      reads this
    {
      Partitions(shards, hash, contents)
    }

    function Slot(key: K): (i: nat)
      requires |shards| > 0
      reads this
      ensures i < |shards|
    {
      And(hash(key), |shards| - 1)
    }

    /** Beyond 2^29 processors there may be no shard to put a key in. */
    constructor (procs: bv64, hash: K -> nat)
      ensures procs <= 0x2000_0000 ==> Valid()
      ensures contents == map[] && |shards| == ShardCount(procs) as nat && this.hash == hash
    {
      hide ShardCount, AtLeastFour, And;
      SomeShards(procs);
      var count := ShardCount(procs) as nat;
      this.hash := hash;
      this.contents := map[];
      this.shards := seq(count, _ => map[]);
    }

    method Get(key: K) returns (ok: bool, value: seq<V>)
      requires Valid()
      ensures ok == (key in contents) && value == if ok then [contents[key]] else []
    {
      var items := shards[Slot(key)];
      ok := key in items;
      value := if ok then [items[key]] else [];
    }

    method Set(key: K, value: V)
      requires Valid()
      modifies this
      ensures Valid() && contents == old(contents)[key := value]
    {
      hide And;
      shards := shards[Slot(key) := shards[Slot(key)][key := value]];
      contents := contents[key := value];
    }

    method Delete(key: K)
      requires Valid()
      modifies this
      ensures Valid() && contents == old(contents) - {key}
    {
      hide And;
      shards := shards[Slot(key) := shards[Slot(key)] - {key}];
      contents := contents - {key};
    }

    method GetOrSet(key: K, value: V) returns (actual: V, loaded: bool)
      requires Valid()
      modifies this
      ensures Valid() && loaded == (key in old(contents))
      ensures actual == if loaded then old(contents)[key] else value
      ensures contents == if loaded then old(contents) else old(contents)[key := value]
    {
      hide And;
      var i := Slot(key);
      if key in shards[i] {
        return shards[i][key], true;
      }
      shards := shards[i := shards[i][key := value]];
      contents := contents[key := value];
      actual, loaded := value, false;
    }

    method Len() returns (total: nat)
      requires Valid()
      ensures total == |contents|
    {
      hide Partitions, Before;
      BeforeEnd(shards, hash, contents);
      total := 0;
      for i := 0 to |shards|
        invariant |shards| > 0 && total == |Before(shards, hash, contents, i)|
      {
        BeforeNext(shards, hash, contents, i);
        assert |shards[i].Keys| == |shards[i]|;
        total := total + |shards[i]|;
      }
    }

    /** The keys shard by shard, each exactly once. */
    method Keys() returns (keys: seq<K>)
      requires Valid()
      ensures Enumerates(keys)
    {
      hide Partitions, Before, And;
      BeforeEnd(shards, hash, contents);
      keys := [];
      for i := 0 to |shards|
        invariant |shards| > 0 && |keys| == |Before(shards, hash, contents, i)|
        invariant forall k :: k in keys <==> k in Before(shards, hash, contents, i)
      {
        BeforeNext(shards, hash, contents, i);
        var more := KeysOf(shards[i]);
        assert |shards[i].Keys| == |shards[i]|;
        ConcatIn(keys, more);
        keys := keys + more;
      }
    }

    /** Every key of the map, exactly once. */
    ghost predicate Enumerates(keys: seq<K>)
      reads this
    {
      |keys| == |contents| && forall k :: k in keys <==> k in contents
    }

    /** Range: the function is called on the entries in some order, and on no more after it says false. */
    method Range(fn: (K, V) -> bool) returns (visited: seq<K>, ghost order: seq<K>)
      requires Valid()
      ensures Enumerates(order) && visited <= order
      ensures forall i :: 0 <= i < |visited| - 1 ==> visited[i] in contents && fn(visited[i], contents[visited[i]])
      ensures visited == order || (visited != [] && visited[|visited| - 1] in contents
                                   && !fn(visited[|visited| - 1], contents[visited[|visited| - 1]]))
    {
      hide Partitions;
      var keys := Keys();
      order, visited := keys, [];
      for i := 0 to |keys|
        invariant visited == keys[..i]
        invariant forall j :: 0 <= j < i ==> keys[j] in contents && fn(keys[j], contents[keys[j]])
      {
        assert keys[i] in keys;
        visited := visited + [keys[i]];
        var _, found := Get(keys[i]);
        if !fn(keys[i], found[0]) {
          return;
        }
      }
    }
  }

  /** A map's keys in some order, each once. */
  method KeysOf<K(==), V>(items: map<K, V>) returns (keys: seq<K>)
    ensures |keys| == |items| && forall k :: k in keys <==> k in items
  {
    keys := [];
    var rest := items.Keys;
    while rest != {}
      invariant rest <= items.Keys && |keys| + |rest| == |items|
      invariant forall k :: k in keys <==> k in items.Keys - rest
      decreases rest
    {
      var k :| k in rest;
      keys, rest := keys + [k], rest - {k};
    }
  }
}
