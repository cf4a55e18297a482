/**
 The LRU structures of internal/util/lru_cache.go and internal/util/lru_set.go: a map
 from keys to the nodes of a doubly linked list between two sentinels.

 The two files hold the same linking, unlinking and eviction code, once with values
 and once without; one class models both.  Each method is proved against the
 recency sequence of module Recency, which the ghost field recency holds.
 */
module Lru {
  import opened Collections
  import opened Recency

  class Node<V> {
    const key: string
    var value: V
    var prev: Node?<V>
    var next: Node?<V>

    constructor (key: string, value: V)
      ensures this.key == key && this.value == value
    {
      this.key, this.value, this.prev, this.next := key, value, null, null;
    }
  }

  /** The map sends each key to the node that stands at the key's place in the list. */
  ghost predicate Placed<V>(nodes: seq<Node<V>>, items: map<string, Node<V>>, recency: seq<Item<V>>) {
    && |nodes| == |recency| + 2
    && Unique(recency)
    && items.Keys == Keys(recency)
    && forall i :: 0 <= i < |recency| ==> recency[i].key in items && items[recency[i].key] == nodes[i + 1]
  }

  /** Each listed node carries the key and value of its entry. */
  ghost predicate Labelled<V>(nodes: seq<Node<V>>, recency: seq<Item<V>>)
    reads nodes`value
  {
    |nodes| == |recency| + 2 &&
    forall i :: 0 <= i < |recency| ==> nodes[i + 1].key == recency[i].key && nodes[i + 1].value == recency[i].value
  }

  /** The list after moving position p behind the head. */
  function Moved<T>(nodes: seq<T>, p: nat): (t: seq<T>)
    requires 0 < p < |nodes|
    ensures |t| == |nodes| && t[0] == nodes[0] && t[1] == nodes[p]
    ensures forall i :: 1 < i <= p ==> t[i] == nodes[i - 1]
    ensures forall i :: p < i < |nodes| ==> t[i] == nodes[i]
  {
    [nodes[0], nodes[p]] + RemoveAt(nodes, p)[1..]
  }

  lemma PlacedTouch<V>(nodes: seq<Node<V>>, items: map<string, Node<V>>, recency: seq<Item<V>>, u: Item<V>)
    requires Placed(nodes, items, recency) && u.key in items
    ensures Placed(Moved(nodes, Find(recency, u.key) + 1), items, Touch(recency, u))
  {
    hide Touch, Moved, Unique, Keys;
    TouchShape(recency, u);
    var p := Find(recency, u.key);
    var t, r := Moved(nodes, p + 1), Touch(recency, u);
    forall i | 0 <= i < |r| ensures r[i].key in items && items[r[i].key] == t[i + 1] {
      if i == 0 {
        assert recency[p].key == u.key;
      } else {
        assert r[i] == recency[if i <= p then i - 1 else i];
      }
    }
  }

  lemma LabelledTouch<V>(nodes: seq<Node<V>>, recency: seq<Item<V>>, u: Item<V>)
    requires Unique(recency) && u in recency && Labelled(nodes, recency)
    ensures u.key in Keys(recency) && Labelled(Moved(nodes, Find(recency, u.key) + 1), Touch(recency, u))
  {
    var j :| 0 <= j < |recency| && recency[j] == u;
    TouchShape(recency, u);
    var p := Find(recency, u.key);
    var t, r := Moved(nodes, p + 1), Touch(recency, u);
    forall i | 0 <= i < |r| ensures t[i + 1].key == r[i].key && t[i + 1].value == r[i].value {
      if i > 0 {
        assert r[i] == recency[if i <= p then i - 1 else i];
      }
    }
  }

  lemma PlacedInsert<V>(nodes: seq<Node<V>>, items: map<string, Node<V>>, recency: seq<Item<V>>, u: Item<V>,
                        node: Node<V>)
    requires Placed(nodes, items, recency) && u.key !in items
    ensures Placed([nodes[0], node] + nodes[1..], items[u.key := node], [u] + recency)
  {
    FrontOrBack(recency, u);
    AppendUse(recency, u, u.key);
    var t, r, m := [nodes[0], node] + nodes[1..], [u] + recency, items[u.key := node];
    assert forall i :: 0 <= i < |recency| ==> recency[i].key in Keys(recency);
    forall i | 0 <= i < |r| ensures r[i].key in m && m[r[i].key] == t[i + 1] {
      if i > 0 {
        assert r[i] == recency[i - 1] && t[i + 1] == nodes[i];
      }
    }
  }

  lemma PlacedDropLast<V>(nodes: seq<Node<V>>, items: map<string, Node<V>>, recency: seq<Item<V>>)
    requires Placed(nodes, items, recency) && recency != []
    ensures var n := |recency|;
      Placed(RemoveAt(nodes, n), items - {recency[n - 1].key}, recency[..n - 1])
  {
  }

  lemma SameKeys<V>(s: seq<Item<V>>, t: seq<Item<V>>)
    requires |s| == |t| && forall i :: 0 <= i < |s| ==> s[i].key == t[i].key
    ensures Keys(s) == Keys(t)
  {
  }

  lemma OverwriteThenTouch<V>(s: seq<Item<V>>, u: Item<V>)
    requires u.key in Keys(s) && Unique(s)
    ensures var r := s[Find(s, u.key) := u];
      u.key in Keys(r) && Touch(r, r[Find(r, u.key)]) == Touch(s, u)
  {
    var p := Find(s, u.key);
    SameKeys(s[p := u], s);
    assert Find(s[p := u], u.key) == p;
  }

  lemma SizeOfMap<V>(nodes: seq<Node<V>>, items: map<string, Node<V>>, recency: seq<Item<V>>)
    requires Placed(nodes, items, recency)
    ensures |items| == |recency|
  {
    UniqueSize(recency);
  }

  class Lru<V> {
    const capacity: nat
    var items: map<string, Node<V>>
    const head: Node<V>
    const tail: Node<V>
    ghost var nodes: seq<Node<V>>       // the list, sentinels included
    ghost var recency: seq<Item<V>>     // its entries, most recently used first

    /** The links: from head to tail and back, without repetition. */
    ghost predicate Linked()
      reads this`nodes, nodes`prev, nodes`next
    {
      && |nodes| >= 2 && nodes[0] == head && nodes[|nodes| - 1] == tail
      && (forall i, j :: 0 <= i < j < |nodes| ==> nodes[i] != nodes[j])
      && (forall i {:trigger nodes[i].next} :: 0 <= i < |nodes| - 1 ==> nodes[i].next == nodes[i + 1])
      && (forall i {:trigger nodes[i].prev} :: 0 < i < |nodes| ==> nodes[i].prev == nodes[i - 1])
    }

    ghost predicate Consistent()
      reads this, nodes
    {
      Linked() && Labelled(nodes, recency) && Placed(nodes, items, recency)
    }

    ghost predicate Valid()
      reads this, nodes
    {
      capacity > 0 && Consistent() && |recency| <= capacity
    }

    constructor (capacity: int, zero: V)
      ensures Valid() && recency == [] && fresh(nodes)
      ensures this.capacity == if capacity <= 0 then 1000 else capacity
    {
      this.capacity := if capacity <= 0 then 1000 else capacity;
      this.items := map[];
      var h := new Node("", zero);
      var t := new Node("", zero);
      h.next := t;
      t.prev := h;
      this.head, this.tail := h, t;
      this.nodes := [h, t];
      this.recency := [];
    }

    /** addToHead: link a node in after the head. */
    method AddToHead(node: Node<V>)
      requires Linked() && node !in nodes
      modifies this`nodes, node`prev, node`next, nodes`prev, nodes`next
      ensures Linked() && nodes == [head, node] + old(nodes)[1..]
    {
      assert nodes[0].next == nodes[1];
      node.prev := head;
      node.next := head.next;
      head.next.prev := node;
      head.next := node;
      nodes := [head, node] + nodes[1..];
    }

    /** removeNode: unlink a node between the sentinels. */
    method RemoveNode(node: Node<V>, ghost i: nat)
      requires Linked() && 0 < i < |nodes| - 1 && nodes[i] == node
      modifies this`nodes, nodes`prev, nodes`next
      ensures Linked() && nodes == RemoveAt(old(nodes), i)
    {
      assert nodes[i].prev == nodes[i - 1] && nodes[i].next == nodes[i + 1];
      var prev := node.prev;
      var next := node.next;
      prev.next := next;
      next.prev := prev;
      nodes := nodes[..i] + nodes[i + 1..];
    }

    /** moveToHead. */
    method MoveToHead(node: Node<V>, ghost p: nat)
      requires Linked() && 0 < p < |nodes| - 1 && nodes[p] == node
      modifies this`nodes, nodes`prev, nodes`next
      ensures Linked() && nodes == Moved(old(nodes), p)
    {
      RemoveNode(node, p);
      AddToHead(node);
    }

    /** What moving the node filed under k will do to the arrangement. */
    lemma MoveEffect(k: string) returns (p: nat, u: Item<V>)
      requires Consistent() && k in items
      ensures 0 < p < |nodes| - 1 && nodes[p] == items[k]
      ensures k in Keys(recency) && u == recency[Find(recency, k)] && u.key == k
      ensures Placed(Moved(nodes, p), items, Touch(recency, u)) && Labelled(Moved(nodes, p), Touch(recency, u))
      ensures forall n :: n in Moved(nodes, p) ==> n in nodes
    {
      p := Find(recency, k) + 1;
      u := recency[p - 1];
      PlacedTouch(nodes, items, recency, u);
      LabelledTouch(nodes, recency, u);
    }

    /** moveToHead of the node filed under k. */
    method MoveKeyToHead(k: string)
      requires Consistent() && k in items
      modifies this`nodes, this`recency, nodes`prev, nodes`next
      ensures Consistent() && k in Keys(old(recency))
      ensures recency == Touch(old(recency), old(recency)[Find(old(recency), k)])
      ensures forall k :: 0 <= k < |nodes| ==> nodes[k] in old(nodes)
    {
      hide Linked, Labelled, Placed, Touch, Moved;
      ghost var p, u := MoveEffect(k);
      MoveToHead(items[k], p);
      recency := Touch(recency, u);
    }

    /** removeLRU: unlink and forget the node before the tail, if there is one. */
    method RemoveLRU()
      requires Consistent()
      modifies this`nodes, this`items, this`recency, nodes`prev, nodes`next
      ensures Consistent()
      ensures recency == if old(recency) == [] then [] else old(recency)[..|old(recency)| - 1]
      ensures forall k :: 0 <= k < |nodes| ==> nodes[k] in old(nodes)
    {
      var node := tail.prev;
      assert nodes[|nodes| - 1].prev == nodes[|nodes| - 2];
      if node == head {
        return;
      }
      PlacedDropLast(nodes, items, recency);
      RemoveNode(node, |nodes| - 2);
      items := items - {node.key};
      recency := recency[..|recency| - 1];
    }

    /** What linking in a node under a new key will do to the arrangement. */
    lemma InsertEffect(node: Node<V>)
      requires Consistent() && node.key !in items && node !in nodes
      ensures head in nodes
      ensures var nodes', recency' := [head, node] + nodes[1..], [Item(node.key, node.value)] + recency;
        && Placed(nodes', items[node.key := node], recency') && Labelled(nodes', recency')
        && |items[node.key := node]| == |recency| + 1
        && forall n :: n in nodes' ==> n in nodes || n == node
    {
      PlacedInsert(nodes, items, recency, Item(node.key, node.value), node);
      SizeOfMap([head, node] + nodes[1..], items[node.key := node], [Item(node.key, node.value)] + recency);
    }

    /** Link in a fresh node under a new key, then evict if the map has outgrown the capacity. */
    method InsertNew(key: string, value: V)
      requires Valid() && key !in items
      modifies this`nodes, this`items, this`recency, nodes`prev, nodes`next
      ensures Valid() && recency == Insert(old(recency), capacity, Item(key, value))
      ensures forall k :: 0 <= k < |nodes| ==> nodes[k] in old(nodes) || fresh(nodes[k])
    {
      hide Linked, Labelled, Placed;
      var node := new Node(key, value);
      InsertEffect(node);
      items := items[key := node];
      AddToHead(node);
      recency := [Item(key, value)] + recency;
      if |items| > capacity {
        RemoveLRU();
      }
    }

    /** node.value = value, for the node filed under key. */
    method Overwrite(key: string, value: V)
      requires Consistent() && key in items
      modifies this`recency, nodes`value
      ensures Consistent() && key in Keys(old(recency))
      ensures recency == old(recency)[Find(old(recency), key) := Item(key, value)]
    {
      ghost var p := Find(recency, key);
      var node := items[key];
      assert node == nodes[p + 1];
      node.value := value;
      SameKeys(recency, recency[p := Item(key, value)]);
      recency := recency[p := Item(key, value)];
    }

    // ---------- lru_cache.go ----------

    method Get(key: string) returns (value: V, ok: bool)
      requires Valid()
      modifies this`nodes, this`recency, nodes`prev, nodes`next
      ensures Valid() && ok == (key in Keys(old(recency)))
      ensures ok ==> value == old(recency)[Find(old(recency), key)].value
      ensures recency == if ok then Use(old(recency), capacity, Item(key, value)) else old(recency)
      ensures forall k :: 0 <= k < |nodes| ==> nodes[k] in old(nodes)
    {
      if key !in items {
        return head.value, false;
      }
      TouchShape(recency, recency[Find(recency, key)]);
      MoveKeyToHead(key);
      value, ok := items[key].value, true;
    }

    method Put(key: string, value: V)
      requires Valid()
      modifies this`nodes, this`items, this`recency, nodes`prev, nodes`next, nodes`value
      ensures Valid() && recency == Use(old(recency), capacity, Item(key, value))
      ensures forall k :: 0 <= k < |nodes| ==> nodes[k] in old(nodes) || fresh(nodes[k])
    {
      hide Linked, Labelled;
      if key in items {
        OverwriteThenTouch(recency, Item(key, value));
        TouchShape(recency, Item(key, value));
        Overwrite(key, value);
        MoveKeyToHead(key);
      } else {
        InsertNew(key, value);
      }
    }

    method PutIfAbsent(key: string, value: V) returns (kept: V, added: bool)
      requires Valid()
      modifies this`nodes, this`items, this`recency, nodes`prev, nodes`next
      ensures Valid() && added == (key !in Keys(old(recency)))
      ensures kept == if added then value else old(recency)[Find(old(recency), key)].value
      ensures recency == Use(old(recency), capacity, Item(key, kept))
      ensures forall k :: 0 <= k < |nodes| ==> nodes[k] in old(nodes) || fresh(nodes[k])
    {
      if key in items {
        TouchShape(recency, recency[Find(recency, key)]);
        MoveKeyToHead(key);
        kept, added := items[key].value, false;
      } else {
        InsertNew(key, value);
        kept, added := value, true;
      }
    }

    // ---------- lru_set.go: the same structure, values ignored ----------

    method Add(key: string, unit: V)
      requires Valid()
      modifies this`nodes, this`items, this`recency, nodes`prev, nodes`next
      ensures Valid()
      ensures key in Keys(old(recency)) ==> recency == Touch(old(recency), old(recency)[Find(old(recency), key)])
      ensures key !in Keys(old(recency)) ==> recency == Insert(old(recency), capacity, Item(key, unit))
      ensures forall k :: 0 <= k < |nodes| ==> nodes[k] in old(nodes) || fresh(nodes[k])
    {
      hide Linked, Labelled;
      if key in items {
        TouchShape(recency, recency[Find(recency, key)]);
        MoveKeyToHead(key);
      } else {
        InsertNew(key, unit);
      }
    }

    method AddIfAbsent(key: string, unit: V) returns (added: bool)
      requires Valid()
      modifies this`nodes, this`items, this`recency, nodes`prev, nodes`next
      ensures Valid() && added == (key !in Keys(old(recency)))
      ensures recency == if added then Insert(old(recency), capacity, Item(key, unit)) else old(recency)
      ensures forall k :: 0 <= k < |nodes| ==> nodes[k] in old(nodes) || fresh(nodes[k])
    {
      if key in items {
        return false;
      }
      InsertNew(key, unit);
      added := true;
    }

    method Contains(key: string) returns (present: bool)
      requires Valid()
      ensures present == (key in Keys(recency))
    {
      present := key in items;
    }

    method Len() returns (n: nat)
      requires Valid()
      ensures n == |recency|
    {
      SizeOfMap(nodes, items, recency);
      n := |items|;
    }

    method Clear()
      requires Valid()
      modifies this`nodes, this`items, this`recency, head`next, tail`prev
      ensures Valid() && recency == []
      ensures nodes == [head, tail]
    {
      items := map[];
      head.next := tail;
      tail.prev := head;
      nodes, recency := [head, tail], [];
    }
  }
}
