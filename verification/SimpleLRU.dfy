/** The LRU cache on its nodes: an owning doubly linked list and a hash index over it. */
module SimpleLRU {
  import opened LruCode
  import opened Sequences

  class Node {
    const key: string
    var value: string
    var next: Node?
    var prev: Node?

    constructor (key: string, value: string)
      ensures this.key == key && this.value == value && next == null && prev == null
    {
      this.key, this.value, next, prev := key, value, null, null;
    }
  }

  ghost function EntriesOf(nodes: seq<Node>): (r: seq<Entry>)
    reads nodes
    ensures |r| == |nodes| && Describe(r, nodes)
  {
    if nodes == [] then []
    else [Entry(nodes[0].key, nodes[0].value)] + EntriesOf(nodes[1..])
  }

  /** The entries recorded for some nodes are still theirs. */
  ghost predicate Describe(entries: seq<Entry>, nodes: seq<Node>)
    reads nodes
  {
    |entries| == |nodes| && forall i :: 0 <= i < |nodes| ==> entries[i] == Entry(nodes[i].key, nodes[i].value)
  }

  lemma EntriesWithout(entries: seq<Entry>, nodes: seq<Node>, k: nat)
    requires Describe(entries, nodes) && k < |nodes|
    ensures EntriesOf(WithoutAt(nodes, k)) == WithoutAt(entries, k)
  {
    hide EntriesOf;
    var left, rest := WithoutAt(nodes, k), WithoutAt(entries, k);
    assert forall i :: 0 <= i < |left| ==> left[i] == nodes[if i < k then i else i + 1];
    assert forall i :: 0 <= i < |rest| ==> rest[i] == entries[if i < k then i else i + 1];
    hide WithoutAt;
    assert EntriesOf(left) == rest;
  }

  ghost function At(nodes: seq<Node>, i: int): Node? {
    if 0 <= i < |nodes| then nodes[i] else null
  }

  /** Distinct nodes whose `next` and `prev` run along the sequence. */
  ghost predicate AreLinked(nodes: seq<Node>)
    reads nodes`next, nodes`prev
  {
    && HaveDistinctKeys(nodes)
    && (forall i {:trigger nodes[i].next} :: 0 <= i < |nodes| ==> nodes[i].next == At(nodes, i + 1))
    && (forall i {:trigger nodes[i].prev} :: 0 <= i < |nodes| ==> nodes[i].prev == At(nodes, i - 1))
  }

  /** The index holds exactly the nodes of the list. */
  ghost predicate IsIndex(index: map<string, Node>, nodes: seq<Node>) {
    && (forall i :: 0 <= i < |nodes| ==> nodes[i].key in index && index[nodes[i].key] == nodes[i])
    && (forall key :: key in index ==> index[key] in nodes && index[key].key == key)
  }

  ghost predicate HaveDistinctKeys(nodes: seq<Node>) {
    forall i, j :: 0 <= i < j < |nodes| ==> nodes[i].key != nodes[j].key
  }

  lemma ErasedIndex(index: map<string, Node>, nodes: seq<Node>, k: nat)
    requires IsIndex(index, nodes) && HaveDistinctKeys(nodes) && k < |nodes|
    ensures IsIndex(index - {nodes[k].key}, WithoutAt(nodes, k)) && HaveDistinctKeys(WithoutAt(nodes, k))
  {
    var left := WithoutAt(nodes, k);
    assert forall i :: 0 <= i < |left| ==> left[i] == nodes[if i < k then i else i + 1];
    forall key | key in index && key != nodes[k].key
      ensures index[key] in left
    {
      var i :| 0 <= i < |nodes| && nodes[i] == index[key];
      assert left[if i < k then i else i - 1] == nodes[i];
    }
  }

  lemma ErasedKeys(nodes: seq<Node>, k: nat)
    requires HaveDistinctKeys(nodes) && k < |nodes|
    ensures HaveDistinctKeys(WithoutAt(nodes, k))
  {
  }

  lemma MovedIsLinked(nodes: seq<Node>, k: nat)
    requires HaveDistinctKeys(nodes) && k < |nodes|
    ensures HaveDistinctKeys(WithoutAt(nodes, k) + [nodes[k]]) && nodes[k] !in WithoutAt(nodes, k)
  {
    ErasedKeys(nodes, k);
  }

  /** Once the neighbours of a node skip it, the others are linked. */
  lemma DetachedIsLinked(nodes: seq<Node>, k: nat)
    requires HaveDistinctKeys(nodes) && k < |nodes| - 1
    requires forall i {:trigger nodes[i].next} :: 0 <= i < |nodes| && i != k ==>
               nodes[i].next == At(nodes, if i == k - 1 then k + 1 else i + 1)
    requires forall i {:trigger nodes[i].prev} :: 0 <= i < |nodes| && i != k ==>
               nodes[i].prev == At(nodes, if i == k + 1 then k - 1 else i - 1)
    ensures AreLinked(WithoutAt(nodes, k))
  {
    var left := WithoutAt(nodes, k);
    ErasedKeys(nodes, k);
    forall i | 0 <= i < |left|
      ensures left[i].next == At(left, i + 1) && left[i].prev == At(left, i - 1)
    {
      var j := if i < k then i else i + 1;
      assert left[i] == nodes[j];
      assert nodes[j].next == At(nodes, if j == k - 1 then k + 1 else j + 1);
      assert nodes[j].prev == At(nodes, if j == k + 1 then k - 1 else j - 1);
    }
  }

  lemma NewKey(index: map<string, Node>, nodes: seq<Node>, node: Node)
    requires IsIndex(index, nodes) && HaveDistinctKeys(nodes) && node.key !in index
    ensures node !in nodes && HaveDistinctKeys(nodes + [node])
    ensures IsIndex(index[node.key := node], nodes + [node])
  {
  }

  lemma AddedEntry(entries: seq<Entry>, nodes: seq<Node>, node: Node)
    requires Describe(entries, nodes)
    ensures EntriesOf(nodes + [node]) == entries + [Entry(node.key, node.value)]
  {
    assert Describe(entries + [Entry(node.key, node.value)], nodes + [node]);
  }

  lemma MovedIndex(index: map<string, Node>, nodes: seq<Node>, k: nat)
    requires IsIndex(index, nodes) && k < |nodes|
    ensures IsIndex(index, WithoutAt(nodes, k) + [nodes[k]])
  {
    var moved := WithoutAt(nodes, k) + [nodes[k]];
    assert forall i :: 0 <= i < |nodes| ==>
      nodes[i] == moved[if i < k then i else if i == k then |nodes| - 1 else i - 1];
    assert forall i :: 0 <= i < |nodes| ==>
      moved[i] == nodes[if i == |nodes| - 1 then k else if i < k then i else i + 1];
  }

  lemma MovedEntries(entries: seq<Entry>, nodes: seq<Node>, k: nat)
    requires Describe(entries, nodes) && k < |nodes|
    ensures EntriesOf(WithoutAt(nodes, k) + [nodes[k]]) == WithoutAt(entries, k) + [entries[k]]
  {
    EntriesWithout(entries, nodes, k);
    AddedEntry(WithoutAt(entries, k), WithoutAt(nodes, k), nodes[k]);
  }

  lemma WithoutFirst<T>(xs: seq<T>)
    requires xs != []
    ensures WithoutAt(xs, 0) == xs[1..]
  {
  }

  lemma WrapRange(n: int)
    ensures 0 <= Wrap(n) < U64
  {
  }

  lemma EntryOf(nodes: seq<Node>, k: nat)
    requires k < |nodes|
    ensures EntriesOf(nodes)[k] == Entry(nodes[k].key, nodes[k].value)
  {
  }

  class Lru {
    const maxSize: int
    var currentSize: int
    var head: Node?
    var tail: Node?
    var index: map<string, Node>
    /** The list from `head` to `tail`. */
    ghost var nodes: seq<Node>

    /** Head, tail and links run along `nodes`. */
    ghost predicate IsList()
      reads this`head, this`tail, this`nodes, nodes`next, nodes`prev
    {
      && AreLinked(nodes)
      && head == At(nodes, 0) && tail == At(nodes, |nodes| - 1)
    }

    ghost predicate Valid()
      reads this, nodes
    {
      0 <= maxSize < U64 && 0 <= currentSize < U64 && IsList() && IsIndex(index, nodes)
    }

    ghost function View(): Cache
      reads this, nodes
    {
      Cache(EntriesOf(nodes), currentSize)
    }

    constructor (maxSize: int)
      requires 0 <= maxSize < U64
      ensures Valid() && View() == Cache([], 0) && this.maxSize == maxSize && fresh(this)
    {
      this.maxSize, currentSize, head, tail, index, nodes := maxSize, 0, null, null, map[], [];
    }

    lemma HeadAndTail()
      requires AreLinked(nodes) && nodes != [] && head == nodes[0] && tail == nodes[|nodes| - 1]
      ensures IsList()
    {
    }

    lemma ListFacts()
      requires IsList()
      ensures HaveDistinctKeys(nodes)
      ensures if nodes == [] then head == null && tail == null else head == nodes[0] && tail == nodes[|nodes| - 1]
    {
    }

    /** `_remove_node` of the head; false where an empty new head is dereferenced. */
    method UnlinkHead() returns (ok: bool)
      requires IsList() && nodes != []
      modifies this`head, this`nodes, nodes`next, nodes`prev
      ensures ok <==> |old(nodes)| > 1
      ensures ok ==> IsList() && nodes == old(nodes)[1..]
    {
      ghost var before := nodes;
      var removed := head;
      head := removed.next;
      removed.next := null;
      if head == null {
        return false;
      }
      head.prev := null;
      nodes := nodes[1..];
      assert forall i :: 0 <= i < |nodes| ==> nodes[i] == before[i + 1];
      return true;
    }

    /** `_remove_node` of the tail, when it is not the head. */
    method UnlinkTail()
      requires IsList() && |nodes| > 1
      modifies this`tail, this`nodes, nodes`next, nodes`prev
      ensures IsList() && nodes == old(nodes)[..|old(nodes)| - 1]
    {
      assert nodes[|nodes| - 1].prev == nodes[|nodes| - 2];
      tail.prev.next := null;
      tail := tail.prev;
      tail.next := null;
      nodes := nodes[..|nodes| - 1];
    }

    /** `_remove_node`, as far as the list goes. Returns false where a null pointer is dereferenced. */
    method Unlink(node: Node, ghost k: nat) returns (ok: bool)
      requires IsList() && k < |nodes| && nodes[k] == node
      modifies this`head, this`tail, this`nodes, nodes`next, nodes`prev
      ensures ok <==> |old(nodes)| > 1 && (k == 0 || k == |old(nodes)| - 1)
      ensures ok ==> IsList() && nodes == WithoutAt(old(nodes), k)
    {
      ghost var before := nodes;
      assert node == head <==> k == 0;
      assert node == tail <==> k == |nodes| - 1;
      if node == head {
        ok := UnlinkHead();
        assert before[1..] == WithoutAt(before, 0);
      } else if node == tail {
        UnlinkTail();
        ok := true;
        assert before[..|before| - 1] == WithoutAt(before, k);
      } else {
        assert nodes[k].prev == nodes[k - 1];
        // the swap empties `next` of the removed node, and that `next` is dereferenced
        node.prev.next, node.next := node.next, null;
        ok := false;
      }
    }

    /** `_remove_node` */
    method RemoveNode(node: Node, ghost k: nat) returns (ok: bool)
      requires Valid() && k < |nodes| && nodes[k] == node
      modifies this, nodes`next, nodes`prev
      ensures ok <==> RemoveAt(old(View()), k).Ok?
      ensures ok ==> Valid() && nodes == WithoutAt(old(nodes), k) && Ok(View()) == RemoveAt(old(View()), k)
      ensures index == old(index) - {node.key}
    {
      hide EntriesOf, IsList, AreLinked, At, HaveDistinctKeys, WithoutAt, IsIndex;
      ListFacts();
      ghost var before, entries := nodes, EntriesOf(nodes);
      ErasedIndex(index, nodes, k);
      index := index - {node.key};
      currentSize := Wrap(currentSize - (|tail.key| + |tail.value|));
      ok := Unlink(node, k);
      if ok {
        assert Describe(entries, before);
        EntriesWithout(entries, before, k);
      }
    }

    /** Links the neighbours of a node to each other; the node keeps itself in its `next`. */
    method Detach(node: Node, ghost k: nat)
      requires IsList() && k < |nodes| - 1 && nodes[k] == node
      modifies this`head, nodes`next, nodes`prev
      ensures node.next == node && head == (if k == 0 then nodes[1] else nodes[0])
      ensures forall i {:trigger nodes[i].next} :: 0 <= i < |nodes| && i != k ==>
                nodes[i].next == At(nodes, if i == k - 1 then k + 1 else i + 1)
      ensures forall i {:trigger nodes[i].prev} :: 0 <= i < |nodes| && i != k ==>
                nodes[i].prev == At(nodes, if i == k + 1 then k - 1 else i - 1)
    {
      assert node == head <==> k == 0;
      assert nodes[k].next == nodes[k + 1];
      if node == head {
        head, node.next := node.next, head;
        head.prev := null;
      } else {
        assert nodes[k].prev == nodes[k - 1] && nodes[k - 1].next == nodes[k];
        node.next.prev := node.prev;
        node.prev.next, node.next := node.next, node.prev.next;
      }
    }

    /** Links a node that is in no list behind the tail. */
    method Append(node: Node)
      requires IsList() && nodes != [] && node !in nodes && HaveDistinctKeys(nodes + [node])
      modifies this`tail, this`nodes, nodes`next, node`next, node`prev
      ensures IsList() && nodes == old(nodes) + [node]
    {
      ListFacts();
      ghost var before := nodes;
      tail.next := node;
      node.next := null;
      node.prev := tail;
      tail := node;
      nodes := nodes + [node];
      forall i | 0 <= i < |before|
        ensures nodes[i].next == At(nodes, i + 1) && nodes[i].prev == At(nodes, i - 1)
      {
        assert nodes[i] == before[i] && (i < |before| - 1 ==> before[i] != before[|before| - 1]);
        assert old(before[i].next) == At(before, i + 1) && old(before[i].prev) == At(before, i - 1);
      }
    }

    /** `_move_to_fresh_data`; the swap moves the node's ownership of itself to the tail. */
    method MoveToFresh(node: Node, ghost k: nat)
      requires IsList() && k < |nodes| && nodes[k] == node
      modifies this`head, this`tail, this`nodes, nodes`next, nodes`prev
      ensures IsList() && nodes == WithoutAt(old(nodes), k) + [node]
    {
      hide AreLinked, At;
      ghost var before := nodes;
      ListFacts();
      if node == tail {
        assert k == |before| - 1 && before == WithoutAt(before, k) + [node];
        return;
      }
      Detach(node, k);
      MovedIsLinked(before, k);
      DetachedIsLinked(before, k);
      nodes := WithoutAt(nodes, k);
      HeadAndTail();
      Append(node);
    }

    /** One turn of an eviction loop. */
    lemma EvictOnce(c: Cache, pinned: nat, delta: int, limit: int)
      requires Wrap(c.size + delta) > limit && pinned <= |c.entries|
      ensures c.entries != [] ==>
                Evict(c, pinned, delta, limit) ==
                  if RemoveAt(c, 0).Fault? || pinned == 0 then Fault
                  else Evict(RemoveAt(c, 0).cache, pinned - 1, delta, limit)
      ensures c.entries == [] ==> Evict(c, pinned, delta, limit) == Fault
    {
      assert c.entries != [] ==> WithoutAt(c.entries, 0) == c.entries[1..];
    }

    /** The loop at the start of `_insert_new_value`. */
    method MakeRoom(limit: int) returns (ok: bool)
      requires Valid() && limit < U64
      modifies this, nodes`next, nodes`prev
      ensures ok <==> Evict(old(View()), |old(View()).entries|, 0, limit).Ok?
      ensures ok ==> Valid() && Ok(View()) == Evict(old(View()), |old(View()).entries|, 0, limit)
      ensures ok ==> forall i :: 0 <= i < |nodes| ==> nodes[i] in old(nodes)
      ensures ok ==> forall key <- index :: key in old(index)
    {
      hide RemoveAt, IsList, IsIndex, EntriesOf, Evict, WithoutAt, Describe, AreLinked, HaveDistinctKeys;
      while currentSize > limit
        invariant Valid()
        invariant Evict(View(), |nodes|, 0, limit) == Evict(old(View()), |old(nodes)|, 0, limit)
        invariant forall i :: 0 <= i < |nodes| ==> nodes[i] in old(nodes)
        invariant forall key <- index :: key in old(index)
        decreases |nodes|
      {
        EvictOnce(View(), |nodes|, 0, limit);
        ListFacts();
        if head == null {
          return false;
        }
        WithoutFirst(nodes);
        ok := RemoveNode(head, 0);
        if !ok {
          return false;
        }
      }
      ok := true;
      EvictStopsHere(View(), |nodes|, limit);
    }

    lemma EvictStopsHere(c: Cache, pinned: nat, limit: int)
      requires 0 <= c.size < U64 && c.size <= limit && pinned <= |c.entries|
      ensures Evict(c, pinned, 0, limit) == Ok(c)
    {
    }

    method LinkNew(node: Node)
      requires IsList() && node !in nodes && HaveDistinctKeys(nodes + [node]) && node.next == null && node.prev == null
      modifies this`head, this`tail, this`nodes, nodes`next, node`next, node`prev
      ensures IsList() && nodes == old(nodes) + [node] && tail == node
    {
      hide AreLinked, HaveDistinctKeys;
      ListFacts();
      if tail != null {
        Append(node);
        ListFacts();
      } else {
        tail := node;
        head := node;
        assert nodes + [node] == [node];
        nodes := [node];
        OneIsLinked(node);
        HeadAndTail();
      }
    }

    /** Links a new node as the freshest and indexes it. */
    method AddNode(key: string, value: string)
      requires Valid() && key !in index
      modifies this, nodes`next
      ensures Valid() && currentSize == Wrap(old(currentSize) + |key| + |value|)
      ensures EntriesOf(nodes) == old(EntriesOf(nodes)) + [Entry(key, value)]
    {
      hide AreLinked, EntriesOf, HaveDistinctKeys, IsIndex, IsList;
      ListFacts();
      ghost var before, entries := nodes, EntriesOf(nodes);
      var node := new Node(key, value);
      NewKey(index, nodes, node);
      LinkNew(node);
      index := index[key := tail];
      currentSize := Wrap(currentSize + |key| + |value|);
      assert Describe(entries, before);
      AddedEntry(entries, before, node);
    }

    lemma OneIsLinked(node: Node)
      requires node.next == null && node.prev == null
      ensures AreLinked([node])
    {
    }

    /** `_insert_new_value` */
    method InsertNewValue(key: string, value: string) returns (ok: bool)
      requires Valid() && key !in index
      modifies this, nodes`next, nodes`prev
      ensures ok <==> Insert(old(View()), maxSize, key, value).Ok?
      ensures ok ==> Valid() && Ok(View()) == Insert(old(View()), maxSize, key, value)
    {
      hide AreLinked, EntriesOf, HaveDistinctKeys, Evict, IsIndex, IsList, Describe, Wrap;
      ok := MakeRoom(maxSize - |key| - |value|);
      if ok {
        AddNode(key, value);
      }
    }

    /** The loop at the start of `_update_value`; false also where it frees the node being updated. */
    method MakeRoomAround(node: Node, ghost k: nat, delta: int) returns (ok: bool, ghost q: nat)
      requires Valid() && k < |nodes| && nodes[k] == node
      modifies this, nodes`next, nodes`prev
      ensures ok <==> Evict(old(View()), k, delta, maxSize).Ok?
      ensures ok ==> Valid() && Ok(View()) == Evict(old(View()), k, delta, maxSize)
      ensures ok ==> forall i :: 0 <= i < |nodes| ==> nodes[i] in old(nodes)
      ensures ok ==> q < |nodes| && nodes[q] == node && q == k - (|old(nodes)| - |nodes|)
    {
      hide RemoveAt, IsList, IsIndex, EntriesOf, Evict, WithoutAt, Describe, Wrap, AreLinked, HaveDistinctKeys;
      q := k;
      while Wrap(currentSize + delta) > maxSize
        invariant Valid() && q < |nodes| && nodes[q] == node
        invariant q == k - (|old(nodes)| - |nodes|)
        invariant Evict(View(), q, delta, maxSize) == Evict(old(View()), k, delta, maxSize)
        invariant forall i :: 0 <= i < |nodes| ==> nodes[i] in old(nodes)
        decreases |nodes|
      {
        EvictOnce(View(), q, delta, maxSize);
        ListFacts();
        if head == node {
          HeadIsFirst(nodes, q);
          return false, q;
        }
        WithoutFirst(nodes);
        ok := RemoveNode(head, 0);
        if !ok {
          return false, q;
        }
        q := q - 1;
      }
      ok := true;
      EvictStopsHereToo(View(), q, delta, maxSize);
    }

    lemma HeadIsFirst(nodes: seq<Node>, q: nat)
      requires HaveDistinctKeys(nodes) && q < |nodes| && nodes[q] == nodes[0]
      ensures q == 0
    {
    }

    lemma EvictStopsHereToo(c: Cache, pinned: nat, delta: int, limit: int)
      requires Wrap(c.size + delta) <= limit && pinned <= |c.entries|
      ensures Evict(c, pinned, delta, limit) == Ok(c)
    {
    }

    /** Stores the value in the node and makes it the freshest. */
    method Refresh(node: Node, ghost k: nat, value: string)
      requires Valid() && k < |nodes| && nodes[k] == node
      modifies this`head, this`tail, this`nodes, nodes
      ensures Valid() && EntriesOf(nodes) == WithoutAt(old(EntriesOf(nodes)), k) + [Entry(node.key, value)]
    {
      hide AreLinked, EntriesOf, HaveDistinctKeys, IsIndex, IsList;
      ghost var before, entries := nodes, EntriesOf(nodes);
      ListFacts();
      node.value := value;
      MovedIndex(index, nodes, k);
      MoveToFresh(node, k);
      MovedEntries(entries[k := Entry(node.key, value)], before, k);
    }

    /** `_update_value` */
    method UpdateValue(node: Node, ghost k: nat, value: string) returns (ok: bool)
      requires Valid() && k < |nodes| && nodes[k] == node
      modifies this, nodes
      ensures ok <==> Update(old(View()), maxSize, k, value).Ok?
      ensures ok ==> Valid() && Ok(View()) == Update(old(View()), maxSize, k, value)
    {
      hide AreLinked, HaveDistinctKeys, Evict, IsIndex, IsList, Wrap, WithoutAt, Update, EntriesOf, Describe;
      EntryOf(nodes, k);
      UpdateIs(View(), maxSize, k, value, |value| - |node.value|);
      var delta := Wrap(|value| - |node.value|);
      ghost var q;
      ok, q := MakeRoomAround(node, k, delta);
      if ok {
        Refresh(node, q, value);
        WrapRange(currentSize + delta);
        currentSize := Wrap(currentSize + delta);
      }
    }

    /** The index finds the node at the key's position in the list. */
    lemma IndexFinds(key: string)
      requires Valid()
      ensures var p := Find(EntriesOf(nodes), key);
              if key in index then p < |nodes| && nodes[p] == index[key] else p == |nodes|
    {
      var entries := EntriesOf(nodes);
      var p := Find(entries, key);
      if p < |nodes| {
        assert entries[p] == Entry(nodes[p].key, nodes[p].value);
      }
      if key in index {
        var i :| 0 <= i < |nodes| && nodes[i] == index[key];
        assert entries[i] == Entry(nodes[i].key, nodes[i].value);
      }
      if key in index && p < |nodes| {
        assert nodes[p].key == key;
      }
    }

    method Put(key: string, value: string) returns (ok: bool, broken: bool)
      requires Valid()
      modifies this, nodes
      ensures broken <==> Run(old(View()), maxSize, LruCode.Put(key, value)).Broken?
      ensures !broken ==> Valid() && Run(old(View()), maxSize, LruCode.Put(key, value)) == Done(View(), Reply(ok, ""))
    {
      hide AreLinked, HaveDistinctKeys, IsIndex, IsList, EntriesOf, Update, Insert, Find;
      IndexFinds(key);
      ghost var p := Find(EntriesOf(nodes), key);
      ok, broken := true, false;
      if |key| + |value| > maxSize {
        ok := false;
        return;
      }
      var done;
      if key !in index {
        done := InsertNewValue(key, value);
      } else {
        done := UpdateValue(index[key], p, value);
      }
      broken := !done;
    }

    method PutIfAbsent(key: string, value: string) returns (ok: bool, broken: bool)
      requires Valid()
      modifies this, nodes
      ensures broken <==> Run(old(View()), maxSize, LruCode.PutIfAbsent(key, value)).Broken?
      ensures !broken ==>
            Valid() && Run(old(View()), maxSize, LruCode.PutIfAbsent(key, value)) == Done(View(), Reply(ok, ""))
    {
      hide AreLinked, HaveDistinctKeys, IsIndex, IsList, EntriesOf, Update, Insert, Find;
      IndexFinds(key);
      ok, broken := false, false;
      if |key| + |value| > maxSize {
        return;
      }
      if key !in index {
        var done := InsertNewValue(key, value);
        ok, broken := true, !done;
      }
    }

    method Set(key: string, value: string) returns (ok: bool, broken: bool)
      requires Valid()
      modifies this, nodes
      ensures broken <==> Run(old(View()), maxSize, LruCode.Set(key, value)).Broken?
      ensures !broken ==> Valid() && Run(old(View()), maxSize, LruCode.Set(key, value)) == Done(View(), Reply(ok, ""))
    {
      hide AreLinked, HaveDistinctKeys, IsIndex, IsList, EntriesOf, Update, Insert, Find;
      IndexFinds(key);
      ghost var p := Find(EntriesOf(nodes), key);
      ok, broken := false, false;
      if |value| + |key| > maxSize {
        return;
      }
      if key in index {
        var done := UpdateValue(index[key], p, value);
        ok, broken := true, !done;
      }
    }

    method Delete(key: string) returns (ok: bool, broken: bool)
      requires Valid()
      modifies this, nodes`next, nodes`prev
      ensures broken <==> Run(old(View()), maxSize, LruCode.Delete(key)).Broken?
      ensures !broken ==> Valid() && Run(old(View()), maxSize, LruCode.Delete(key)) == Done(View(), Reply(ok, ""))
    {
      hide AreLinked, HaveDistinctKeys, IsIndex, IsList, EntriesOf, RemoveAt, Find;
      IndexFinds(key);
      ghost var p := Find(EntriesOf(nodes), key);
      ok, broken := false, false;
      if key in index {
        var done := RemoveNode(index[key], p);
        ok, broken := true, !done;
      }
    }

    method Get(key: string) returns (ok: bool, value: string)
      requires Valid()
      modifies this`head, this`tail, this`nodes, nodes`next, nodes`prev
      ensures Valid() && Run(old(View()), maxSize, LruCode.Get(key)) == Done(View(), Reply(ok, value))
    {
      hide AreLinked, HaveDistinctKeys, IsIndex, IsList, EntriesOf, Find, WithoutAt;
      IndexFinds(key);
      ghost var p, before, entries := Find(EntriesOf(nodes), key), nodes, EntriesOf(nodes);
      ok, value := false, "";
      if key in index {
        EntryOf(nodes, p);
        GetIs(View(), maxSize, key, p);
        hide Run;
        ok, value := true, index[key].value;
        MovedIndex(index, nodes, p);
        MoveToFresh(index[key], p);
        assert Describe(entries, before);
        MovedEntries(entries, before, p);
      }
    }
  }
}
