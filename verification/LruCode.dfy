/**
 * What the operations of the LRU cache do to the recency list and the byte
 * count, undefined behaviour included.
 */
module LruCode {
  import opened Sequences

  const U64: int := 0x1_0000_0000_0000_0000

  datatype Entry = Entry(key: string, value: string)

  function Weight(e: Entry): (w: nat)
    ensures w == |e.key| + |e.value|
  {
    |e.key| + |e.value|
  }

  /** Entries from the least to the most recently used, and `_current_size`. */
  datatype Cache = Cache(entries: seq<Entry>, size: int)

  /** `Fault` is a null dereference or the use of a freed node. */
  datatype Outcome = Fault | Ok(cache: Cache)

  /** `size_t` arithmetic. */
  function Wrap(n: int): int {
    n % U64
  }

  function Last(es: seq<Entry>): Entry
    requires es != []
  {
    es[|es| - 1]
  }

  /** The position of a key, or the length of the list. */
  function Find(es: seq<Entry>, key: string): (p: nat)
    ensures p <= |es| && (p < |es| ==> es[p].key == key)
    ensures forall k :: 0 <= k < p ==> es[k].key != key
  {
    if es == [] || es[0].key == key then 0 else 1 + Find(es[1..], key)
  }

  /**
   * `_remove_node`: takes the weight of the last entry off the count; the only
   * entry leaves an empty head, and one in the middle an empty `next`, that is
   * then dereferenced.
   */
  function RemoveAt(c: Cache, k: nat): Outcome
    requires k < |c.entries|
  {
    if |c.entries| == 1 || 0 < k < |c.entries| - 1 then Fault
    else Ok(Cache(WithoutAt(c.entries, k), Wrap(c.size - Weight(Last(c.entries)))))
  }

  /**
   * An eviction loop: removes the head while the count and `delta` exceed the
   * limit. `pinned` is the position of the entry being updated, or the length
   * of the list: once that one is the head, the loop frees it.
   */
  function Evict(c: Cache, pinned: nat, delta: int, limit: int): Outcome
    requires pinned <= |c.entries|
    decreases |c.entries|
  {
    if Wrap(c.size + delta) <= limit then Ok(c)
    else if |c.entries| <= 1 || pinned == 0 then Fault
    else Evict(Cache(c.entries[1..], Wrap(c.size - Weight(Last(c.entries)))), pinned - 1, delta, limit)
  }

  lemma {:induction false} EvictKeepsSuffix(c: Cache, pinned: nat, delta: int, limit: int)
    requires pinned <= |c.entries| && Evict(c, pinned, delta, limit).Ok?
    ensures var left := Evict(c, pinned, delta, limit).cache.entries;
            |left| <= |c.entries| && |c.entries| - |left| <= pinned && left == c.entries[|c.entries| - |left|..]
    decreases |c.entries|
  {
    hide Wrap, Weight, Last;
    if Wrap(c.size + delta) > limit {
      EvictKeepsSuffix(Cache(c.entries[1..], Wrap(c.size - Weight(Last(c.entries)))), pinned - 1, delta, limit);
    }
  }

  /** `_insert_new_value` */
  function Insert(c: Cache, max: int, key: string, value: string): Outcome {
    match Evict(c, |c.entries|, 0, max - |key| - |value|)
    case Fault => Fault
    case Ok(d) => Ok(Cache(d.entries + [Entry(key, value)], Wrap(d.size + |key| + |value|)))
  }

  /** `_update_value` of the entry at `p` */
  function Update(c: Cache, max: int, p: nat, value: string): Outcome
    requires p < |c.entries|
  {
    var delta := Wrap(|value| - |c.entries[p].value|);
    match Evict(c, p, delta, max)
    case Fault => Fault
    case Ok(d) =>
      EvictKeepsSuffix(c, p, delta, max);
      var q := p - (|c.entries| - |d.entries|);
      Ok(Cache(WithoutAt(d.entries, q) + [Entry(c.entries[p].key, value)], Wrap(d.size + delta)))
  }

  /** `_update_value`, spelled out. */
  lemma UpdateIs(c: Cache, max: int, p: nat, value: string, delta: int)
    requires p < |c.entries| && delta == |value| - |c.entries[p].value|
    ensures var evicted := Evict(c, p, Wrap(delta), max);
            if evicted.Fault? then Update(c, max, p, value) == Fault
            else
              var d := evicted.cache;
              && |d.entries| <= |c.entries| && |c.entries| - |d.entries| <= p
              && var q := p - (|c.entries| - |d.entries|);
                 Update(c, max, p, value) ==
                   Ok(Cache(WithoutAt(d.entries, q) + [Entry(c.entries[p].key, value)], Wrap(d.size + Wrap(delta))))
  {
    hide Evict, Wrap, WithoutAt;
    if Evict(c, p, Wrap(delta), max).Ok? {
      EvictKeepsSuffix(c, p, Wrap(delta), max);
    }
  }

  // ---------- Operations ----------

  datatype Op =
    | Put(key: string, value: string)
    | PutIfAbsent(key: string, value: string)
    | Set(key: string, value: string)
    | Delete(key: string)
    | Get(key: string)

  /** What an operation returns: its flag, and for `Get` the value found. */
  datatype Reply = Reply(ok: bool, value: string)

  datatype Result = Broken | Done(cache: Cache, reply: Reply)

  function Replied(o: Outcome, reply: Reply): Result {
    match o case Fault => Broken case Ok(c) => Done(c, reply)
  }

  function Run(c: Cache, max: int, op: Op): Result {
    var p := Find(c.entries, op.key);
    var found := p < |c.entries|;
    var yes, no := Reply(true, ""), Reply(false, "");
    match op
    case Put(key, value) =>
      if |key| + |value| > max then Done(c, no)
      else if !found then Replied(Insert(c, max, key, value), yes)
      else Replied(Update(c, max, p, value), yes)
    case PutIfAbsent(key, value) =>
      if |key| + |value| > max || found then Done(c, no) else Replied(Insert(c, max, key, value), yes)
    case Set(key, value) =>
      if |key| + |value| > max || !found then Done(c, no) else Replied(Update(c, max, p, value), yes)
    case Delete(_) =>
      if !found then Done(c, no) else Replied(RemoveAt(c, p), yes)
    case Get(_) =>
      if !found then Done(c, no)
      else Done(c.(entries := WithoutAt(c.entries, p) + [c.entries[p]]), Reply(true, c.entries[p].value))
  }

  lemma GetIs(c: Cache, max: int, key: string, p: nat)
    requires p == Find(c.entries, key) < |c.entries|
    ensures Run(c, max, Get(key)) ==
      Done(c.(entries := WithoutAt(c.entries, p) + [c.entries[p]]), Reply(true, c.entries[p].value))
  {
  }
}
