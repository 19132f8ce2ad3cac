/**
 * The map the LRU cache is meant to be: bounded and ordered by recency, with
 * the properties a caller of the cache may rely on.
 */
module LruRefinement {
  import opened LruCode
  import opened Sequences
  import opened Sums

  ghost function WeightOf(): Entry -> int {
    (e: Entry) => Weight(e)
  }

  ghost function TotalWeight(es: seq<Entry>): int {
    Total(es, WeightOf())
  }

  // ---------- The intended map ----------

  /** Drops the least recently used entries until the rest fits. */
  ghost function Shed(es: seq<Entry>, room: int): seq<Entry> {
    if es == [] || TotalWeight(es) <= room then es else Shed(es[1..], room)
  }

  ghost function Without(es: seq<Entry>, key: string): seq<Entry> {
    var p := Find(es, key);
    if p < |es| then WithoutAt(es, p) else es
  }

  /** The stored pair becomes the freshest; others are dropped from the oldest on. */
  ghost function Stored(es: seq<Entry>, max: int, key: string, value: string): seq<Entry> {
    Shed(Without(es, key), max - |key| - |value|) + [Entry(key, value)]
  }

  ghost function Ideal(es: seq<Entry>, max: int, op: Op): (seq<Entry>, Reply) {
    var p := Find(es, op.key);
    var found := p < |es|;
    var yes, no := Reply(true, ""), Reply(false, "");
    match op
    case Put(key, value) => if |key| + |value| > max then (es, no) else (Stored(es, max, key, value), yes)
    case PutIfAbsent(key, value) =>
      if |key| + |value| > max || found then (es, no) else (Stored(es, max, key, value), yes)
    case Set(key, value) =>
      if |key| + |value| > max || !found then (es, no) else (Stored(es, max, key, value), yes)
    case Delete(key) => (Without(es, key), Reply(found, ""))
    case Get(key) => if !found then (es, no) else (WithoutAt(es, p) + [es[p]], Reply(true, es[p].value))
  }

  /** The code did what the map does, and its byte count is right. */
  ghost predicate Agrees(r: Result, ideal: (seq<Entry>, Reply)) {
    r == Done(Cache(ideal.0, TotalWeight(ideal.0)), ideal.1)
  }

  ghost predicate HasDistinctKeys(es: seq<Entry>) {
    forall i, j :: 0 <= i < j < |es| ==> es[i].key != es[j].key
  }

  ghost predicate IsBounded(es: seq<Entry>, max: int) {
    HasDistinctKeys(es) && TotalWeight(es) <= max
  }

  // ---------- Weights ----------

  lemma {:induction false} TotalWeightBounds(es: seq<Entry>)
    ensures TotalWeight(es) >= 0
    ensures forall k :: 0 <= k < |es| ==> Weight(es[k]) <= TotalWeight(es)
  {
    TotalIsNonNegative(es, WeightOf());
    forall k | 0 <= k < |es|
      ensures Weight(es[k]) <= TotalWeight(es)
    {
      assert WeightOf()(es[k]) <= Total(es, WeightOf());
    }
  }

  lemma WeightOfCut(es: seq<Entry>, j: nat)
    requires j <= |es|
    ensures TotalWeight(es) == TotalWeight(es[..j]) + TotalWeight(es[j..])
  {
    TotalOfAppend(es[..j], es[j..], WeightOf());
    assert es == es[..j] + es[j..];
  }

  lemma WeightOfOne(e: Entry)
    ensures TotalWeight([e]) == Weight(e)
  {
    assert [e][1..] == [];
    assert Total([e], WeightOf()) == WeightOf()(e) + Total([e][1..], WeightOf());
  }

  lemma WeightOfAppend(es: seq<Entry>, e: Entry)
    ensures TotalWeight(es + [e]) == TotalWeight(es) + Weight(e)
  {
    TotalOfAppend(es, [e], WeightOf());
    WeightOfOne(e);
  }

  lemma WeightWithoutAt(es: seq<Entry>, k: nat)
    requires k < |es|
    ensures TotalWeight(WithoutAt(es, k)) == TotalWeight(es) - Weight(es[k])
  {
    WeightOfCut(es, k);
    WeightOfCut(es[k..], 1);
    assert es[k..][..1] == [es[k]] && es[k..][1..] == es[k + 1..];
    WeightOfOne(es[k]);
    TotalOfAppend(es[..k], es[k + 1..], WeightOf());
  }

  // ---------- The intended map keeps its bound and drops the oldest only ----------

  lemma {:induction false} ShedDropsOldest(es: seq<Entry>, room: int)
    ensures var left := Shed(es, room);
            && |left| <= |es| && left == es[|es| - |left|..]
            && (left == [] || TotalWeight(left) <= room)
            && forall i :: 0 <= i < |es| - |left| ==> TotalWeight(es[i..]) > room
    decreases |es|
  {
    if es == [] || TotalWeight(es) <= room {
      assert es[0..] == es;
    } else {
      ShedDropsOldest(es[1..], room);
      var left := Shed(es, room);
      forall i | 0 <= i < |es| - |left|
        ensures TotalWeight(es[i..]) > room
      {
        if i == 0 {
          assert es[0..] == es;
        } else {
          assert es[i..] == es[1..][i - 1..];
        }
      }
    }
  }

  /** Every operation of the map keeps keys distinct and the total within the bound. */
  lemma IdealKeepsBound(es: seq<Entry>, max: int, op: Op)
    requires IsBounded(es, max) && max >= 0
    ensures IsBounded(Ideal(es, max, op).0, max)
  {
    var p := Find(es, op.key);
    if p < |es| {
      WeightWithoutAt(es, p);
    }
    var others := Without(es, op.key);
    assert HasDistinctKeys(others) && forall k :: 0 <= k < |others| ==> others[k].key != op.key;
    match op
    case Get(_) =>
      if p < |es| {
        WeightOfAppend(others, es[p]);
      }
    case Delete(_) =>
    case _ =>
      if |op.key| + |op.value| <= max {
        StoredKeepsBound(others, max, op.key, op.value);
      }
  }

  lemma StoredKeepsBound(others: seq<Entry>, max: int, key: string, value: string)
    requires HasDistinctKeys(others) && (forall k :: 0 <= k < |others| ==> others[k].key != key)
    requires |key| + |value| <= max
    ensures IsBounded(Shed(others, max - |key| - |value|) + [Entry(key, value)], max)
  {
    hide Shed, HasDistinctKeys;
    var left := Shed(others, max - |key| - |value|);
    assert TotalWeight([]) == 0;
    hide TotalWeight;
    ShedDropsOldest(others, max - |key| - |value|);
    WeightOfAppend(left, Entry(key, value));
    AppendKeepsDistinct(others, |others| - |left|, Entry(key, value));
  }

  lemma AppendKeepsDistinct(es: seq<Entry>, j: nat, e: Entry)
    requires HasDistinctKeys(es) && j <= |es| && forall k :: 0 <= k < |es| ==> es[k].key != e.key
    ensures HasDistinctKeys(es[j..] + [e])
  {
  }

  /** What a key is mapped to. */
  function Lookup(es: seq<Entry>, key: string): seq<string> {
    var p := Find(es, key);
    if p < |es| then [es[p].value] else []
  }

  /** Finding the one position of a key that occurs once. */
  lemma FindsAt(es: seq<Entry>, k: nat)
    requires HasDistinctKeys(es) && k < |es|
    ensures Find(es, es[k].key) == k
  {
    assert es[Find(es, es[k].key)].key == es[k].key;
  }

  lemma WithoutIsDistinct(es: seq<Entry>, key: string)
    requires HasDistinctKeys(es)
    ensures HasDistinctKeys(Without(es, key)) && Find(Without(es, key), key) == |Without(es, key)|
  {
    var p, left := Find(es, key), Without(es, key);
    if p < |es| {
      assert forall k :: 0 <= k < |left| ==> left[k] == es[if k < p then k else k + 1];
      assert forall k :: 0 <= k < |left| ==> left[k].key != key;
      hide WithoutAt, Without;
    } else {
      assert left == es;
    }
  }

  /** Removing a key unbinds it and no other. */
  lemma RemovalUnbinds(es: seq<Entry>, key: string, other: string)
    requires HasDistinctKeys(es)
    ensures Lookup(Without(es, key), other) == if other == key then [] else Lookup(es, other)
  {
    var left, p, k := Without(es, key), Find(es, key), Find(es, other);
    WithoutIsDistinct(es, key);
    if other != key && k < |es| && p < |es| {
      var q := if k < p then k else k - 1;
      assert left[q] == es[k];
      FindsAt(left, q);
    } else if other != key && p < |es| {
      assert forall m :: 0 <= m < |left| ==> left[m] == es[if m < p then m else m + 1];
    }
  }

  /** An accepted store binds its key; what it evicts is unbound, and all else keeps its value. */
  lemma StoreBinds(es: seq<Entry>, max: int, key: string, value: string, other: string)
    requires IsBounded(es, max) && |key| + |value| <= max
    ensures Lookup(Stored(es, max, key, value), key) == [value]
    ensures other != key ==>
              var found := Lookup(Stored(es, max, key, value), other);
              found == Lookup(es, other) || found == []
  {
    hide TotalWeight, HasDistinctKeys, Without, WithoutAt, Shed;
    var others := Without(es, key);
    var left := Shed(others, max - |key| - |value|);
    var after := left + [Entry(key, value)];
    WithoutIsDistinct(es, key);
    ShedDropsOldest(others, max - |key| - |value|);
    StoredKeepsBound(others, max, key, value);
    FindsAt(after, |left|);
    if other != key {
      RemovalUnbinds(es, key, other);
      var k := Find(after, other);
      if k < |after| {
        assert others[k + (|others| - |left|)] == after[k];
        FindsAt(others, k + (|others| - |left|));
      }
    }
  }

  /** Of the other pairs a store keeps the freshest, as many as fit beside it. */
  lemma StoreEvictsOldest(es: seq<Entry>, max: int, key: string, value: string) returns (j: nat)
    ensures j <= |Without(es, key)| && Stored(es, max, key, value) == Without(es, key)[j..] + [Entry(key, value)]
    ensures Without(es, key)[j..] == [] || TotalWeight(Without(es, key)[j..]) + |key| + |value| <= max
    ensures forall i :: 0 <= i < j ==> TotalWeight(Without(es, key)[i..]) + |key| + |value| > max
  {
    hide Shed, Without, TotalWeight;
    ShedDropsOldest(Without(es, key), max - |key| - |value|);
    j := |Without(es, key)| - |Shed(Without(es, key), max - |key| - |value|)|;
  }

  lemma MovedKeepsBindings(es: seq<Entry>, p: nat, other: string)
    requires HasDistinctKeys(es) && p < |es|
    ensures Lookup(WithoutAt(es, p) + [es[p]], other) == Lookup(es, other)
  {
    var after := WithoutAt(es, p) + [es[p]];
    var k := Find(es, other);
    assert after[|es| - 1] == es[p];
    assert forall m :: 0 <= m < |es| - 1 ==> after[m] == es[if m < p then m else m + 1];
    if k < |es| {
      var q := if k < p then k else if k == p then |es| - 1 else k - 1;
      assert after[q] == es[k];
      FindsAt(after, q);
    }
  }

  /** A lookup replies with the binding and only moves its entry to the fresh end. */
  lemma GetOnlyReorders(es: seq<Entry>, max: int, key: string, other: string)
    requires HasDistinctKeys(es)
    ensures var (after, reply) := Ideal(es, max, Get(key));
            && Lookup(after, other) == Lookup(es, other)
            && Lookup(es, key) == (if reply.ok then [reply.value] else [])
            && after == if reply.ok then Without(es, key) + [Entry(key, reply.value)] else es
  {
    var p := Find(es, key);
    if p < |es| {
      MovedKeepsBindings(es, p, other);
      assert es[p] == Entry(key, es[p].value);
      hide HasDistinctKeys, WithoutAt, Find;
    }
  }

  /**
   * The map's replies, in terms of what was bound: a pair that is too big is
   * always turned away, `PutIfAbsent` also if the key is bound, `Set` if it is
   * not; `Delete` and `Get` succeed exactly on bound keys. A refusal changes nothing.
   */
  lemma RepliesMean(es: seq<Entry>, max: int, op: Op)
    requires IsBounded(es, max)
    ensures var (after, reply) := Ideal(es, max, op);
            var bound := Lookup(es, op.key) != [];
            && (!reply.ok ==> after == es)
            && match op
               case Put(key, value) => reply.ok <==> |key| + |value| <= max
               case PutIfAbsent(key, value) => reply.ok <==> |key| + |value| <= max && !bound
               case Set(key, value) => reply.ok <==> |key| + |value| <= max && bound
               case Delete(_) => reply.ok <==> bound
               case Get(_) => (reply.ok <==> bound) && (bound ==> [reply.value] == Lookup(es, op.key))
    ensures var (after, reply) := Ideal(es, max, op);
            reply.ok ==>
              if op.Delete? then Lookup(after, op.key) == []
              else if op.Get? then Lookup(after, op.key) == Lookup(es, op.key)
              else Lookup(after, op.key) == [op.value]
  {
    match op
    case Delete(key) => RemovalUnbinds(es, key, key);
    case Get(key) => GetOnlyReorders(es, max, key, key);
    case _ =>
      if |op.key| + |op.value| <= max {
        StoreBinds(es, max, op.key, op.value, op.key);
      }
      hide HasDistinctKeys, Stored, Find;
  }

  /** Where the code does not break it gives the map's reply for what it holds. */
  lemma RepliesAreIdeal(c: Cache, max: int, op: Op)
    ensures Run(c, max, op).Done? ==> Run(c, max, op).reply == Ideal(c.entries, max, op).1
  {
    hide Insert, Update, RemoveAt, Stored, WithoutAt, Find;
  }
}
