/** Exactly when an operation of the LRU cache, as coded, does what the bounded map does. */
module LruAgreement {
  import opened LruCode
  import opened LruRefinement
  import opened Sequences

  // ---------- Where an eviction loop stops ----------

  /** The loop removes exactly `j` entries, each time taking `t` off the count. */
  ghost predicate StopsAfter(c: Cache, pinned: nat, delta: int, limit: int, j: nat) {
    && (j > 0 ==> j < |c.entries|) && j <= pinned
    && Wrap(c.size - j * Tail(c.entries) + delta) <= limit
    && forall i :: 0 <= i < j ==> Wrap(c.size - i * Tail(c.entries) + delta) > limit
  }

  /** What `_remove_node` takes off the count, whichever node it removes. */
  ghost function Tail(es: seq<Entry>): nat {
    if es == [] then 0 else Weight(Last(es))
  }

  lemma WrapTwice(a: int, b: int)
    ensures Wrap(Wrap(a) + b) == Wrap(a + b)
  {
    assert a == U64 * (a / U64) + a % U64;
    WrapShift(Wrap(a) + b, a / U64);
  }

  lemma WrapShift(a: int, k: int)
    ensures Wrap(a + U64 * k) == Wrap(a)
  {
  }

  lemma TailOfRest(es: seq<Entry>)
    requires |es| >= 2
    ensures Tail(es[1..]) == Tail(es)
  {
  }

  lemma {:induction false} EvictStops(c: Cache, pinned: nat, delta: int, limit: int, j: nat)
    requires pinned <= |c.entries| && j <= |c.entries|
    ensures StopsAfter(c, pinned, delta, limit, j) <==>
      Evict(c, pinned, delta, limit).Ok? && |Evict(c, pinned, delta, limit).cache.entries| == |c.entries| - j
    ensures StopsAfter(c, pinned, delta, limit, j) ==>
      Evict(c, pinned, delta, limit).cache.entries == c.entries[j..] &&
      Wrap(Evict(c, pinned, delta, limit).cache.size) == Wrap(c.size - j * Tail(c.entries))
    decreases |c.entries|
  {
    hide StopsAfter, Wrap, Tail, Evict;
    if Wrap(c.size + delta) <= limit || |c.entries| <= 1 || pinned == 0 {
      StopsHere(c, pinned, delta, limit, j);
      EvictHalts(c, pinned, delta, limit);
    } else {
      var d := Cache(c.entries[1..], Wrap(c.size - Tail(c.entries)));
      TailOfRest(c.entries);
      EvictGoesRound(c, pinned, delta, limit);
      EvictKeepsLength(d, pinned - 1, delta, limit);
      if j == 0 {
        StopsHere(c, pinned, delta, limit, j);
      } else {
        EvictStops(d, pinned - 1, delta, limit, j - 1);
        StopsOneLater(c, d, pinned, delta, limit, j);
        assert d.entries[j - 1..] == c.entries[j..];
        CountAfter(c.size, Tail(c.entries), j - 1, 0);
      }
    }
  }

  /** A loop that does not go round, or whose first removal fails, stops after no removal or not at all. */
  lemma StopsHere(c: Cache, pinned: nat, delta: int, limit: int, j: nat)
    requires Wrap(c.size + delta) <= limit || |c.entries| <= 1 || pinned == 0 || j == 0
    ensures StopsAfter(c, pinned, delta, limit, j) <==> j == 0 && Wrap(c.size + delta) <= limit
    ensures j == 0 ==> c.entries[0..] == c.entries && Wrap(c.size - j * Tail(c.entries)) == Wrap(c.size)
  {
    hide Wrap, Tail;
    assert c.size - 0 * Tail(c.entries) + delta == c.size + delta && c.size - 0 * Tail(c.entries) == c.size;
  }

  lemma EvictHalts(c: Cache, pinned: nat, delta: int, limit: int)
    requires pinned <= |c.entries|
    requires Wrap(c.size + delta) <= limit || |c.entries| <= 1 || pinned == 0
    ensures Evict(c, pinned, delta, limit) == if Wrap(c.size + delta) <= limit then Ok(c) else Fault
  {
  }

  lemma EvictGoesRound(c: Cache, pinned: nat, delta: int, limit: int)
    requires 0 < pinned <= |c.entries| && |c.entries| >= 2 && Wrap(c.size + delta) > limit
    ensures Evict(c, pinned, delta, limit) ==
      Evict(Cache(c.entries[1..], Wrap(c.size - Tail(c.entries))), pinned - 1, delta, limit)
  {
  }

  lemma EvictKeepsLength(c: Cache, pinned: nat, delta: int, limit: int)
    requires pinned <= |c.entries|
    ensures Evict(c, pinned, delta, limit).Ok? ==> |Evict(c, pinned, delta, limit).cache.entries| <= |c.entries|
  {
    if Evict(c, pinned, delta, limit).Ok? {
      EvictKeepsSuffix(c, pinned, delta, limit);
    }
  }

  lemma CountAfter(size: int, t: int, i: int, delta: int)
    ensures Wrap(Wrap(size - t) - i * t + delta) == Wrap(size - (i + 1) * t + delta)
  {
    WrapTwice(size - t, -i * t + delta);
    assert size - t + (-i * t + delta) == size - (i + 1) * t + delta;
  }

  lemma StopsOneLater(c: Cache, d: Cache, pinned: nat, delta: int, limit: int, j: nat)
    requires |c.entries| >= 2 && 0 < pinned && 0 < j <= |c.entries|
    requires d == Cache(c.entries[1..], Wrap(c.size - Tail(c.entries))) && Tail(d.entries) == Tail(c.entries)
    requires Wrap(c.size + delta) > limit
    ensures StopsAfter(c, pinned, delta, limit, j) <==> StopsAfter(d, pinned - 1, delta, limit, j - 1)
  {
    hide Wrap, Tail;
    var t := Tail(c.entries);
    forall i | 0 <= i < j
      ensures Wrap(d.size - i * t + delta) == Wrap(c.size - (i + 1) * t + delta)
    {
      CountAfter(c.size, t, i, delta);
    }
    assert c.size - 0 * t + delta == c.size + delta;
    if StopsAfter(d, pinned - 1, delta, limit, j - 1) {
      forall i | 0 <= i < j
        ensures Wrap(c.size - i * t + delta) > limit
      {
        if i > 0 {
          assert Wrap(d.size - (i - 1) * t + delta) > limit;
        }
      }
    }
    if StopsAfter(c, pinned, delta, limit, j) {
      forall i | 0 <= i < j - 1
        ensures Wrap(d.size - i * t + delta) > limit
      {
        assert Wrap(c.size - (i + 1) * t + delta) > limit;
      }
    }
  }

  // ---------- When the count stays right ----------

  /** Taking `t` off `base` again and again passes the limit until the `j`-th time, and then leaves `rest`. */
  ghost predicate CountsDown(base: int, t: nat, limit: int, j: nat, rest: int) {
    && Wrap(base - j * t) == rest
    && forall i :: 0 <= i < j ==> Wrap(base - i * t) > limit
  }

  /** It does so exactly when the `j` removed weights add up to `j * t`; `size_t` never wraps on the way. */
  lemma CountsDownIff(base: int, t: nat, limit: int, j: nat, rest: int)
    requires t <= rest <= limit < U64 && rest <= base <= limit + U64
    requires j == 0 ==> base == rest
    ensures CountsDown(base, t, limit, j, rest) <==> j == 0 || (base < U64 && base - rest == j * t && rest + t > limit)
  {
    if j > 0 && CountsDown(base, t, limit, j, rest) {
      CountedDown(base, t, limit, j, rest);
    }
    if j > 0 && base < U64 && base - rest == j * t && rest + t > limit {
      WillCountDown(base, t, limit, j, rest);
    }
    hide CountsDown;
    if j == 0 {
      CountsDownNone(base, t, limit);
    }
  }

  lemma CountsDownNone(base: int, t: nat, limit: int)
    requires 0 <= base < U64
    ensures CountsDown(base, t, limit, 0, base)
  {
    assert base - 0 * t == base;
  }

  lemma CountedDown(base: int, t: nat, limit: int, j: nat, rest: int)
    requires t <= rest <= limit < U64 && rest <= base <= limit + U64 && j > 0
    requires CountsDown(base, t, limit, j, rest)
    ensures base < U64 && base - rest == j * t && rest + t > limit
  {
    assert Wrap(base - 0 * t) > limit && base - 0 * t == base;
    assert base < U64;
    NeverWraps(base, t, limit, j, rest, j);
    assert base - (j - 1) * t == base - j * t + t;
    NeverWraps(base, t, limit, j, rest, j - 1);
  }

  lemma WillCountDown(base: int, t: nat, limit: int, j: nat, rest: int)
    requires t <= rest <= limit < U64 && rest <= base < U64 && j > 0
    requires base - rest == j * t && rest + t > limit
    ensures CountsDown(base, t, limit, j, rest)
  {
    forall i | 0 <= i < j
      ensures Wrap(base - i * t) > limit
    {
      MoreIsMore(j - i, t);
      MoreIsMore(i, t);
      assert base - i * t == rest + (j - i) * t;
    }
  }

  lemma MoreIsMore(k: nat, t: nat)
    ensures k > 0 ==> k * t >= t
    ensures k * t >= 0
  {
  }

  lemma {:induction false} NeverWraps(base: int, t: nat, limit: int, j: nat, rest: int, i: nat)
    requires t <= limit < U64 && 0 <= base < U64 && i <= j && CountsDown(base, t, limit, j, rest)
    ensures 0 <= base - i * t <= base && Wrap(base - i * t) == base - i * t
    ensures i < j ==> base - i * t > limit
  {
    hide Wrap;
    if i > 0 {
      NeverWraps(base, t, limit, j, rest, i - 1);
      OnceMore(base, t, i);
    } else {
      assert base - i * t == base;
    }
    MoreIsMore(i, t);
    InRangeStays(base - i * t);
    assert i < j ==> Wrap(base - i * t) > limit;
  }

  lemma OnceMore(base: int, t: nat, i: nat)
    requires i > 0
    ensures base - i * t == base - (i - 1) * t - t
  {
  }

  lemma InRangeStays(n: int)
    ensures 0 <= n < U64 ==> Wrap(n) == n
  {
  }

  // ---------- Operations one by one ----------

  /** How many entries the intended map evicts to store this pair. */
  ghost function Evictions(es: seq<Entry>, max: int, key: string, value: string): (j: nat)
    ensures j <= |Without(es, key)|
  {
    var others := Without(es, key);
    ShedDropsOldest(others, max - |key| - |value|);
    |others| - |Shed(others, max - |key| - |value|)|
  }

  /**
   * The evictions needed for a pair do not reach the stored entry or empty the
   * list, remove as much as if each entry weighed what the last one does, and
   * one entry of that weight more would not fit.
   */
  ghost predicate SuitsStore(es: seq<Entry>, max: int, key: string, value: string) {
    var others := Without(es, key);
    var room := max - |key| - |value|;
    var j := Evictions(es, max, key, value);
    j > 0 ==>
      && j < |es| && j <= Find(es, key)
      && TotalWeight(others[..j]) == j * Tail(es)
      && TotalWeight(others[j..]) + Tail(es) > room
      && (Find(es, key) < |es| ==> TotalWeight(others) + |key| + |value| < U64)
  }

  lemma NothingWeighsNothing()
    ensures TotalWeight([]) == 0
  {
  }

  lemma EvictionsShape(es: seq<Entry>, max: int, key: string, value: string)
    requires |key| + |value| <= max
    ensures var others := Without(es, key);
            var j := Evictions(es, max, key, value);
            && Stored(es, max, key, value) == others[j..] + [Entry(key, value)]
            && TotalWeight(others[j..]) <= max - |key| - |value|
            && (j > 0 ==> TotalWeight(others) > max - |key| - |value|)
            && (j == 0 ==> TotalWeight(others[..j]) == 0)
  {
    hide Without, Shed, TotalWeight;
    var others := Without(es, key);
    ShedDropsOldest(others, max - |key| - |value|);
    assert others[..0] == [] && others[0..] == others && others[|others|..] == [];
    NothingWeighsNothing();
  }

  /** The evictions the map makes, in terms of weights. */
  lemma EvictionsFit(es: seq<Entry>, max: int, key: string, value: string)
    requires |key| + |value| <= max
    ensures var others := Without(es, key);
            var j := Evictions(es, max, key, value);
            && Stored(es, max, key, value) == others[j..] + [Entry(key, value)]
            && TotalWeight(Stored(es, max, key, value)) == TotalWeight(others[j..]) + |key| + |value| <= max
            && (j > 0 ==> TotalWeight(others) > max - |key| - |value|)
            && TotalWeight(others) == TotalWeight(others[..j]) + TotalWeight(others[j..])
            && (j == 0 ==> TotalWeight(others[..j]) == 0)
            && TotalWeight(others[j..]) >= 0 && TotalWeight(others[..j]) >= 0
  {
    hide *;
    var others, j := Without(es, key), Evictions(es, max, key, value);
    EvictionsShape(es, max, key, value);
    WeightOfCut(others, j);
    TotalWeightBounds(others[j..]);
    TotalWeightBounds(others[..j]);
    WeightOfAppend(others[j..], Entry(key, value));
  }

  lemma WrapPlus(x: int, w: nat, rest: nat)
    requires rest + w < U64
    ensures Wrap(x + w) == rest + w <==> Wrap(x) == rest
  {
    assert x == U64 * (x / U64) + x % U64;
    if Wrap(x) == rest {
      WrapShift(rest + w, x / U64);
    }
    if Wrap(x + w) == rest + w {
      assert x + w == U64 * ((x + w) / U64) + rest + w;
      WrapShift(rest, (x + w) / U64);
    }
  }

  lemma InsertShape(c: Cache, max: int, key: string, value: string, j: nat, rest: nat)
    requires max < U64 && rest + |key| + |value| <= max && j <= |c.entries|
    ensures Insert(c, max, key, value) == Ok(Cache(c.entries[j..] + [Entry(key, value)], rest + |key| + |value|))
      <==> StopsAfter(c, |c.entries|, 0, max - |key| - |value|, j) && Wrap(c.size + 0 - j * Tail(c.entries)) == rest
  {
    var evicted := Evict(c, |c.entries|, 0, max - |key| - |value|);
    EvictStops(c, |c.entries|, 0, max - |key| - |value|, j);
    hide StopsAfter, Evict, Tail;
    if evicted.Ok? {
      var d := evicted.cache;
      WrapPlus(d.size, |key| + |value|, rest);
      assert d.size + (|key| + |value|) == d.size + |key| + |value|;
      hide Wrap;
      if d.entries + [Entry(key, value)] == c.entries[j..] + [Entry(key, value)] {
        assert |d.entries + [Entry(key, value)]| == |c.entries[j..] + [Entry(key, value)]|;
      }
    }
  }

  /** The loop stops after `j` removals with the right count exactly when their weights add up. */
  lemma StopsRightIff(c: Cache, pinned: nat, delta: int, limit: int, j: nat, rest: int)
    requires Tail(c.entries) <= rest <= limit < U64 && rest <= c.size + delta <= limit + U64
    requires j == 0 ==> c.size + delta == rest
    ensures StopsAfter(c, pinned, delta, limit, j) && Wrap(c.size + delta - j * Tail(c.entries)) == rest <==>
      j == 0 || (j < |c.entries| && j <= pinned && c.size + delta < U64
                 && c.size + delta - rest == j * Tail(c.entries) && rest + Tail(c.entries) > limit)
  {
    if (j > 0 ==> j < |c.entries|) && j <= pinned {
      StopsIsCountsDown(c, pinned, delta, limit, j, rest);
      CountsDownIff(c.size + delta, Tail(c.entries), limit, j, rest);
      hide *;
    } else {
      assert !StopsAfter(c, pinned, delta, limit, j);
      hide *;
    }
  }

  lemma InsertAgreesIff(es: seq<Entry>, max: int, key: string, value: string)
    requires IsBounded(es, max) && max < U64 && |key| + |value| <= max && Find(es, key) == |es|
    ensures var ideal := Stored(es, max, key, value);
            Insert(Cache(es, TotalWeight(es)), max, key, value) == Ok(Cache(ideal, TotalWeight(ideal)))
            <==> SuitsStore(es, max, key, value)
  {
    hide *;
    var c, room, j := Cache(es, TotalWeight(es)), max - |key| - |value|, Evictions(es, max, key, value);
    EvictionsFit(es, max, key, value);
    InsertFacts(es, max, key, value, j);
    SuitsInsertIff(es, max, key, value);
    InsertShape(c, max, key, value, j, TotalWeight(es[j..]));
    if j == 0 || j < |es| {
      StopsRightIff(c, |es|, 0, room, j, TotalWeight(es[j..]));
    }
  }

  lemma InsertFacts(es: seq<Entry>, max: int, key: string, value: string, j: nat)
    requires IsBounded(es, max) && Find(es, key) == |es|
    ensures Without(es, key) == es && TotalWeight(es) <= max && es[0..] == es
    ensures j == 0 || j < |es| ==> Tail(es) <= TotalWeight(es[j..])
    ensures j > 0 && j >= |es| ==> !StopsAfter(Cache(es, TotalWeight(es)), |es|, 0, max - |key| - |value|, j)
  {
    if j == 0 || j < |es| {
      TailIsPart(es, j);
    }
  }

  lemma SuitsInsertIff(es: seq<Entry>, max: int, key: string, value: string)
    requires |key| + |value| <= max && Find(es, key) == |es|
    ensures var j := Evictions(es, max, key, value);
            var rest := TotalWeight(es[j..]);
            SuitsStore(es, max, key, value) <==>
              j == 0 || (j < |es| && TotalWeight(es) - rest == j * Tail(es) && rest + Tail(es) > max - |key| - |value|)
  {
    EvictionsFit(es, max, key, value);
    hide Stored, TotalWeight, Tail, Evictions;
    assert Without(es, key) == es;
  }

  lemma TailIsPart(es: seq<Entry>, j: nat)
    requires j == 0 || j < |es|
    ensures j <= |es| && Tail(es) <= TotalWeight(es[j..])
  {
    TotalWeightBounds(es[j..]);
    if es != [] {
      assert es[j..][|es| - j - 1] == Last(es);
    }
  }

  lemma StopsIsCountsDown(c: Cache, pinned: nat, delta: int, limit: int, j: nat, rest: int)
    requires rest <= limit && (j > 0 ==> j < |c.entries|) && j <= pinned
    ensures StopsAfter(c, pinned, delta, limit, j) && Wrap(c.size + delta - j * Tail(c.entries)) == rest
      <==> CountsDown(c.size + delta, Tail(c.entries), limit, j, rest)
  {
    var t := Tail(c.entries);
    assert forall i :: 0 <= i <= j ==> c.size - i * t + delta == c.size + delta - i * t;
  }

  lemma StopsAtOnce(c: Cache, pinned: nat, delta: int, limit: int)
    requires 0 <= c.size + delta <= limit < U64
    ensures StopsAfter(c, pinned, delta, limit, 0) && Wrap(c.size + delta - 0 * Tail(c.entries)) == c.size + delta
  {
    assert c.size - 0 * Tail(c.entries) + delta == c.size + delta;
  }

  lemma DeltaWraps(c: Cache, pinned: nat, delta: int, limit: int, j: nat)
    ensures StopsAfter(c, pinned, Wrap(delta), limit, j) <==> StopsAfter(c, pinned, delta, limit, j)
  {
    forall i: nat
      ensures Wrap(c.size - i * Tail(c.entries) + Wrap(delta)) == Wrap(c.size - i * Tail(c.entries) + delta)
    {
      WrapTwice(delta, c.size - i * Tail(c.entries));
    }
  }

  /** Dropping the first `j` entries and removing a later one can be done in either order. */
  lemma CutWithoutAt(es: seq<Entry>, p: nat, j: nat)
    requires j <= p < |es|
    ensures WithoutAt(es, p)[j..] == WithoutAt(es[j..], p - j)
  {
  }

  lemma FinalCount(left: int, size: int, taken: int, delta: int)
    requires Wrap(left) == Wrap(size - taken)
    ensures Wrap(left + Wrap(delta)) == Wrap(size + delta - taken)
  {
    WrapTwice(delta, left);
    WrapTwice(left, delta);
    WrapTwice(size - taken, delta);
    assert size - taken + delta == size + delta - taken;
  }

  lemma UpdateStops(c: Cache, max: int, p: nat, value: string, delta: int, j: nat)
    requires p < |c.entries| && delta == |value| - |c.entries[p].value| && j <= p
    requires StopsAfter(c, p, delta, max, j)
    ensures Update(c, max, p, value) ==
      Ok(Cache(WithoutAt(c.entries, p)[j..] + [Entry(c.entries[p].key, value)],
               Wrap(c.size + delta - j * Tail(c.entries))))
  {
    hide *;
    UpdateIs(c, max, p, value, delta);
    DeltaWraps(c, p, delta, max, j);
    EvictStops(c, p, Wrap(delta), max, j);
    FinalCount(Evict(c, p, Wrap(delta), max).cache.size, c.size, j * Tail(c.entries), delta);
    CutWithoutAt(c.entries, p, j);
  }

  lemma UpdateStopsOtherwise(c: Cache, max: int, p: nat, value: string, delta: int, j: nat, rest: int)
    requires p < |c.entries| && delta == |value| - |c.entries[p].value| && j < |c.entries|
    requires !StopsAfter(c, p, delta, max, j) && |WithoutAt(c.entries, p)| == |c.entries| - 1
    ensures Update(c, max, p, value) != Ok(Cache(WithoutAt(c.entries, p)[j..] + [Entry(c.entries[p].key, value)], rest))
  {
    hide StopsAfter, Evict, Wrap, Update, Tail;
    var evicted, e := Evict(c, p, Wrap(delta), max), Entry(c.entries[p].key, value);
    UpdateIs(c, max, p, value, delta);
    DeltaWraps(c, p, delta, max, j);
    EvictStops(c, p, Wrap(delta), max, j);
    if evicted.Ok? {
      var d := evicted.cache;
      assert |WithoutAt(d.entries, p - (|c.entries| - |d.entries|)) + [e]| == |d.entries|;
      assert |WithoutAt(c.entries, p)[j..] + [e]| == |c.entries| - j;
    }
  }

  lemma UpdateShape(c: Cache, max: int, p: nat, value: string, delta: int, j: nat, rest: int)
    requires p < |c.entries| && delta == |value| - |c.entries[p].value| && j < |c.entries|
    ensures |WithoutAt(c.entries, p)| == |c.entries| - 1
    ensures Update(c, max, p, value) == Ok(Cache(WithoutAt(c.entries, p)[j..] + [Entry(c.entries[p].key, value)], rest))
      <==> StopsAfter(c, p, delta, max, j) && Wrap(c.size + delta - j * Tail(c.entries)) == rest
  {
    assert |WithoutAt(c.entries, p)| == |c.entries| - 1;
    if StopsAfter(c, p, delta, max, j) {
      assert j <= p;
      hide *;
      UpdateStops(c, max, p, value, delta, j);
    } else {
      hide *;
      UpdateStopsOtherwise(c, max, p, value, delta, j, rest);
    }
  }

  lemma UpdateAgreesIff(es: seq<Entry>, max: int, key: string, value: string)
    requires IsBounded(es, max) && max < U64 && |key| + |value| <= max && Find(es, key) < |es|
    ensures var ideal := Stored(es, max, key, value);
            Update(Cache(es, TotalWeight(es)), max, Find(es, key), value) == Ok(Cache(ideal, TotalWeight(ideal)))
            <==> SuitsStore(es, max, key, value)
  {
    hide *;
    var c, p := Cache(es, TotalWeight(es)), Find(es, key);
    var others, j := Without(es, key), Evictions(es, max, key, value);
    var delta := |value| - |es[p].value|;
    var rest := TotalWeight(others[j..]) + |key| + |value|;
    UpdateFacts(es, max, key, value, j);
    EvictionsFit(es, max, key, value);
    SuitsUpdateIff(es, max, key, value);
    UpdateShape(c, max, p, value, delta, j, rest);
    if j == 0 {
      StopsAtOnce(c, p, delta, max);
    } else if j <= p {
      TailFits(es, max, key, value);
      StopsRightIff(c, p, delta, max, j, rest);
    }
  }

  lemma UpdateFacts(es: seq<Entry>, max: int, key: string, value: string, j: nat)
    requires IsBounded(es, max) && Find(es, key) < |es|
    ensures var p := Find(es, key);
            && es[p].key == key && Without(es, key) == WithoutAt(es, p) && |Without(es, key)| == |es| - 1
            && TotalWeight(es) - |es[p].value| == TotalWeight(Without(es, key)) + |key| && 0 <= TotalWeight(es) <= max
            && (j > p ==> !StopsAfter(Cache(es, TotalWeight(es)), p, |value| - |es[p].value|, max, j))
    ensures Without(es, key)[0..] == Without(es, key)
  {
    WeightWithoutAt(es, Find(es, key));
    TotalWeightBounds(es);
    hide Wrap, Tail, TotalWeight;
  }

  lemma SuitsUpdateIff(es: seq<Entry>, max: int, key: string, value: string)
    requires |key| + |value| <= max && Find(es, key) < |es|
    ensures var others, j := Without(es, key), Evictions(es, max, key, value);
            var rest := TotalWeight(others[j..]) + |key| + |value|;
            var base := TotalWeight(others) + |key| + |value|;
            SuitsStore(es, max, key, value) <==>
              j == 0 || (j < |es| && j <= Find(es, key) && base < U64 && base - rest == j * Tail(es)
                  && rest + Tail(es) > max)
  {
    EvictionsFit(es, max, key, value);
    hide Stored, TotalWeight, Tail, Evictions, Without;
  }

  /** When an update evicts and the entry is not reached, the last entry fits beside what is kept. */
  lemma TailFits(es: seq<Entry>, max: int, key: string, value: string)
    requires IsBounded(es, max) && |key| + |value| <= max && Find(es, key) < |es|
    requires 0 < Evictions(es, max, key, value) <= Find(es, key)
    ensures Tail(es) <= TotalWeight(Without(es, key)[Evictions(es, max, key, value)..]) + |key| + |value|
  {
    hide *;
    var p, others, j := Find(es, key), Without(es, key), Evictions(es, max, key, value);
    UpdateFacts(es, max, key, value, j);
    EvictionsFit(es, max, key, value);
    TotalWeightBounds(others[j..]);
    LastOfWithout(es, p, j);
  }

  lemma LastOfWithout(es: seq<Entry>, p: nat, j: nat)
    requires j <= p < |es|
    ensures Tail(es) == Weight(es[|es| - 1])
    ensures p < |es| - 1 ==>
              j < |es| - 1 == |WithoutAt(es, p)| && WithoutAt(es, p)[j..][|es| - 2 - j] == es[|es| - 1]
  {
  }

  /** The only and the middle entries cannot be removed; the head can if it weighs what the tail does. */
  ghost predicate SuitsRemoval(es: seq<Entry>, p: nat) {
    p < |es| && |es| >= 2 && (p == |es| - 1 || (p == 0 && Weight(es[0]) == Weight(Last(es))))
  }

  lemma RemovalAgreesIff(es: seq<Entry>, p: nat)
    requires p < |es| && TotalWeight(es) < U64
    ensures RemoveAt(Cache(es, TotalWeight(es)), p) == Ok(Cache(WithoutAt(es, p), TotalWeight(WithoutAt(es, p))))
      <==> SuitsRemoval(es, p)
  {
    WeightWithoutAt(es, p);
    TotalWeightBounds(es);
    assert Weight(Last(es)) <= TotalWeight(es);
  }

  ghost predicate Suits(es: seq<Entry>, max: int, op: Op) {
    var found := Find(es, op.key) < |es|;
    match op
    case Get(_) => true
    case Delete(key) => !found || SuitsRemoval(es, Find(es, key))
    case Put(key, value) => |key| + |value| > max || SuitsStore(es, max, key, value)
    case PutIfAbsent(key, value) => |key| + |value| > max || found || SuitsStore(es, max, key, value)
    case Set(key, value) => |key| + |value| > max || !found || SuitsStore(es, max, key, value)
  }

  lemma StoreAgreesIff(es: seq<Entry>, max: int, op: Op)
    requires IsBounded(es, max) && max < U64 && (op.Put? || op.PutIfAbsent? || op.Set?)
    ensures Agrees(Run(Cache(es, TotalWeight(es)), max, op), Ideal(es, max, op)) <==> Suits(es, max, op)
  {
    hide IsBounded, Update, Insert, SuitsStore, Stored, TotalWeight;
    if |op.key| + |op.value| <= max {
      if Find(es, op.key) < |es| {
        UpdateAgreesIff(es, max, op.key, op.value);
      } else {
        InsertAgreesIff(es, max, op.key, op.value);
      }
    }
  }

  /** From a state that is right, an operation of the code is right exactly when it suits the state. */
  lemma OperationAgreesIff(es: seq<Entry>, max: int, op: Op)
    requires IsBounded(es, max) && 0 <= max < U64
    ensures Agrees(Run(Cache(es, TotalWeight(es)), max, op), Ideal(es, max, op)) <==> Suits(es, max, op)
  {
    match op
    case Get(_) =>
      if Find(es, op.key) < |es| {
        WeightWithoutAt(es, Find(es, op.key));
        WeightOfAppend(WithoutAt(es, Find(es, op.key)), es[Find(es, op.key)]);
      }
    case Delete(_) =>
      if Find(es, op.key) < |es| {
        RemovalAgreesIff(es, Find(es, op.key));
      }
    case _ => StoreAgreesIff(es, max, op);
  }

  // ---------- Whole runs ----------

  /** What the code answers and holds after each operation, up to a broken one. */
  function Trace(c: Cache, max: int, ops: seq<Op>): seq<Result>
    decreases |ops|
  {
    if ops == [] then []
    else
      var r := Run(c, max, ops[0]);
      if r.Broken? then [r] else [r] + Trace(r.cache, max, ops[1..])
  }

  /** What it should. */
  ghost function IdealTrace(es: seq<Entry>, max: int, ops: seq<Op>): seq<Result>
    decreases |ops|
  {
    if ops == [] then []
    else
      var (after, reply) := Ideal(es, max, ops[0]);
      [Done(Cache(after, TotalWeight(after)), reply)] + IdealTrace(after, max, ops[1..])
  }

  ghost predicate AllSuit(es: seq<Entry>, max: int, ops: seq<Op>)
    decreases |ops|
  {
    ops == [] || (Suits(es, max, ops[0]) && AllSuit(Ideal(es, max, ops[0]).0, max, ops[1..]))
  }

  /** The code refines the bounded map over a run exactly when every operation suits the map's state before it. */
  lemma {:induction false} RunAgreesIff(es: seq<Entry>, max: int, ops: seq<Op>)
    requires IsBounded(es, max) && 0 <= max < U64
    ensures Trace(Cache(es, TotalWeight(es)), max, ops) == IdealTrace(es, max, ops) <==> AllSuit(es, max, ops)
    decreases |ops|
  {
    if ops != [] {
      var c := Cache(es, TotalWeight(es));
      var after := Ideal(es, max, ops[0]).0;
      OperationAgreesIff(es, max, ops[0]);
      IdealKeepsBound(es, max, ops[0]);
      RunAgreesIff(after, max, ops[1..]);
      hide Run, Ideal, Suits, TotalWeight;
      assert IdealTrace(es, max, ops)[0] == Done(Cache(after, TotalWeight(after)), Ideal(es, max, ops[0]).1);
      assert IdealTrace(es, max, ops)[1..] == IdealTrace(after, max, ops[1..]);
      assert Trace(c, max, ops)[0] == Run(c, max, ops[0]);
      if Suits(es, max, ops[0]) {
        assert Trace(c, max, ops)[1..] == Trace(Cache(after, TotalWeight(after)), max, ops[1..]);
      }
    }
  }

  // ---------- Families on either side ----------

  lemma {:induction false} EqualWeightsAddUp(es: seq<Entry>, w: nat)
    requires forall k :: 0 <= k < |es| ==> Weight(es[k]) == w
    ensures TotalWeight(es) == |es| * w
    decreases |es|
  {
    if es == [] {
      assert TotalWeight([]) == 0;
    } else {
      WeightOfCut(es, |es| - 1);
      EqualWeightsAddUp(es[..|es| - 1], w);
      assert es[|es| - 1..] == [es[|es| - 1]];
      WeightOfOne(es[|es| - 1]);
      assert (|es| - 1) * w + w == |es| * w;
    }
  }

  /** While all pairs weigh the same and two of them fit, every store is right, evictions included. */
  lemma EqualWeightsSuit(es: seq<Entry>, max: int, key: string, value: string)
    requires IsBounded(es, max) && max < U64
    requires forall k :: 0 <= k < |es| ==> Weight(es[k]) == |key| + |value|
    requires 0 < 2 * (|key| + |value|) <= max
    ensures SuitsStore(es, max, key, value)
  {
    var w, j := |key| + |value|, Evictions(es, max, key, value);
    EvictionsFit(es, max, key, value);
    EqualWeightsAddUp(es, w);
    if Find(es, key) < |es| {
      WeightWithoutAt(es, Find(es, key));
    } else if j > 0 {
      ShedDropsOldest(es, max - w);
      assert TotalWeight(es[j - 1..]) > max - w;
      hide TotalWeight, Shed;
      EqualWeightsAddUp(es[..j], w);
      EqualWeightsAddUp(es[j..], w);
      EqualWeightsAddUp(es[j - 1..], w);
      assert (|es| - j) * w + w == (|es| - j + 1) * w;
    }
  }

  /** A new key that fits by the count is appended, and counted. */
  lemma PutOfNewKeyThatFits(c: Cache, max: int, e: Entry)
    requires Find(c.entries, e.key) == |c.entries| && 0 <= c.size <= max - Weight(e) < U64
    requires c.size + Weight(e) < U64
    ensures Run(c, max, Put(e.key, e.value)) == Done(Cache(c.entries + [e], c.size + Weight(e)), Reply(true, ""))
  {
  }

  lemma OverfillEviction(a: Entry, b: Entry, c: Entry)
    requires a == Entry("a", "1") && b == Entry("b", "123") && c == Entry("c", "1")
    ensures Run(Cache([a, b], 6), 6, Put("c", "1")) == Done(Cache([b, c], 4), Reply(true, ""))
  {
    assert [a, b][1..] == [b] && [b][1..] == [] && [b] + [c] == [b, c];
    assert Find([b], "c") == 1 && Find([a, b], "c") == 2;
    assert Evict(Cache([b], 2), 1, 0, 4) == Ok(Cache([b], 2));
    assert Evict(Cache([a, b], 6), 2, 0, 4) == Ok(Cache([b], 2));
  }

  /** The count falls behind what is stored, and then the bound is no longer kept. */
  lemma UnequalWeightsOverfill(a: Entry, b: Entry, c: Entry, d: Entry)
    requires a == Entry("a", "1") && b == Entry("b", "123") && c == Entry("c", "1") && d == Entry("d", "1")
    ensures Trace(Cache([], 0), 6, [Put("a", "1"), Put("b", "123"), Put("c", "1"), Put("d", "1")]) ==
      [Done(Cache([a], 2), Reply(true, "")), Done(Cache([a, b], 6), Reply(true, "")),
       Done(Cache([b, c], 4), Reply(true, "")), Done(Cache([b, c, d], 6), Reply(true, ""))]
    ensures TotalWeight([b, c, d]) == 8
  {
    hide Run;
    PutOfNewKeyThatFits(Cache([], 0), 6, a);
    PutOfNewKeyThatFits(Cache([a], 2), 6, b);
    OverfillEviction(a, b, c);
    PutOfNewKeyThatFits(Cache([b, c], 4), 6, d);
    assert [] + [a] == [a] && [a] + [b] == [a, b];
    WeightOfOne(b);
    WeightOfAppend([b], c);
    WeightOfAppend([b, c], d);
    assert [b] + [c] == [b, c] && [b, c] + [d] == [b, c, d];
  }

  // ---------- Where the code breaks ----------

  /** However many entries it removes, the count does not let the loop stop. */
  ghost predicate NeverStops(c: Cache, pinned: nat, delta: int, limit: int) {
    forall j: nat :: j <= |c.entries| ==> !StopsAfter(c, pinned, delta, limit, j)
  }

  lemma EvictBreaksIff(c: Cache, pinned: nat, delta: int, limit: int)
    requires pinned <= |c.entries|
    ensures Evict(c, pinned, delta, limit).Fault? <==> NeverStops(c, pinned, delta, limit)
  {
    hide Evict, StopsAfter;
    forall j: nat | j <= |c.entries|
      ensures StopsAfter(c, pinned, delta, limit, j) ==> Evict(c, pinned, delta, limit).Ok?
    {
      EvictStops(c, pinned, delta, limit, j);
    }
    if Evict(c, pinned, delta, limit).Ok? {
      EvictKeepsSuffix(c, pinned, delta, limit);
      EvictStops(c, pinned, delta, limit, |c.entries| - |Evict(c, pinned, delta, limit).cache.entries|);
    }
  }

  /**
   * The code dereferences null exactly when it deletes the only entry or one in
   * the middle, or when the count never lets an eviction loop stop before the
   * last entry, or before the one being updated.
   */
  lemma BreaksIff(c: Cache, max: int, op: Op)
    ensures var p := Find(c.entries, op.key);
            var bound := p < |c.entries|;
            Run(c, max, op).Broken? <==>
              match op
              case Get(_) => false
              case Delete(_) => bound && (|c.entries| == 1 || 0 < p < |c.entries| - 1)
              case _ =>
                && |op.key| + |op.value| <= max
                && if bound then !op.PutIfAbsent? && NeverStops(c, p, Wrap(|op.value| - |c.entries[p].value|), max)
                   else !op.Set? && NeverStops(c, |c.entries|, 0, max - |op.key| - |op.value|)
  {
    var p := Find(c.entries, op.key);
    hide Evict, NeverStops, Find, Wrap;
    if op.Put? || op.PutIfAbsent? || op.Set? {
      if p < |c.entries| {
        EvictBreaksIff(c, p, Wrap(|op.value| - |c.entries[p].value|), max);
      } else {
        EvictBreaksIff(c, |c.entries|, 0, max - |op.key| - |op.value|);
      }
    }
  }

  /** Deleting a bound key, where it does not break, drops its pair and takes the freshest pair's size off the count. */
  lemma DeleteChargesTail(c: Cache, max: int, key: string)
    requires Find(c.entries, key) < |c.entries| && Run(c, max, Delete(key)).Done?
    ensures var last := c.entries[|c.entries| - 1];
            Run(c, max, Delete(key)) ==
              Done(Cache(Without(c.entries, key), (c.size - |last.key| - |last.value|) % U64), Reply(true, ""))
  {
    hide WithoutAt, Find;
  }
}
