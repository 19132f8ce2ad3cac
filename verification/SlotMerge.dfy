/** The recursive `merge` that folds the sorted arrays of all tasks into the last slot. */
module SlotMerge {
  import opened CoroSort

  // ---------- What merging computes ----------

  /** Two sorted sequences interleaved, the first one winning ties. */
  function Merged(a: seq<int>, b: seq<int>): seq<int> {
    if a == [] then b
    else if b == [] then a
    else if a[0] <= b[0] then [a[0]] + Merged(a[1..], b)
    else [b[0]] + Merged(a, b[1..])
  }

  /**
   * The contents of slots 1.. after one level of `merge`: slot 1 takes over the
   * last array, the last slot the result.
   */
  function Rotated(slots: seq<seq<int>>): seq<seq<int>>
    requires |slots| >= 2
  {
    var last := |slots| - 1;
    slots[1..][0 := slots[last]][last - 1 := Merged(slots[0], slots[1])]
  }

  /** What ends in the last slot. */
  function MergeAll(slots: seq<seq<int>>): seq<int>
    requires slots != []
    decreases |slots|
  {
    if |slots| == 1 then slots[0] else MergeAll(Rotated(slots))
  }

  ghost function Union(slots: seq<seq<int>>): multiset<int> {
    if slots == [] then multiset{} else multiset(slots[0]) + Union(slots[1..])
  }

  ghost predicate AllSorted(slots: seq<seq<int>>) {
    forall k :: 0 <= k < |slots| ==> Sorted(slots[k])
  }

  lemma HeadOfSorted(s: seq<int>)
    requires Sorted(s) && s != []
    ensures Sorted(s[1..]) && multiset(s) == multiset{s[0]} + multiset(s[1..])
    ensures forall k :: 0 <= k < |s| ==> s[0] <= s[k]
  {
    assert s == [s[0]] + s[1..];
  }

  lemma {:induction false} MergedSorts(a: seq<int>, b: seq<int>)
    requires Sorted(a) && Sorted(b)
    ensures Sorted(Merged(a, b))
    ensures multiset(Merged(a, b)) == multiset(a) + multiset(b)
  {
    hide Sorted;
    if a != [] && b != [] {
      HeadOfSorted(a);
      HeadOfSorted(b);
      if a[0] <= b[0] {
        MergedSorts(a[1..], b);
        HeadIsLeast(a[0], a[1..], b, Merged(a[1..], b));
      } else {
        MergedSorts(a, b[1..]);
        HeadIsLeast(b[0], a, b[1..], Merged(a, b[1..]));
      }
    }
  }

  lemma HeadIsLeast(x: int, a: seq<int>, b: seq<int>, m: seq<int>)
    requires Sorted(m) && multiset(m) == multiset(a) + multiset(b)
    requires forall k :: 0 <= k < |a| ==> x <= a[k]
    requires forall k :: 0 <= k < |b| ==> x <= b[k]
    ensures Sorted([x] + m) && multiset([x] + m) == multiset{x} + multiset(m)
  {
    forall k | 0 <= k < |m|
      ensures x <= m[k]
    {
      assert m[k] in multiset(m);
      assert m[k] in a || m[k] in b;
    }
  }

  lemma {:induction false} UnionOfUpdate(slots: seq<seq<int>>, k: nat, s: seq<int>)
    requires k < |slots|
    ensures Union(slots[k := s]) + multiset(slots[k]) == Union(slots) + multiset(s)
  {
    var after := slots[k := s];
    assert after[1..] == if k > 0 then slots[1..][k - 1 := s] else slots[1..];
    if k > 0 {
      UnionOfUpdate(slots[1..], k - 1, s);
    }
    forall x
      ensures (Union(after) + multiset(slots[k]))[x] == (Union(slots) + multiset(s))[x]
    {
      if k > 0 {
        assert (Union(after[1..]) + multiset(slots[k]))[x] == (Union(slots[1..]) + multiset(s))[x];
      }
    }
  }

  lemma RotatedKeepsUnion(slots: seq<seq<int>>)
    requires |slots| >= 2 && Sorted(slots[0]) && Sorted(slots[1])
    ensures Union(Rotated(slots)) == Union(slots)
  {
    hide Merged, Union, Sorted;
    var last, rest, m := slots[|slots| - 1], slots[1..], Merged(slots[0], slots[1]);
    var moved := rest[0 := last];
    MergedSorts(slots[0], slots[1]);
    UnionOfUpdate(rest, 0, last);
    UnionOfUpdate(moved, |rest| - 1, m);
    UnionOfHead(slots);
    BothSidesLess(Union(Rotated(slots)), multiset(last), Union(moved),
                  multiset(slots[0]), multiset(slots[1]), Union(rest));
  }

  /** The two updates of a rotation add up to one exchange. */
  lemma BothSidesLess(after: multiset<int>, last: multiset<int>, moved: multiset<int>,
                      first: multiset<int>, second: multiset<int>, rest: multiset<int>)
    requires after + last == moved + (first + second)
    requires moved + second == rest + last
    ensures after == first + rest
  {
    forall x
      ensures after[x] == (first + rest)[x]
    {
      assert (after + last)[x] == (moved + (first + second))[x];
      assert (moved + second)[x] == (rest + last)[x];
    }
  }

  lemma UnionOfHead(slots: seq<seq<int>>)
    requires slots != []
    ensures Union(slots) == multiset(slots[0]) + Union(slots[1..])
  {
  }

  lemma RotatedKeepsSorted(slots: seq<seq<int>>)
    requires |slots| >= 2 && AllSorted(slots)
    ensures AllSorted(Rotated(slots))
  {
    MergedSorts(slots[0], slots[1]);
  }

  lemma MergeAllStep(slots: seq<seq<int>>)
    requires slots != []
    ensures MergeAll(slots) == if |slots| == 1 then slots[0] else MergeAll(Rotated(slots))
  {
  }

  /** The last slot ends with all the numbers of all slots, in order. */
  lemma {:induction false} MergeAllSorts(slots: seq<seq<int>>)
    requires slots != [] && AllSorted(slots)
    ensures Sorted(MergeAll(slots)) && multiset(MergeAll(slots)) == Union(slots)
    decreases |slots|
  {
    if |slots| > 1 {
      RotatedKeepsUnion(slots);
      RotatedKeepsSorted(slots);
      MergeAllSorts(Rotated(slots));
    } else {
      assert slots[1..] == [];
    }
  }

  /** One turn of the merging loop. */
  lemma MergedStep(done: seq<int>, a: seq<int>, b: seq<int>, i: nat, j: nat)
    requires i < |a| && j < |b|
    ensures done + Merged(a[i..], b[j..]) ==
      if a[i] <= b[j] then done + [a[i]] + Merged(a[i + 1..], b[j..])
      else done + [b[j]] + Merged(a[i..], b[j + 1..])
  {
    assert a[i..][1..] == a[i + 1..] && b[j..][1..] == b[j + 1..];
  }

  lemma MergedWithNothing(a: seq<int>)
    ensures Merged([], a) == a == Merged(a, [])
  {
  }

  lemma MergedLength(a: seq<int>, b: seq<int>)
    ensures |Merged(a, b)| == |a| + |b|
  {
  }

  // ---------- The arrays ----------

  ghost predicate AreDistinct(arrs: seq<array<int>>) {
    forall j, k :: 0 <= j < k < |arrs| ==> arrs[j] != arrs[k]
  }

  ghost function ToSet(arrs: seq<array<int>>): set<array<int>> {
    set a | a in arrs
  }

  /** What the arrays hold. */
  ghost function Contents(arrs: seq<array<int>>): (r: seq<seq<int>>)
    reads arrs
    ensures |r| == |arrs| && forall k :: 0 <= k < |r| ==> r[k] == arrs[k][..]
  {
    if arrs == [] then [] else [arrs[0][..]] + Contents(arrs[1..])
  }

  /** The slots once the two at `from` are merged into `tmp`: the second takes over the last array. */
  function Reslotted<T>(slots: seq<T>, from: nat, tmp: T): seq<T>
    requires from + 1 < |slots|
  {
    var last := |slots| - 1;
    slots[from + 1 := slots[last]][last := tmp]
  }

  lemma ReslottedOwns(arrs: seq<array<int>>, from: nat, tmp: array<int>)
    requires from + 1 < |arrs| && AreDistinct(arrs) && tmp !in arrs
    ensures AreDistinct(Reslotted(arrs, from, tmp))
    ensures ToSet(Reslotted(arrs, from, tmp)) == ToSet(arrs) - {arrs[from + 1]} + {tmp}
  {
    var last := |arrs| - 1;
    var next := Reslotted(arrs, from, tmp);
    forall a | a in ToSet(arrs) - {arrs[from + 1]} + {tmp}
      ensures a in next
    {
      if a == tmp {
        assert next[last] == tmp;
      } else {
        var k :| 0 <= k < |arrs| && arrs[k] == a;
        assert a == if k == last then next[from + 1] else next[k];
      }
    }
  }

  lemma ReslottedContents(arrs: seq<array<int>>, from: nat, tmp: array<int>)
    requires from + 1 < |arrs|
    requires tmp[..] == Merged(arrs[from][..], arrs[from + 1][..])
    ensures Contents(Reslotted(arrs, from, tmp)[from + 1..]) == Rotated(Contents(arrs[from..]))
  {
  }

  /** Interleaves two sorted arrays into a new one. */
  method MergeTwo(a0: array<int>, a1: array<int>) returns (tmp: array<int>)
    ensures fresh(tmp) && tmp[..] == Merged(a0[..], a1[..])
  {
    hide Merged;
    MergedLength(a0[..], a1[..]);
    tmp := new int[a1.Length + a0.Length](_ => 0);
    var a, b, i := 0, 0, 0;
    while a <= a0.Length - 1 && b <= a1.Length - 1
      invariant 0 <= a <= a0.Length && 0 <= b <= a1.Length && i == a + b
      invariant tmp[..i] + Merged(a0[a..], a1[b..]) == Merged(a0[..], a1[..])
    {
      ghost var done := tmp[..i];
      MergedStep(done, a0[..], a1[..], a, b);
      if a0[a] <= a1[b] {
        tmp[i] := a0[a];
        a := a + 1;
      } else {
        tmp[i] := a1[b];
        b := b + 1;
      }
      i := i + 1;
      assert tmp[..i] == done + [tmp[i - 1]];
    }
    if a == a0.Length {
      assert a0[a..] == [];
      MergedWithNothing(a1[b..]);
      CopyTail(a1, b, tmp, i);
    } else if b == a1.Length {
      assert a1[b..] == [];
      MergedWithNothing(a0[a..]);
      CopyTail(a0, a, tmp, i);
    }
  }

  /** Copies what is left of one input behind the part already merged. */
  method CopyTail(source: array<int>, from: nat, tmp: array<int>, at: nat)
    requires from <= source.Length && at + source.Length - from == tmp.Length && source != tmp
    modifies tmp
    ensures tmp[..] == old(tmp[..at]) + source[from..]
  {
    var a, i := from, at;
    while a <= source.Length - 1
      invariant from <= a <= source.Length && i - at == a - from
      invariant tmp[..i] == old(tmp[..at]) + source[from..a]
    {
      tmp[i] := source[a];
      a := a + 1;
      i := i + 1;
    }
  }

  /**
   * The slots of all tasks. `arrs[k]` and `N[k]` are the fields of task k;
   * `live` are the arrays allocated and not yet freed.
   */
  class Merger {
    var arrs: seq<array<int>>
    var N: seq<int>
    ghost var live: set<array<int>>

    constructor (arrays: seq<array<int>>)
      requires AreDistinct(arrays)
      ensures Valid() && arrs == arrays && live == ToSet(arrays)
    {
      arrs := arrays;
      N := seq(|arrays|, k requires 0 <= k < |arrays| => arrays[k].Length);
      live := ToSet(arrays);
    }

    /** Every slot owns a live array of its own and knows its length. */
    ghost predicate Valid()
      reads this
    {
      && AreDistinct(arrs) && ToSet(arrs) <= live
      && |N| == |arrs| && forall k :: 0 <= k < |N| ==> N[k] == arrs[k].Length
    }

    method Free(a: array<int>)
      requires a in live
      modifies this`live
      ensures live == old(live) - {a}
    {
      live := live - {a};
    }

    /** Frees the second array at `from`, moves the last one into its slot and `tmp` into the last slot. */
    method Reslot(from: nat, tmp: array<int>)
      requires Valid() && from + 1 < |arrs| && tmp !in live
      requires tmp.Length == arrs[from].Length + arrs[from + 1].Length
      modifies this
      ensures Valid() && arrs == old(Reslotted(arrs, from, tmp))
      ensures live - ToSet(arrs) == old(live - ToSet(arrs))
    {
      var k := |arrs| - from;
      ReslottedOwns(arrs, from, tmp);
      Free(arrs[from + 1]);
      var tmpN := N[from + 1] + N[from];
      arrs := arrs[from + 1 := arrs[from + k - 1]];
      N := N[from + 1 := N[from + k - 1]];
      live := live + {tmp};
      arrs := arrs[from + k - 1 := tmp];
      N := N[from + k - 1 := tmpN];
    }

    /** One level of `merge`: the two slots at `from` become one array in the last slot. */
    method MergeFirstTwo(from: nat)
      requires Valid() && from + 1 < |arrs|
      modifies this
      ensures Valid() && |arrs| == old(|arrs|)
      ensures Contents(arrs[from + 1..]) == Rotated(old(Contents(arrs[from..])))
      ensures live - ToSet(arrs) == old(live - ToSet(arrs))
    {
      var tmp := MergeTwo(arrs[from], arrs[from + 1]);
      MergedLength(arrs[from][..], arrs[from + 1][..]);
      ghost var before := arrs;
      assert Contents(before[from..]) == old(Contents(arrs[from..]));
      Reslot(from, tmp);
      hide Merged, Rotated, Reslotted;
      ReslottedContents(before, from, tmp);
    }

    /** `merge(k, arrs + from)` with `k == |arrs| - from`. */
    method Merge(from: nat)
      requires Valid() && from < |arrs|
      modifies this
      ensures Valid() && |arrs| == old(|arrs|)
      ensures arrs[|arrs| - 1][..] == MergeAll(old(Contents(arrs[from..])))
      ensures live - ToSet(arrs) == old(live - ToSet(arrs))
      decreases |arrs| - from
    {
      hide Rotated, ToSet, AreDistinct, MergeAll;
      MergeAllStep(Contents(arrs[from..]));
      if |arrs| - from == 1 {
        assert Contents(arrs[from..])[0] == arrs[from][..];
        return;
      }
      MergeFirstTwo(from);
      Merge(from + 1);
    }

    /** The last loop of `main`: every slot's array is freed, once. */
    method FreeAll()
      requires Valid()
      modifies this`live
      ensures live == old(live) - ToSet(arrs)
    {
      for k := 0 to |arrs|
        invariant live == old(live) - ToSet(arrs[..k])
      {
        assert arrs[..k + 1] == arrs[..k] + [arrs[k]];
        Free(arrs[k]);
      }
    }
  }
}
