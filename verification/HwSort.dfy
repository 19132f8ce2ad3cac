/** The whole sorting program: coroutines sort the arrays of all files, then `merge` joins them. */
module HwSort {
  import opened CoroSort
  import opened CoroScheduler
  import opened SlotMerge

  /** One task for each array, with the state it starts in. */
  method MakeTasks(arrays: seq<array<int>>) returns (tasks: seq<Coroutine>, ghost states: seq<Task>)
    requires AreDistinct(arrays) && forall k :: 0 <= k < |arrays| ==> arrays[k].Length >= 2
    ensures |tasks| == |arrays| == |states| && AreApart(tasks)
    ensures forall k :: 0 <= k < |tasks| ==> fresh(tasks[k]) && fresh(tasks[k].stack) && tasks[k].arr == arrays[k]
    ensures forall k :: 0 <= k < |tasks| ==> tasks[k].View() == states[k] == InitialTask(arrays[k][..])
  {
    tasks, states := [], [];
    while |tasks| < |arrays|
      invariant |tasks| == |states| <= |arrays| && AreApart(tasks)
      invariant forall k :: 0 <= k < |tasks| ==> fresh(tasks[k]) && fresh(tasks[k].stack) && tasks[k].arr == arrays[k]
      invariant forall k :: 0 <= k < |tasks| ==> tasks[k].View() == states[k] == InitialTask(arrays[k][..])
    {
      var k := |tasks|;
      var task := new Coroutine(arrays[k]);
      assert task.arr !in arrays[..k];
      tasks, states := tasks + [task], states + [InitialTask(arrays[k][..])];
    }
  }

  /** The coroutine stage: every array ends sorted, with its own numbers. */
  method SortEach(arrays: seq<array<int>>)
    requires arrays != [] && AreDistinct(arrays) && forall k :: 0 <= k < |arrays| ==> arrays[k].Length >= 2
    modifies arrays
    ensures forall k :: 0 <= k < |arrays| ==> Sorted(arrays[k][..])
    ensures forall k :: 0 <= k < |arrays| ==> multiset(arrays[k][..]) == old(multiset(arrays[k][..]))
  {
    var tasks; ghost var states;
    tasks, states := MakeTasks(arrays);
    var scheduler := new Scheduler(tasks);
    forall k | 0 <= k < |states|
      ensures Inv(states[k]) && !states[k].isFinished
      ensures Sorted(SoloResult(states[k]).arr) && multiset(SoloResult(states[k]).arr) == old(multiset(arrays[k][..]))
    {
      SoloResultSorts(arrays[k][..]);
    }
    hide Inv, InitialTask;
    scheduler.QSortCoro(states);
    forall k | 0 <= k < |arrays|
      ensures arrays[k][..] == SoloResult(states[k]).arr
    {
      assert arrays[k] == tasks[k].arr;
      assert tasks[k].View().arr == arrays[k][..];
    }
  }

  lemma {:induction false} UnionOfPermuted(a: seq<seq<int>>, b: seq<seq<int>>)
    requires |a| == |b| && forall k :: 0 <= k < |a| ==> multiset(a[k]) == multiset(b[k])
    ensures Union(a) == Union(b)
  {
    if a != [] {
      UnionOfPermuted(a[1..], b[1..]);
    }
  }

  /**
   * `main`: the output is all the numbers of all files in order, and every
   * array, given or allocated on the way, is freed once.
   */
  method SortFiles(arrays: seq<array<int>>) returns (out: seq<int>, ghost leaked: set<array<int>>)
    requires arrays != [] && AreDistinct(arrays) && forall k :: 0 <= k < |arrays| ==> arrays[k].Length >= 2
    modifies arrays
    ensures Sorted(out) && multiset(out) == old(Union(Contents(arrays)))
    ensures leaked == {}
  {
    ghost var given := Contents(arrays);
    SortEach(arrays);
    UnionOfPermuted(Contents(arrays), given);
    MergeAllSorts(Contents(arrays));
    var merger := new Merger(arrays);
    assert merger.arrs[0..] == arrays;
    merger.Merge(0);
    out := merger.arrs[|arrays| - 1][..];
    merger.FreeAll();
    leaked := merger.live;
  }
}
