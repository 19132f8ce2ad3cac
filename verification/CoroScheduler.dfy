/** The round-robin run of all coroutines over their own arrays. */
module CoroScheduler {
  import opened CoroSort
  import opened Sums

  /** `struct task`: the saved position, the two buffers and the locals of one coroutine. */
  class Coroutine {
    const arr: array<int>
    const stack: array<int>
    var pc: Point
    var isFinished: bool
    var top: int
    var l: int
    var h: int
    var x: int
    var i: int
    var j: int
    var p: int
    var t: int

    ghost function View(): Task
      reads this, arr, stack
    {
      Task(pc, isFinished, arr[..], stack[..], top, l, h, x, i, j, p, t)
    }

    constructor (numbers: array<int>)
      requires numbers.Length >= 2
      ensures arr == numbers && fresh(stack) && fresh(this)
      ensures View() == InitialTask(numbers[..])
    {
      arr := numbers;
      var buffer := new int[numbers.Length](_ => 0);
      stack := buffer;
      pc, isFinished := Start, false;
      top, l, h := 1, 0, numbers.Length - 1;
      x, i, j, p, t := 0, 0, 0, 0, 0;
      new;
      stack[0] := 0;
      stack[1] := numbers.Length - 1;
      assert stack[..] == InitialStack(numbers.Length);
    }

    /** Runs to the next rescheduling point. */
    method Advance()
      requires arr != stack && InBounds(View())
      modifies this, arr, stack
      ensures View() == Resume(old(View()))
    {
      match pc
      case Start => pc := LoopTest;
      case LoopTest => TestLoop();
      case PopH => h := stack[top]; top := top - 1; pc := PopL;
      case PopL => l := stack[top]; top := top - 1; pc := Scan(Pivot);
      case Scan(at) => AdvanceScan(at);
      case Push(side, step) => AdvancePush(side, step);
      case Waiting =>
    }

    method TestLoop()
      modifies this
      ensures View() == AtLoopTest(old(View()))
    {
      if top >= 0 {
        pc := PopH;
      } else {
        pc, isFinished := Waiting, true;
      }
    }

    method AdvanceScan(at: ScanPoint)
      requires arr != stack && ScanInBounds(View(), at)
      modifies this, arr
      ensures View() == ResumeScan(old(View()), at)
    {
      match at
      case Pivot => x := arr[h]; pc := Scan(InitI);
      case InitI => i := l - 1; pc := Scan(InitJ);
      case InitJ => j := l; pc := Scan(Test);
      case Test =>
        if j <= h - 1 {
          pc := Scan(Compare);
        } else {
          t := arr[i + 1];
          pc := Scan(PlaceA);
        }
      case Compare =>
        if arr[j] <= x {
          pc := Scan(IncI);
        } else {
          j := j + 1;
          pc := Scan(Test);
        }
      case IncI => i := i + 1; pc := Scan(LoadI);
      case LoadI => t := arr[i]; pc := Scan(MoveJ);
      case MoveJ => arr[i] := arr[j]; pc := Scan(StoreJ);
      case StoreJ => arr[j] := t; pc := Scan(IncJ);
      case IncJ => j := j + 1; pc := Scan(Test);
      case PlaceA => arr[i + 1] := arr[h]; pc := Scan(PlaceB);
      case PlaceB => arr[h] := t; pc := Scan(SetP);
      case SetP => p := i + 1; pc := Push(Left, Enter);
    }

    method AdvancePush(side: Side, step: PushPoint)
      requires arr != stack && (step == Put1 || step == Put2 ==> 0 <= top < stack.Length)
      modifies this, stack
      ensures View() == ResumePush(old(View()), side, step)
    {
      var lo := if side.Left? then l else p + 1;
      var hi := if side.Left? then p - 1 else h;
      match step
      case Enter =>
        if hi > lo {
          pc := Push(side, Top1);
        } else if side.Left? && h > p + 1 {
          pc := Push(Right, Top1);
        } else {
          TestLoop();
        }
      case Top1 => top := top + 1; pc := Push(side, Put1);
      case Put1 => stack[top] := lo; pc := Push(side, Top2);
      case Top2 => top := top + 1; pc := Push(side, Put2);
      case Put2 => stack[top] := hi; pc := if side.Left? then Push(Right, Enter) else LoopTest;
    }
  }

  /** No two coroutines share an object or a buffer. */
  ghost predicate AreApart(tasks: seq<Coroutine>) {
    && (forall i :: 0 <= i < |tasks| ==> tasks[i].arr != tasks[i].stack)
    && (forall i, j :: 0 <= i < |tasks| && 0 <= j < |tasks| && i != j ==>
          && tasks[i] != tasks[j]
          && tasks[i].arr != tasks[j].arr && tasks[i].arr != tasks[j].stack
          && tasks[i].stack != tasks[j].stack)
  }

  ghost predicate AllInv(states: seq<Task>) {
    forall k :: 0 <= k < |states| ==> Inv(states[k])
  }

  /** The work a coroutine still has to do. */
  ghost function WorkLeft(s: Task): (work: int)
    ensures work >= 0
  {
    if Inv(s) then WorkIsNonNegative(s); Work(s) else 0
  }

  lemma WorkIsNonNegative(s: Task)
    requires Inv(s)
    ensures Work(s) >= 0
  {
    WorkBounds(s);
    ProductDecreases(Total(Pending(s), Size), 0, 7 * |s.arr| + 20, LocalWork(s) + 1, 0);
  }

  /** Where a coroutine would end alone. */
  ghost function Outcome(s: Task): Task {
    if Inv(s) then SoloResult(s) else s
  }

  /** Task by task, the two would end in the same place. */
  ghost predicate SameOutcomes(a: seq<Task>, b: seq<Task>) {
    |a| == |b| && forall k :: 0 <= k < |a| ==> Outcome(a[k]) == Outcome(b[k])
  }

  ghost function SumWork(states: seq<Task>): nat {
    TotalIsNonNegative(states, WorkLeft);
    Total(states, WorkLeft)
  }

  lemma TurnKeepsOutcome(s: Task)
    requires Inv(s)
    ensures InBounds(s) && Inv(Resume(s)) && Outcome(Resume(s)) == Outcome(s)
    ensures s.isFinished ==> Resume(s) == s == Outcome(s)
    ensures !s.isFinished ==> WorkLeft(Resume(s)) < WorkLeft(s)
  {
    ResumeKeepsInv(s);
    if !s.isFinished {
      WorkDecreases(s);
    }
  }

  /** One turn of task `k` within the states of all tasks. */
  lemma TurnKeepsOutcomes(states: seq<Task>, k: nat)
    requires AllInv(states) && k < |states|
    ensures InBounds(states[k])
    ensures AllInv(states[k := Resume(states[k])])
    ensures SameOutcomes(states[k := Resume(states[k])], states)
  {
    hide Inv, WorkLeft, InBounds, Resume, Outcome;
    TurnKeepsOutcome(states[k]);
  }

  lemma TurnUsesWork(states: seq<Task>, k: nat)
    requires AllInv(states) && k < |states|
    ensures InBounds(states[k])
    ensures if states[k].isFinished then states[k := Resume(states[k])] == states
            else SumWork(states[k := Resume(states[k])]) < SumWork(states)
  {
    hide Inv, WorkLeft, InBounds, Resume, Outcome, Total;
    TurnKeepsOutcome(states[k]);
    TotalOfUpdate(states, k, Resume(states[k]), WorkLeft);
  }

  /** Positions between the scheduler's cursor and task `k` of `n`, going round. */
  ghost function Distance(cursor: int, k: int, n: int): int {
    if k >= cursor then k - cursor else k + n - cursor
  }

  lemma NextIsCloser(cursor: nat, k: nat, n: nat)
    requires cursor < n && k < n && cursor != k
    ensures 0 <= Distance((cursor + 1) % n, k, n) < Distance(cursor, k, n)
  {
  }

  ghost predicate AllDone(states: seq<Task>) {
    forall k :: 0 <= k < |states| ==> states[k].isFinished
  }

  /** Tasks that are all done, and would end as the initial ones, are the solo results of these. */
  lemma DoneIsSoloResult(states: seq<Task>, initial: seq<Task>)
    requires AllInv(states) && AllInv(initial) && SameOutcomes(states, initial) && AllDone(states)
    ensures forall k :: 0 <= k < |states| ==> Inv(initial[k]) && states[k] == SoloResult(initial[k])
  {
    hide Inv, WorkLeft, InBounds, Resume, SoloResult;
    forall k | 0 <= k < |states|
      ensures Inv(initial[k]) && states[k] == SoloResult(initial[k])
    {
      TurnKeepsOutcome(states[k]);
    }
  }

  class Scheduler {
    const tasks: seq<Coroutine>
    var curT: nat

    constructor (tasks: seq<Coroutine>)
      ensures this.tasks == tasks && curT == 0
    {
      this.tasks := tasks;
      curT := 0;
    }

    ghost function Footprint(): set<object> {
      (set c: Coroutine | c in tasks :: c as object)
      + (set c: Coroutine | c in tasks :: c.arr as object)
      + (set c: Coroutine | c in tasks :: c.stack as object)
    }

    /** Reads the finished flags of all tasks. */
    method AllFinished() returns (all: bool)
      ensures all <==> forall k :: 0 <= k < |tasks| ==> tasks[k].isFinished
    {
      all := true;
      for k := 0 to |tasks|
        invariant all <==> forall m :: 0 <= m < k ==> tasks[m].isFinished
      {
        if !tasks[k].isFinished {
          all := false;
          break;
        }
      }
    }

    /** The objects stand in the given states. */
    ghost predicate Mirrors(states: seq<Task>)
      reads Footprint()
    {
      |states| == |tasks| && forall k :: 0 <= k < |tasks| ==> states[k] == tasks[k].View()
    }

    /** Resumes the current task, then passes control on unless everything is finished. */
    method Turn(ghost states: seq<Task>) returns (done: bool, ghost after: seq<Task>)
      requires curT < |tasks| && AreApart(tasks)
      requires Mirrors(states) && InBounds(states[curT])
      modifies this`curT, Footprint()
      ensures after == states[old(curT) := Resume(states[old(curT)])] && Mirrors(after)
      ensures done <==> AllDone(after)
      ensures !done ==> curT == (old(curT) + 1) % |tasks|
    {
      hide Inv, WorkLeft, InBounds, Resume, Outcome;
      done := false;
      tasks[curT].Advance();
      after := states[curT := Resume(states[curT])];
      assert forall k :: 0 <= k < |tasks| && k != curT ==> states[k] == tasks[k].View();
      if tasks[curT].isFinished {
        done := AllFinished();
      }
      if !done {
        curT := (curT + 1) % |tasks|;
      }
    }

    /** The loop of turns, with the states the tasks end in. */
    method RunTurns(ghost initial: seq<Task>) returns (ghost states: seq<Task>)
      requires curT < |initial| == |tasks| && AreApart(tasks)
      requires Mirrors(initial) && AllInv(initial)
      requires !initial[curT].isFinished
      modifies this`curT, Footprint()
      ensures Mirrors(states) && AllInv(states) && SameOutcomes(states, initial) && AllDone(states)
    {
      hide Inv, WorkLeft, InBounds, Resume, Outcome, Distance, SumWork, Mirrors, AllInv;
      states := initial;
      ghost var target: nat := curT;
      while true
        invariant curT < |tasks| == |states| && Mirrors(states) && AllInv(states)
        invariant SameOutcomes(states, initial)
        invariant target < |states| && !states[target].isFinished
        decreases SumWork(states), Distance(curT, target, |tasks|)
      {
        ghost var was, before := curT, states;
        TurnKeepsOutcomes(states, curT);
        TurnUsesWork(states, curT);
        var done;
        done, states := Turn(states);
        if done {
          return;
        }
        if before[was].isFinished {
          NextIsCloser(was, target, |tasks|);
        } else {
          target :| 0 <= target < |states| && !states[target].isFinished;
        }
      }
    }

    /**
     * The scheduler stops, and only once every task is finished; by then each
     * task stands exactly where it would have ended alone.
     */
    method QSortCoro(ghost initial: seq<Task>)
      requires curT < |initial| == |tasks| && AreApart(tasks)
      requires Mirrors(initial) && AllInv(initial)
      requires !initial[curT].isFinished
      modifies this`curT, Footprint()
      ensures forall k :: 0 <= k < |tasks| ==> tasks[k].isFinished
      ensures forall k :: 0 <= k < |tasks| ==> tasks[k].View() == SoloResult(initial[k])
    {
      hide Inv, WorkLeft, InBounds, Resume, Outcome, SoloResult, AllInv, SameOutcomes;
      ghost var states := RunTurns(initial);
      DoneIsSoloResult(states, initial);
    }
  }
}
