/** The futex lock, and any number of threads that each increment a shared counter under it. */
module FutexLock {
  import opened Sums

  /**
   * The next access of a thread: the compare-and-swap of `futex_lock`, the
   * `FUTEX_WAIT` call or being parked in it, the load and store of
   * `counter = counter + 1`, the compare-and-swap and the `FUTEX_WAKE` of
   * `futex_unlock`.
   */
  datatype Pc = Lock | Wait | Parked | Load | Store(value: int) | Unlock | Wake | Done

  /** `left` rounds remain, the current one included. */
  datatype Thread = Thread(pc: Pc, left: nat)

  datatype State = State(futex: int, counter: int, threads: seq<Thread>)

  function Initial(threads: nat, rounds: nat): State {
    State(0, 0, seq(threads, _ => Thread(if rounds == 0 then Done else Lock, rounds)))
  }

  /** The end of one round: `++i` and the loop test. */
  function RoundOver(th: Thread): Thread {
    if th.left <= 1 then Thread(Done, 0) else Thread(Lock, th.left - 1)
  }

  datatype Action = Step(t: nat) | WakeOne(t: nat, woken: nat) | Interrupted(t: nat)

  /** `FUTEX_WAKE` with count 1 wakes one parked thread, whichever, if there is any. */
  ghost predicate Enabled(s: State, a: Action) {
    && a.t < |s.threads|
    && var pc := s.threads[a.t].pc;
       match a
       case Step(_) => !pc.Parked? && !pc.Wake? && !pc.Done?
       case WakeOne(_, woken) =>
         && pc.Wake?
         && (if exists u :: 0 <= u < |s.threads| && s.threads[u].pc.Parked?
             then woken < |s.threads| && s.threads[woken].pc.Parked?
             else woken >= |s.threads|)
       case Interrupted(_) => pc.Parked?
  }

  function Stepped(s: State, t: nat): State
    requires t < |s.threads|
  {
    var th := s.threads[t];
    match th.pc
    case Lock =>
      if s.futex == 0 then s.(futex := 1, threads := s.threads[t := th.(pc := Load)])
      else s.(threads := s.threads[t := th.(pc := Wait)])
    case Wait => s.(threads := s.threads[t := th.(pc := if s.futex == 1 then Parked else Lock)])
    case Load => s.(threads := s.threads[t := th.(pc := Store(s.counter))])
    case Store(value) => s.(counter := value + 1, threads := s.threads[t := th.(pc := Unlock)])
    case Unlock => s.(futex := if s.futex == 1 then 0 else s.futex, threads := s.threads[t := th.(pc := Wake)])
    case _ => s
  }

  ghost function Next(s: State, a: Action): State
    requires Enabled(s, a)
  {
    match a
    case Step(t) => Stepped(s, t)
    case WakeOne(t, woken) =>
      var after := s.threads[t := RoundOver(s.threads[t])];
      s.(threads := if woken < |after| then after[woken := after[woken].(pc := Lock)] else after)
    case Interrupted(t) => s.(threads := s.threads[t := s.threads[t].(pc := Lock)])
  }

  // ---------- The shared words, stepped in place ----------

  class Machine {
    var futex: int
    var counter: int
    var threads: seq<Thread>

    ghost function View(): State
      reads this
    {
      State(futex, counter, threads)
    }

    constructor (n: nat, rounds: nat)
      ensures View() == Initial(n, rounds)
    {
      futex, counter := 0, 0;
      threads := seq(n, _ => Thread(if rounds == 0 then Done else Lock, rounds));
    }

    method CompareAndSwap(expected: int, desired: int) returns (was: int)
      modifies this`futex
      ensures was == old(futex) && futex == if was == expected then desired else was
    {
      was := futex;
      if futex == expected {
        futex := desired;
      }
    }

    method StepThread(t: nat)
      requires t < |threads|
      modifies this
      ensures View() == Stepped(old(View()), t)
    {
      var th := threads[t];
      match th.pc
      case Lock =>
        var was := CompareAndSwap(0, 1);
        threads := threads[t := th.(pc := if was != 0 then Wait else Load)];
      case Wait => threads := threads[t := th.(pc := if futex == 1 then Parked else Lock)];
      case Load => threads := threads[t := th.(pc := Store(counter))];
      case Store(value) => counter := value + 1; threads := threads[t := th.(pc := Unlock)];
      case Unlock =>
        var was := CompareAndSwap(1, 0);
        threads := threads[t := th.(pc := Wake)];
      case _ =>
    }
  }

  // ---------- Invariant ----------

  ghost predicate Holds(pc: Pc) {
    pc.Load? || pc.Store? || pc.Unlock?
  }

  /** Increments the thread has not yet stored. */
  ghost function Unstored(th: Thread): int {
    if th.pc.Unlock? || th.pc.Wake? then th.left - 1 else th.left
  }

  ghost predicate SomeoneHolds(s: State) {
    exists t :: 0 <= t < |s.threads| && Holds(s.threads[t].pc)
  }

  ghost predicate Inv(s: State, rounds: nat) {
    && (s.futex == 0 || s.futex == 1) && (s.futex == 1 <==> SomeoneHolds(s))
    && (forall t, u :: 0 <= t < |s.threads| && 0 <= u < |s.threads| ==>
          Holds(s.threads[t].pc) && Holds(s.threads[u].pc) ==> t == u)
    && (forall t :: 0 <= t < |s.threads| ==> (s.threads[t].pc.Done? <==> s.threads[t].left == 0))
    && (forall t :: 0 <= t < |s.threads| && s.threads[t].pc.Store? ==> s.threads[t].pc.value == s.counter)
    && s.counter + Total(s.threads, Unstored) == |s.threads| * rounds
  }

  /** Someone about to wake a sleeper, or awake and about to try the lock. */
  ghost predicate IsStirring(pc: Pc) {
    pc.Wake? || pc.Lock? || pc.Wait?
  }

  ghost predicate NoneForgotten(s: State) {
    (exists t :: 0 <= t < |s.threads| && s.threads[t].pc.Parked?) ==>
      s.futex == 1 || exists u :: 0 <= u < |s.threads| && IsStirring(s.threads[u].pc)
  }

  lemma {:induction false} TotalOfEqual(threads: seq<Thread>, rounds: nat)
    requires forall t :: 0 <= t < |threads| ==> Unstored(threads[t]) == rounds
    ensures Total(threads, Unstored) == |threads| * rounds
  {
    if threads != [] {
      TotalOfEqual(threads[1..], rounds);
    }
  }

  lemma InitialInv(threads: nat, rounds: nat)
    ensures Inv(Initial(threads, rounds), rounds) && NoneForgotten(Initial(threads, rounds))
  {
    TotalOfEqual(Initial(threads, rounds).threads, rounds);
  }

  lemma StepKeepsInv(s: State, t: nat, rounds: nat)
    requires Inv(s, rounds) && Enabled(s, Step(t))
    ensures Inv(Next(s, Step(t)), rounds)
  {
    var s' := Next(s, Step(t));
    TotalOfUpdate(s.threads, t, s'.threads[t], Unstored);
    assert SomeoneHolds(s) && !Holds(s.threads[t].pc) ==> SomeoneHolds(s') by {
      if u :| 0 <= u < |s.threads| && Holds(s.threads[u].pc) {
        assert Holds(s'.threads[u].pc) || u == t;
      }
    }
    assert Holds(s'.threads[t].pc) ==> SomeoneHolds(s');
  }

  lemma WakeKeepsTotal(threads: seq<Thread>, t: nat, woken: nat)
    requires t < |threads| && threads[t].pc.Wake? && threads[t].left > 0
    requires woken < |threads| ==> threads[woken].pc.Parked?
    ensures var after := threads[t := RoundOver(threads[t])];
            var all := if woken < |after| then after[woken := after[woken].(pc := Lock)] else after;
            Total(all, Unstored) == Total(threads, Unstored)
  {
    hide Total;
    var after := threads[t := RoundOver(threads[t])];
    TotalOfUpdate(threads, t, after[t], Unstored);
    if woken < |after| {
      TotalOfUpdate(after, woken, after[woken].(pc := Lock), Unstored);
    }
  }

  lemma WakeKeepsInv(s: State, t: nat, woken: nat, rounds: nat)
    requires Inv(s, rounds) && Enabled(s, WakeOne(t, woken))
    ensures Inv(Next(s, WakeOne(t, woken)), rounds)
  {
    hide Total, Unstored;
    var s' := Next(s, WakeOne(t, woken));
    WakeKeepsTotal(s.threads, t, woken);
    assert SomeoneHolds(s) ==> SomeoneHolds(s') by {
      if u :| 0 <= u < |s.threads| && Holds(s.threads[u].pc) {
        assert Holds(s'.threads[u].pc);
      }
    }
  }

  lemma InterruptKeepsInv(s: State, t: nat, rounds: nat)
    requires Inv(s, rounds) && Enabled(s, Interrupted(t))
    ensures Inv(Next(s, Interrupted(t)), rounds)
  {
    var s' := Next(s, Interrupted(t));
    TotalOfUpdate(s.threads, t, s'.threads[t], Unstored);
    assert SomeoneHolds(s) ==> SomeoneHolds(s') by {
      if u :| 0 <= u < |s.threads| && Holds(s.threads[u].pc) {
        assert Holds(s'.threads[u].pc);
      }
    }
  }

  lemma ActionKeepsInv(s: State, a: Action, rounds: nat)
    requires Inv(s, rounds) && NoneForgotten(s) && Enabled(s, a)
    ensures Inv(Next(s, a), rounds) && NoneForgotten(Next(s, a))
  {
    match a
    case Step(t) =>
      StepKeepsInv(s, t, rounds);
      StepForgetsNone(s, a, rounds);
    case WakeOne(t, woken) =>
      WakeKeepsInv(s, t, woken, rounds);
      StepForgetsNone(s, a, rounds);
    case Interrupted(t) =>
      InterruptKeepsInv(s, t, rounds);
      StepForgetsNone(s, a, rounds);
  }

  lemma StepForgetsNone(s: State, a: Action, rounds: nat)
    requires Inv(s, rounds) && NoneForgotten(s) && Enabled(s, a)
    ensures NoneForgotten(Next(s, a))
  {
    var s' := Next(s, a);
    if p :| 0 <= p < |s'.threads| && s'.threads[p].pc.Parked? && s'.futex != 1 {
      if a.WakeOne? {
        assert s.threads[p].pc.Parked?;
        assert s'.threads[a.woken].pc == Lock;
      } else {
        assert Holds(s.threads[a.t].pc) ==> SomeoneHolds(s);
        assert IsStirring(s'.threads[a.t].pc);
      }
    }
  }

  // ---------- Whole runs ----------

  ghost predicate Leads(s: State, run: seq<Action>, end: State)
    decreases |run|
  {
    if run == [] then s == end else Enabled(s, run[0]) && Leads(Next(s, run[0]), run[1..], end)
  }

  ghost predicate Reachable(threads: nat, rounds: nat, s: State) {
    exists run :: Leads(Initial(threads, rounds), run, s)
  }

  lemma {:induction false} RunKeepsInv(s: State, run: seq<Action>, end: State, rounds: nat)
    requires Inv(s, rounds) && NoneForgotten(s) && Leads(s, run, end)
    ensures Inv(end, rounds) && NoneForgotten(end) && |end.threads| == |s.threads|
    decreases |run|
  {
    if run != [] {
      ActionKeepsInv(s, run[0], rounds);
      RunKeepsInv(Next(s, run[0]), run[1..], end, rounds);
    }
  }

  lemma ReachableInv(threads: nat, rounds: nat, s: State)
    requires Reachable(threads, rounds, s)
    ensures Inv(s, rounds) && NoneForgotten(s) && |s.threads| == threads
  {
    var run :| Leads(Initial(threads, rounds), run, s);
    InitialInv(threads, rounds);
    RunKeepsInv(Initial(threads, rounds), run, s, rounds);
  }

  ghost predicate AllDone(s: State) {
    forall t :: 0 <= t < |s.threads| ==> s.threads[t].pc.Done?
  }

  lemma {:induction false} DoneStoredAll(threads: seq<Thread>)
    requires forall t :: 0 <= t < |threads| ==> threads[t].pc.Done? && threads[t].left == 0
    ensures Total(threads, Unstored) == 0
  {
    if threads != [] {
      DoneStoredAll(threads[1..]);
    }
  }

  /** No increment is lost: at most one thread is between lock and unlock, and the counter ends at the product. */
  lemma CounterIsExact(threads: nat, rounds: nat, s: State)
    requires Reachable(threads, rounds, s)
    ensures forall t, u :: 0 <= t < |s.threads| && 0 <= u < |s.threads| && t != u && Holds(s.threads[t].pc) ==>
          !Holds(s.threads[u].pc)
    ensures AllDone(s) ==> s.counter == threads * rounds
  {
    ReachableInv(threads, rounds, s);
    if AllDone(s) {
      DoneStoredAll(s.threads);
    }
  }

  /** A parked thread always has a holder, a pending wake-up or an awake contender ahead of it. */
  lemma ParkedIsNotForgotten(threads: nat, rounds: nat, s: State, t: nat)
    requires Reachable(threads, rounds, s) && t < |s.threads| && s.threads[t].pc.Parked?
    ensures exists u :: 0 <= u < |s.threads| && (Holds(s.threads[u].pc) || IsStirring(s.threads[u].pc))
  {
    ReachableInv(threads, rounds, s);
    if s.futex == 1 {
      assert SomeoneHolds(s);
    }
  }

  // ---------- No run gets stuck ----------

  ghost function Potential(th: Thread): int {
    if th.pc.Done? then 0 else 7 * th.left + Rank(th.pc)
  }

  /** Accesses of the round to come; trying, waiting and being parked are one stage. */
  ghost function Rank(pc: Pc): int {
    match pc
    case Lock | Wait | Parked => 5
    case Load => 4
    case Store(_) => 3
    case Unlock => 2
    case Wake => 1
    case Done => 0
  }

  /** Steps a thread makes within that stage while the futex keeps its value. */
  ghost function Tries(futex: int): Thread -> int {
    (th: Thread) =>
      if th.pc.Lock? then (if futex == 0 then 0 else 2) else if th.pc.Wait? then 1 else 0
  }

  /** More than the steps that are left if no wait is interrupted. */
  ghost function Work(s: State): int {
    Total(s.threads, Potential) * (2 * |s.threads| + 1) + Total(s.threads, Tries(s.futex))
  }

  lemma PotentialIsNonNegative(s: State)
    ensures Total(s.threads, Potential) >= 0
  {
    TotalIsNonNegative(s.threads, Potential);
  }

  lemma {:induction false} TriesFit(threads: seq<Thread>, futex: int)
    ensures 0 <= Total(threads, Tries(futex)) <= 2 * |threads|
  {
    if threads != [] {
      TriesFit(threads[1..], futex);
    }
  }

  /** A step either takes its thread a stage further or is one of its tries. */
  lemma StepUsesUp(s: State, t: nat, rounds: nat)
    requires Inv(s, rounds) && Enabled(s, Step(t))
    ensures var s' := Next(s, Step(t));
            && |s'.threads| == |s.threads|
            && (Total(s'.threads, Potential) < Total(s.threads, Potential)
                || (Total(s'.threads, Potential) == Total(s.threads, Potential)
                    && Total(s'.threads, Tries(s'.futex)) < Total(s.threads, Tries(s.futex))))
  {
    hide Total, SomeoneHolds, Unstored;
    var s' := Next(s, Step(t));
    TotalOfUpdate(s.threads, t, s'.threads[t], Potential);
    TotalOfUpdate(s.threads, t, s'.threads[t], Tries(s.futex));
  }

  lemma WakeUsesUp(s: State, t: nat, woken: nat)
    requires Enabled(s, WakeOne(t, woken))
    ensures |Next(s, WakeOne(t, woken)).threads| == |s.threads|
    ensures Total(Next(s, WakeOne(t, woken)).threads, Potential) < Total(s.threads, Potential)
  {
    hide Total;
    var after := s.threads[t := RoundOver(s.threads[t])];
    TotalOfUpdate(s.threads, t, after[t], Potential);
    if woken < |after| {
      TotalOfUpdate(after, woken, after[woken].(pc := Lock), Potential);
    }
  }

  /** Every step and every wake uses up work. */
  lemma ActionUsesWork(s: State, a: Action, rounds: nat)
    requires Inv(s, rounds) && Enabled(s, a) && !a.Interrupted?
    ensures Work(Next(s, a)) < Work(s)
  {
    hide Inv, Enabled, Next, Total;
    var s' := Next(s, a);
    match a {
      case Step(t) => StepUsesUp(s, t, rounds);
      case WakeOne(t, woken) => WakeUsesUp(s, t, woken);
    }
    TriesFit(s.threads, s.futex);
    TriesFit(s'.threads, s'.futex);
    PotentialIsNonNegative(s');
    ProductDecreases(Total(s.threads, Potential), Total(s'.threads, Potential), 2 * |s.threads| + 1,
                     Total(s.threads, Tries(s.futex)), Total(s'.threads, Tries(s'.futex)));
  }

  /** An interrupted wait costs at most two more tries. */
  lemma InterruptionAddsLittle(s: State, t: nat)
    requires Enabled(s, Interrupted(t))
    ensures Work(Next(s, Interrupted(t))) <= Work(s) + 2
  {
    hide Total;
    var s' := Next(s, Interrupted(t));
    TotalOfUpdate(s.threads, t, s'.threads[t], Potential);
    TotalOfUpdate(s.threads, t, s'.threads[t], Tries(s.futex));
    assert Total(s'.threads, Potential) == Total(s.threads, Potential);
  }

  lemma WorkIsNonNegative(s: State)
    ensures Work(s) >= 0
  {
    PotentialIsNonNegative(s);
    TriesFit(s.threads, s.futex);
    assert Total(s.threads, Potential) * (2 * |s.threads| + 1) >= 0;
  }

  /** `FUTEX_WAKE` is never blocked. */
  lemma WakeIsEnabled(s: State, t: nat) returns (woken: nat)
    requires t < |s.threads| && s.threads[t].pc.Wake?
    ensures Enabled(s, WakeOne(t, woken))
  {
    if u :| 0 <= u < |s.threads| && s.threads[u].pc.Parked? {
      woken := u;
    } else {
      woken := |s.threads|;
    }
  }

  /** While a thread is not done some step or wake is enabled, and uses up work; no interruption is needed. */
  lemma SomeActionLowersPotential(s: State, rounds: nat) returns (a: Action)
    requires Inv(s, rounds) && NoneForgotten(s) && !AllDone(s)
    ensures Enabled(s, a) && !a.Interrupted? && Work(Next(s, a)) < Work(s)
  {
    hide Total, Work, Unstored;
    var d :| 0 <= d < |s.threads| && !s.threads[d].pc.Done?;
    assert Holds(s.threads[d].pc) ==> SomeoneHolds(s);
    var t: nat :| t < |s.threads| && if s.futex == 1 then Holds(s.threads[t].pc) else IsStirring(s.threads[t].pc);
    assert s.futex == 1 ==> Holds(s.threads[t].pc);
    assert s.futex == 0 ==> IsStirring(s.threads[t].pc);
    if s.threads[t].pc.Wake? {
      var woken := WakeIsEnabled(s, t);
      a := WakeOne(t, woken);
    } else {
      a := Step(t);
    }
    ActionUsesWork(s, a, rounds);
  }

  ghost predicate Uninterrupted(run: seq<Action>) {
    forall k :: 0 <= k < |run| ==> !run[k].Interrupted?
  }

  ghost function Interruptions(run: seq<Action>): nat {
    if run == [] then 0 else (if run[0].Interrupted? then 1 else 0) + Interruptions(run[1..])
  }

  /** Every reachable state has a continuation in which all threads finish. */
  lemma {:induction false} CanFinish(s: State, rounds: nat) returns (run: seq<Action>, end: State)
    requires Inv(s, rounds) && NoneForgotten(s)
    ensures Leads(s, run, end) && Uninterrupted(run) && AllDone(end)
    decreases Work(s)
  {
    hide Inv, NoneForgotten, Work, Enabled, Next, AllDone;
    if AllDone(s) {
      run, end := [], s;
    } else {
      var a := SomeActionLowersPotential(s, rounds);
      ActionKeepsInv(s, a, rounds);
      WorkIsNonNegative(Next(s, a));
      var rest;
      rest, end := CanFinish(Next(s, a), rounds);
      run := [a] + rest;
      assert run[1..] == rest;
    }
  }

  /** From every reachable state the threads' own steps and wakes lead to the end, without any interruption. */
  lemma NoRunGetsStuck(threads: nat, rounds: nat, s: State) returns (run: seq<Action>, end: State)
    requires Reachable(threads, rounds, s)
    ensures Leads(s, run, end) && Uninterrupted(run) && AllDone(end) && end.counter == threads * rounds
  {
    ReachableInv(threads, rounds, s);
    run, end := CanFinish(s, rounds);
    RunKeepsInv(s, run, end, rounds);
    DoneStoredAll(end.threads);
  }

  lemma {:induction false} WorkBoundsRun(s: State, run: seq<Action>, end: State, rounds: nat)
    requires Inv(s, rounds) && NoneForgotten(s) && Leads(s, run, end)
    ensures |run| <= Work(s) + 3 * Interruptions(run)
    decreases |run|
  {
    hide Inv, NoneForgotten, Work, Enabled, Next;
    WorkIsNonNegative(s);
    if run != [] {
      ActionKeepsInv(s, run[0], rounds);
      if run[0].Interrupted? {
        InterruptionAddsLittle(s, run[0].t);
      } else {
        ActionUsesWork(s, run[0], rounds);
      }
      WorkBoundsRun(Next(s, run[0]), run[1..], end, rounds);
    }
  }

  /**
   * However the threads are scheduled, a run is no longer than its work and its
   * interruptions allow; and where only an interruption could follow, all
   * threads are done.
   */
  lemma EveryRunFinishes(threads: nat, rounds: nat, s: State, more: seq<Action>, end: State)
    requires Reachable(threads, rounds, s) && Leads(s, more, end)
    ensures |more| <= Work(s) + 3 * Interruptions(more)
    ensures (forall a :: Enabled(end, a) ==> a.Interrupted?) ==> AllDone(end) && end.counter == threads * rounds
  {
    hide Work, Enabled;
    ReachableInv(threads, rounds, s);
    WorkBoundsRun(s, more, end, rounds);
    RunKeepsInv(s, more, end, rounds);
    if !AllDone(end) {
      var a := SomeActionLowersPotential(end, rounds);
    } else {
      DoneStoredAll(end.threads);
    }
  }
}
