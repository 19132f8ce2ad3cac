/**
 * Detachable threads: any number of threads, each with the owner that detaches
 * or joins it, and the shared list on which finished threads leave their stacks.
 */
module CThread {
  import opened Sums

  const NULL: int := -1

  /** The heap node of one thread's stack; `retired` counts how often it was linked, `freed` how often it was freed. */
  datatype Node = Node(tid: int, next: int, retired: nat, freed: nat)

  /** `stack_list`, the nodes and the spin lock that guards them. */
  datatype Memory = Memory(nodes: seq<Node>, list: int, guard: bool)

  /** Inside `cthread_destroy`: `iter` is the node the walk has reached. */
  datatype Walk = Acquire | Look(iter: int) | Free(iter: int) | Link(iter: int) | Publish | Release

  /** Inside `cthread_runner`, from the kernel's store of the tid to its clearing. */
  datatype RunnerPc =
    | Begin | Func | RunnerLock | CheckDetached | RunnerDestroy(walk: Walk) | Finish | RunnerUnlock | Exit | Gone

  /** Inside `cthread_detach` or `cthread_join`. */
  datatype OwnerPc =
    | OwnerLock | CheckFinished | OwnerDestroy(walk: Walk) | Detach | OwnerUnlock | Detached
    | JoinWait | JoinDestroy(walk: Walk) | Joined

  datatype Thread = Thread(runner: RunnerPc, owner: OwnerPc, lock: bool, finished: bool, detached: bool)

  datatype State = State(threads: seq<Thread>, mem: Memory)

  /** Created threads; before the kernel stores it, `tid` is whatever `malloc` left there. */
  ghost predicate IsInitial(s: State) {
    && |s.mem.nodes| == |s.threads| && s.mem.list == NULL && !s.mem.guard
    && (forall i :: 0 <= i < |s.threads| ==>
          && s.threads[i].runner == Begin && (s.threads[i].owner == OwnerLock || s.threads[i].owner == JoinWait)
          && !s.threads[i].lock && !s.threads[i].finished && !s.threads[i].detached)
    && (forall i :: 0 <= i < |s.mem.nodes| ==> s.mem.nodes[i].retired == 0 && s.mem.nodes[i].freed == 0)
  }

  // ---------- cthread_destroy ----------

  predicate IsLive(m: Memory, i: int) {
    0 <= i < |m.nodes| && m.nodes[i].freed == 0
  }

  /** The next access of a walk touches only nodes that are not freed. */
  predicate WalkIsSafe(m: Memory, own: int, w: Walk) {
    match w
    case Look(iter) => iter == NULL || IsLive(m, iter)
    case Free(iter) => IsLive(m, iter)
    case Link(_) | Publish => IsLive(m, own)
    case _ => true
  }

  function WalkMemory(m: Memory, own: int, w: Walk): Memory
    requires WalkIsSafe(m, own, w)
  {
    match w
    case Acquire => m.(guard := true)
    case Look(_) => m
    case Free(iter) => m.(nodes := m.nodes[iter := m.nodes[iter].(freed := m.nodes[iter].freed + 1)])
    case Link(iter) => m.(nodes := m.nodes[own := m.nodes[own].(next := iter)])
    case Publish => m.(nodes := m.nodes[own := m.nodes[own].(retired := m.nodes[own].retired + 1)], list := own)
    case Release => m.(guard := false)
  }

  function WalkOn(m: Memory, own: int, w: Walk): Walk
    requires WalkIsSafe(m, own, w) && w != Release
  {
    match w
    case Acquire => Look(m.list)
    case Look(iter) => if iter == NULL || m.nodes[iter].tid != 0 then Link(iter) else Free(iter)
    case Free(iter) => Look(m.nodes[iter].next)
    case Link(_) => Publish
    case _ => Release
  }

  // ---------- Steps ----------

  /** `Start` is the kernel storing the tid; the owner of a thread and its runner move independently. */
  datatype Action = Start(i: nat, tid: int) | Run(i: nat) | Own(i: nat)

  /** A spin lock that is taken and a join that still waits are actions that are not enabled. */
  predicate Enabled(s: State, a: Action) {
    && a.i < |s.threads|
    && var th := s.threads[a.i];
       match a
       case Start(_, tid) => th.runner.Begin? && tid != 0
       case Run(_) =>
         && !th.runner.Begin? && !th.runner.Gone?
         && (th.runner.RunnerLock? ==> !th.lock)
         && (th.runner == RunnerDestroy(Acquire) ==> !s.mem.guard)
       case Own(_) =>
         && !th.owner.Detached? && !th.owner.Joined?
         && (th.owner.OwnerLock? ==> !th.lock)
         && (th.owner.JoinWait? ==> th.finished)
         && (th.owner == OwnerDestroy(Acquire) || th.owner == JoinDestroy(Acquire) ==> !s.mem.guard)
  }

  /** Every node the action reads or writes is allocated and not freed. */
  predicate IsSafe(s: State, a: Action)
    requires Enabled(s, a)
  {
    var th := s.threads[a.i];
    match a
    case Start(i, _) => IsLive(s.mem, i)
    case Run(i) =>
      && (th.runner.Exit? ==> IsLive(s.mem, i))
      && (th.runner.RunnerDestroy? ==> WalkIsSafe(s.mem, i, th.runner.walk))
    case Own(i) =>
      && (th.owner.OwnerDestroy? || th.owner.JoinDestroy? ==> WalkIsSafe(s.mem, i, th.owner.walk))
  }

  /** The thread's own part of a runner's step. */
  function RunnerNext(m: Memory, i: nat, th: Thread): Thread
    requires th.runner.RunnerDestroy? ==> WalkIsSafe(m, i, th.runner.walk)
  {
    match th.runner
    case Func => th.(runner := RunnerLock)
    case RunnerLock => th.(lock := true, runner := CheckDetached)
    case CheckDetached => th.(runner := if th.detached then RunnerDestroy(Acquire) else Finish)
    case RunnerDestroy(w) => th.(runner := if w == Release then Finish else RunnerDestroy(WalkOn(m, i, w)))
    case Finish => th.(finished := true, runner := RunnerUnlock)
    case RunnerUnlock => th.(lock := false, runner := Exit)
    case Exit => th.(runner := Gone)
    case _ => th
  }

  function OwnerNext(m: Memory, i: nat, th: Thread): Thread
    requires th.owner.OwnerDestroy? || th.owner.JoinDestroy? ==> WalkIsSafe(m, i, th.owner.walk)
  {
    match th.owner
    case OwnerLock => th.(lock := true, owner := CheckFinished)
    case CheckFinished => th.(owner := if th.finished then OwnerDestroy(Acquire) else Detach)
    case OwnerDestroy(w) => th.(owner := if w == Release then Detach else OwnerDestroy(WalkOn(m, i, w)))
    case Detach => th.(detached := true, owner := OwnerUnlock)
    case OwnerUnlock => th.(lock := false, owner := Detached)
    case JoinWait => th.(owner := JoinDestroy(Acquire))
    case JoinDestroy(w) => th.(owner := if w == Release then Joined else JoinDestroy(WalkOn(m, i, w)))
    case _ => th
  }

  function SetTid(m: Memory, i: nat, tid: int): Memory
    requires IsLive(m, i)
  {
    m.(nodes := m.nodes[i := m.nodes[i].(tid := tid)])
  }

  function Next(s: State, a: Action): State
    requires Enabled(s, a) && IsSafe(s, a)
  {
    var th := s.threads[a.i];
    match a
    case Start(i, tid) => State(s.threads[i := th.(runner := Func)], SetTid(s.mem, i, tid))
    case Run(i) =>
      State(s.threads[i := RunnerNext(s.mem, i, th)],
            match th.runner
            case Exit => SetTid(s.mem, i, 0)
            case RunnerDestroy(w) => WalkMemory(s.mem, i, w)
            case _ => s.mem)
    case Own(i) =>
      State(s.threads[i := OwnerNext(s.mem, i, th)],
            match th.owner
            case OwnerDestroy(w) => WalkMemory(s.mem, i, w)
            case JoinDestroy(w) => WalkMemory(s.mem, i, w)
            case _ => s.mem)
  }

  // ---------- The shared memory, stepped in place ----------

  class Machine {
    var threads: seq<Thread>
    var nodes: seq<Node>
    var list: int
    var guard: bool

    ghost function Heap(): Memory
      reads this`nodes, this`list, this`guard
    {
      Memory(nodes, list, guard)
    }

    ghost function View(): State
      reads this
    {
      State(threads, Heap())
    }

    constructor (threads: seq<Thread>, nodes: seq<Node>)
      ensures View() == State(threads, Memory(nodes, NULL, false))
    {
      this.threads, this.nodes, list, guard := threads, nodes, NULL, false;
    }

    /** `spin_lock` of the list when the compare-and-swap succeeds, `spin_unlock` otherwise. */
    method CompareAndSwap(expected: bool, desired: bool) returns (ok: bool)
      modifies this`guard
      ensures ok <==> old(guard) == expected
      ensures guard == if ok then desired else old(guard)
    {
      ok := guard == expected;
      if ok {
        guard := desired;
      }
    }

    /** One access of `cthread_destroy` for the thread with node `own`. */
    method DestroyStep(own: nat, w: Walk) returns (w': Walk, over: bool)
      requires WalkIsSafe(Heap(), own, w) && (w == Acquire ==> !guard) && (w == Release ==> guard)
      modifies this`nodes, this`list, this`guard
      ensures Heap() == WalkMemory(old(Heap()), own, w)
      ensures over <==> w == Release
      ensures !over ==> w' == WalkOn(old(Heap()), own, w)
    {
      w', over := w, false;
      match w
      case Acquire =>
        var ok := CompareAndSwap(false, true);
        w' := Look(list);
      case Look(iter) =>
        if iter == NULL || nodes[iter].tid != 0 {
          w' := Link(iter);
        } else {
          w' := Free(iter);
        }
      case Free(iter) =>
        var next := nodes[iter].next;
        nodes := nodes[iter := nodes[iter].(freed := nodes[iter].freed + 1)];
        w' := Look(next);
      case Link(iter) =>
        nodes := nodes[own := nodes[own].(next := iter)];
        w' := Publish;
      case Publish =>
        nodes := nodes[own := nodes[own].(retired := nodes[own].retired + 1)];
        list := own;
        w' := Release;
      case Release =>
        var ok := CompareAndSwap(true, false);
        over := true;
    }

    /** The kernel stores the tid and the new thread starts. */
    method StartStep(i: nat, tid: int)
      requires Enabled(View(), Start(i, tid)) && IsSafe(View(), Start(i, tid))
      modifies this
      ensures View() == Next(old(View()), Start(i, tid))
    {
      nodes := nodes[i := nodes[i].(tid := tid)];
      threads := threads[i := threads[i].(runner := Func)];
    }

    /** One access of `cthread_runner`, the kernel's clearing of the tid at the end. */
    method RunnerStep(i: nat)
      requires Enabled(View(), Run(i)) && IsSafe(View(), Run(i))
      requires threads[i].runner == RunnerDestroy(Release) ==> guard
      modifies this
      ensures View() == Next(old(View()), Run(i))
    {
      var th := threads[i];
      match th.runner
      case Func => threads := threads[i := th.(runner := RunnerLock)];
      case RunnerLock => threads := threads[i := th.(lock := true, runner := CheckDetached)];
      case CheckDetached =>
        if th.detached {
          threads := threads[i := th.(runner := RunnerDestroy(Acquire))];
        } else {
          threads := threads[i := th.(runner := Finish)];
        }
      case RunnerDestroy(w) =>
        var w', over := DestroyStep(i, w);
        threads := threads[i := th.(runner := if over then Finish else RunnerDestroy(w'))];
      case Finish => threads := threads[i := th.(finished := true, runner := RunnerUnlock)];
      case RunnerUnlock => threads := threads[i := th.(lock := false, runner := Exit)];
      case Exit =>
        nodes := nodes[i := nodes[i].(tid := 0)];
        threads := threads[i := th.(runner := Gone)];
      case _ =>
    }

    /** One access of `cthread_detach` or `cthread_join`. */
    method OwnerStep(i: nat)
      requires Enabled(View(), Own(i)) && IsSafe(View(), Own(i))
      requires threads[i].owner == OwnerDestroy(Release) || threads[i].owner == JoinDestroy(Release) ==> guard
      modifies this
      ensures View() == Next(old(View()), Own(i))
    {
      var th := threads[i];
      match th.owner
      case OwnerLock => threads := threads[i := th.(lock := true, owner := CheckFinished)];
      case CheckFinished =>
        if th.finished {
          threads := threads[i := th.(owner := OwnerDestroy(Acquire))];
        } else {
          threads := threads[i := th.(owner := Detach)];
        }
      case OwnerDestroy(w) =>
        var w', over := DestroyStep(i, w);
        threads := threads[i := th.(owner := if over then Detach else OwnerDestroy(w'))];
      case Detach => threads := threads[i := th.(detached := true, owner := OwnerUnlock)];
      case OwnerUnlock => threads := threads[i := th.(lock := false, owner := Detached)];
      case JoinWait => threads := threads[i := th.(owner := JoinDestroy(Acquire))];
      case JoinDestroy(w) =>
        var w', over := DestroyStep(i, w);
        threads := threads[i := th.(owner := if over then Joined else JoinDestroy(w'))];
      case _ =>
    }
  }

  // ---------- Invariant ----------

  ghost function Head(chain: seq<int>): int {
    if chain == [] then NULL else chain[0]
  }

  /** `chain` is a null-terminated list of distinct live nodes: those linked and not yet freed. */
  ghost predicate IsChain(m: Memory, chain: seq<int>) {
    && (forall k :: 0 <= k < |chain| ==> IsLive(m, chain[k]) && m.nodes[chain[k]].next == Head(chain[k + 1..]))
    && (forall j, k :: 0 <= j < k < |chain| ==> chain[j] != chain[k])
    && (forall i :: 0 <= i < |m.nodes| ==> m.nodes[i].freed + (if i in chain then 1 else 0) == m.nodes[i].retired)
  }

  /** What a walk in progress knows; before it, and once it has published, `list` heads the chain. */
  ghost predicate WalkInv(m: Memory, chain: seq<int>, own: int, w: Walk) {
    match w
    case Acquire | Release => m.list == Head(chain)
    case Look(iter) => iter == Head(chain)
    case Link(iter) => iter == Head(chain)
    case Free(iter) => chain != [] && iter == chain[0] && 0 <= iter < |m.nodes| && m.nodes[iter].tid == 0
    case Publish => 0 <= own < |m.nodes| && m.nodes[own].next == Head(chain)
  }

  /** Who is between taking and releasing the guard. */
  datatype Who = Nobody | RunnerOf(i: nat) | OwnerOf(i: nat)

  ghost predicate RunnerWalks(th: Thread) {
    th.runner.RunnerDestroy? && th.runner.walk != Acquire
  }

  ghost predicate OwnerWalks(th: Thread) {
    (th.owner.OwnerDestroy? || th.owner.JoinDestroy?) && th.owner.walk != Acquire
  }

  ghost predicate HasGuard(threads: seq<Thread>, guard: bool, who: Who) {
    && (guard <==> who != Nobody)
    && (who != Nobody ==> who.i < |threads|)
    && (forall i :: 0 <= i < |threads| ==>
          && (RunnerWalks(threads[i]) <==> who == RunnerOf(i))
          && (OwnerWalks(threads[i]) <==> who == OwnerOf(i)))
  }

  /** The walk of the one inside, or one yet to start. */
  ghost function WalkOf(threads: seq<Thread>, who: Who): Walk {
    match who
    case Nobody => Acquire
    case RunnerOf(i) => if i < |threads| && threads[i].runner.RunnerDestroy? then threads[i].runner.walk else Acquire
    case OwnerOf(i) =>
      if i < |threads| && (threads[i].owner.OwnerDestroy? || threads[i].owner.JoinDestroy?) then threads[i].owner.walk
      else Acquire
  }

  ghost function OwnOf(who: Who): int {
    if who == Nobody then NULL else who.i
  }

  ghost function Flag(b: bool): nat {
    if b then 1 else 0
  }

  ghost predicate RunnerHolds(pc: RunnerPc) {
    pc.CheckDetached? || pc.RunnerDestroy? || pc.Finish? || pc.RunnerUnlock?
  }

  ghost predicate OwnerHolds(pc: OwnerPc) {
    pc.CheckFinished? || pc.OwnerDestroy? || pc.Detach? || pc.OwnerUnlock?
  }

  ghost predicate IsJoin(pc: OwnerPc) {
    pc.JoinWait? || pc.JoinDestroy? || pc.Joined?
  }

  /** How often the thread has been linked, read off the two program points. */
  ghost function Linked(th: Thread): nat {
    if th.runner.RunnerDestroy? then Flag(th.runner.walk == Release)
    else if th.owner.OwnerDestroy? || th.owner.JoinDestroy? then Flag(th.owner.walk == Release)
    else if IsJoin(th.owner) then Flag(th.owner.Joined?)
    else Flag((th.finished || th.runner.Finish?) && (th.detached || th.owner.Detach?))
  }

  /** What holds of each thread and its stack node. */
  ghost predicate ThreadInv(th: Thread, n: Node) {
    && (th.lock <==> RunnerHolds(th.runner) || OwnerHolds(th.owner))
    && !(RunnerHolds(th.runner) && OwnerHolds(th.owner))
    && (th.finished <==> th.runner.RunnerUnlock? || th.runner.Exit? || th.runner.Gone?)
    && (th.detached <==> th.owner.OwnerUnlock? || th.owner.Detached?)
    && (th.runner.RunnerDestroy? ==> th.detached)
    && (th.owner.OwnerDestroy? || th.owner.JoinDestroy? || th.owner.Joined? ==> th.finished)
    && n.retired == Linked(th) && n.freed <= n.retired
    && (th.runner.Gone? ==> n.tid == 0)
    && (!th.runner.Begin? && !th.runner.Gone? ==> n.tid != 0)
    && (n.freed > 0 ==> th.runner.Gone?)
  }

  ghost predicate Inv(s: State, chain: seq<int>, who: Who) {
    && |s.mem.nodes| == |s.threads|
    && IsChain(s.mem, chain)
    && HasGuard(s.threads, s.mem.guard, who)
    && WalkInv(s.mem, chain, OwnOf(who), WalkOf(s.threads, who))
    && forall i :: 0 <= i < |s.threads| ==> ThreadInv(s.threads[i], s.mem.nodes[i])
  }

  lemma InitialInv(s: State)
    requires IsInitial(s)
    ensures Inv(s, [], Nobody)
  {
  }

  // ---------- Every action keeps the invariant ----------

  /** The chain after one access of a walk. */
  ghost function WalkChain(chain: seq<int>, own: int, w: Walk): seq<int> {
    match w
    case Free(_) => if chain == [] then [] else chain[1..]
    case Publish => [own] + chain
    case _ => chain
  }

  /** The chain after an action. */
  ghost function ChainAfter(s: State, chain: seq<int>, a: Action): seq<int>
    requires a.i < |s.threads|
  {
    var th := s.threads[a.i];
    if a.Run? && th.runner.RunnerDestroy? then WalkChain(chain, a.i, th.runner.walk)
    else if a.Own? && (th.owner.OwnerDestroy? || th.owner.JoinDestroy?) then WalkChain(chain, a.i, th.owner.walk)
    else chain
  }

  lemma FreeKeepsChain(m: Memory, chain: seq<int>, own: nat, w: Walk)
    requires IsChain(m, chain) && WalkInv(m, chain, own, w) && w.Free? && own < |m.nodes|
    ensures chain != [] && WalkIsSafe(m, own, w) && IsChain(WalkMemory(m, own, w), chain[1..])
    ensures WalkInv(WalkMemory(m, own, w), chain[1..], own, WalkOn(m, own, w))
  {
    var rest := chain[1..];
    forall k | 0 <= k < |rest|
      ensures rest[k + 1..] == chain[k + 2..] && rest[k] == chain[k + 1] && rest[k] != w.iter
    {
    }
    assert forall i :: i in chain <==> i == w.iter || i in rest;
  }

  lemma PublishKeepsChain(m: Memory, chain: seq<int>, own: nat)
    requires IsChain(m, chain) && WalkInv(m, chain, own, Publish)
    requires own < |m.nodes| && m.nodes[own].freed == 0 && m.nodes[own].retired == 0
    ensures WalkIsSafe(m, own, Publish) && IsChain(WalkMemory(m, own, Publish), [own] + chain)
    ensures WalkInv(WalkMemory(m, own, Publish), [own] + chain, own, WalkOn(m, own, Publish))
  {
    var m', longer := WalkMemory(m, own, Publish), [own] + chain;
    assert own !in chain;
    forall k | 0 <= k < |longer|
      ensures IsLive(m', longer[k]) && m'.nodes[longer[k]].next == Head(longer[k + 1..])
    {
      if k == 0 {
        assert longer[1..] == chain;
      } else {
        assert longer[k] == chain[k - 1] && longer[k + 1..] == chain[k..];
      }
    }
    assert forall i :: i in longer <==> i == own || i in chain;
  }

  /** A walk touches live nodes only and leaves a chain of linked, unfreed nodes. */
  lemma WalkKeepsChain(m: Memory, chain: seq<int>, own: nat, w: Walk) returns (chain': seq<int>)
    requires IsChain(m, chain) && WalkInv(m, chain, own, w)
    requires own < |m.nodes| && (w != Release ==> m.nodes[own].freed == 0 && m.nodes[own].retired == 0)
    ensures WalkIsSafe(m, own, w) && IsChain(WalkMemory(m, own, w), chain')
    ensures WalkInv(WalkMemory(m, own, w), chain', own, if w == Release then Acquire else WalkOn(m, own, w))
    ensures chain' == WalkChain(chain, own, w)
  {
    chain' := chain;
    match w
    case Free(iter) =>
      chain' := chain[1..];
      FreeKeepsChain(m, chain, own, w);
    case Link(_) =>
      assert own !in chain;
    case Publish =>
      chain' := [own] + chain;
      PublishKeepsChain(m, chain, own);
    case _ =>
  }

  /** A linked thread whose tid reads 0 is gone, so its stack is no longer in use. */
  lemma ClearedIsGone(th: Thread, n: Node)
    requires ThreadInv(th, n) && n.tid == 0 && n.retired > 0
    ensures th.runner.Gone?
  {
  }

  /** A walk leaves every other thread and its node as they should be. */
  lemma WalkKeepsOthers(s: State, chain: seq<int>, i: nat, w: Walk, j: nat)
    requires |s.mem.nodes| == |s.threads| && i < |s.threads| && j < |s.threads| && j != i
    requires IsChain(s.mem, chain) && WalkInv(s.mem, chain, i, w) && WalkIsSafe(s.mem, i, w)
    requires ThreadInv(s.threads[j], s.mem.nodes[j])
    ensures |WalkMemory(s.mem, i, w).nodes| == |s.threads|
    ensures ThreadInv(s.threads[j], WalkMemory(s.mem, i, w).nodes[j])
  {
    if w.Free? && w.iter == j {
      ClearedIsGone(s.threads[j], s.mem.nodes[j]);
    }
    hide Linked;
  }

  /** The guard stays with the walk until it is released. */
  ghost function Holding(w: Walk, me: Who): Who {
    if w == Release then Nobody else me
  }

  lemma RunnerWalkKeepsOwn(m: Memory, i: nat, th: Thread)
    requires i < |m.nodes| && ThreadInv(th, m.nodes[i])
    requires th.runner.RunnerDestroy? && WalkIsSafe(m, i, th.runner.walk)
    requires th.runner.walk.Free? ==> th.runner.walk.iter != i
    ensures |WalkMemory(m, i, th.runner.walk).nodes| == |m.nodes|
    ensures ThreadInv(RunnerNext(m, i, th), WalkMemory(m, i, th.runner.walk).nodes[i])
  {
  }

  lemma OwnerWalkKeepsOwn(m: Memory, i: nat, th: Thread)
    requires i < |m.nodes| && ThreadInv(th, m.nodes[i])
    requires (th.owner.OwnerDestroy? || th.owner.JoinDestroy?) && WalkIsSafe(m, i, th.owner.walk)
    requires th.owner.walk.Free? ==> th.owner.walk.iter != i
    ensures |WalkMemory(m, i, th.owner.walk).nodes| == |m.nodes|
    ensures ThreadInv(OwnerNext(m, i, th), WalkMemory(m, i, th.owner.walk).nodes[i])
  {
  }

  lemma NotYetLinked(th: Thread, n: Node)
    requires ThreadInv(th, n)
    ensures th.runner.RunnerDestroy? && th.runner.walk != Release ==> n.retired == 0 && n.freed == 0
    ensures (th.owner.OwnerDestroy? || th.owner.JoinDestroy?) && th.owner.walk != Release ==>
          n.retired == 0 && n.freed == 0
    ensures th.runner.RunnerDestroy? ==> !th.owner.OwnerDestroy? && !th.owner.JoinDestroy?
  {
  }

  lemma WalkKeepsAll(s: State, chain: seq<int>, i: nat, w: Walk, th': Thread)
    requires |s.mem.nodes| == |s.threads| && i < |s.threads|
    requires IsChain(s.mem, chain) && WalkInv(s.mem, chain, i, w) && WalkIsSafe(s.mem, i, w)
    requires forall j :: 0 <= j < |s.threads| ==> ThreadInv(s.threads[j], s.mem.nodes[j])
    requires |WalkMemory(s.mem, i, w).nodes| == |s.threads| && ThreadInv(th', WalkMemory(s.mem, i, w).nodes[i])
    ensures forall j :: 0 <= j < |s.threads| ==> ThreadInv(s.threads[i := th'][j], WalkMemory(s.mem, i, w).nodes[j])
  {
    hide *;
    forall j | 0 <= j < |s.threads|
      ensures ThreadInv(s.threads[i := th'][j], WalkMemory(s.mem, i, w).nodes[j])
    {
      if j != i {
        WalkKeepsOthers(s, chain, i, w, j);
      }
    }
  }

  lemma RunnerWalkKeepsGuard(s: State, who: Who, i: nat)
    requires HasGuard(s.threads, s.mem.guard, who) && i < |s.threads| && s.threads[i].runner.RunnerDestroy?
    requires s.threads[i].runner.walk == Acquire ==> !s.mem.guard
    requires !(s.threads[i].owner.OwnerDestroy? || s.threads[i].owner.JoinDestroy?)
    requires WalkIsSafe(s.mem, i, s.threads[i].runner.walk)
    ensures var w := s.threads[i].runner.walk;
            && who == (if w == Acquire then Nobody else RunnerOf(i))
            && HasGuard(s.threads[i := RunnerNext(s.mem, i, s.threads[i])],
                        WalkMemory(s.mem, i, w).guard, Holding(w, RunnerOf(i)))
  {
    assert RunnerWalks(s.threads[i]) <==> who == RunnerOf(i);
  }

  lemma OwnerWalkKeepsGuard(s: State, who: Who, i: nat)
    requires HasGuard(s.threads, s.mem.guard, who) && i < |s.threads|
    requires s.threads[i].owner.OwnerDestroy? || s.threads[i].owner.JoinDestroy?
    requires s.threads[i].owner.walk == Acquire ==> !s.mem.guard
    requires !s.threads[i].runner.RunnerDestroy?
    requires WalkIsSafe(s.mem, i, s.threads[i].owner.walk)
    ensures var w := s.threads[i].owner.walk;
            && who == (if w == Acquire then Nobody else OwnerOf(i))
            && HasGuard(s.threads[i := OwnerNext(s.mem, i, s.threads[i])],
                        WalkMemory(s.mem, i, w).guard, Holding(w, OwnerOf(i)))
  {
    assert OwnerWalks(s.threads[i]) <==> who == OwnerOf(i);
  }

  /** A walk is inside the guard only while its walker is. */
  lemma WalkStarts(s: State, chain: seq<int>, who: Who, me: Who, w: Walk)
    requires Inv(s, chain, who) && me != Nobody && me.i < |s.threads|
    requires who == (if w == Acquire then Nobody else me)
    requires w != Acquire ==> WalkOf(s.threads, me) == w
    ensures WalkInv(s.mem, chain, me.i, w)
  {
  }

  /** In `cthread_destroy` no freed node is touched, and the guard and the chain are kept. */
  lemma RunnerWalkKeepsInv(s: State, chain: seq<int>, who: Who, i: nat) returns (chain': seq<int>, who': Who)
    requires Inv(s, chain, who) && Enabled(s, Run(i)) && s.threads[i].runner.RunnerDestroy?
    ensures IsSafe(s, Run(i)) && Inv(Next(s, Run(i)), chain', who')
    ensures chain' == WalkChain(chain, i, s.threads[i].runner.walk)
  {
    var th, w := s.threads[i], s.threads[i].runner.walk;
    NotYetLinked(th, s.mem.nodes[i]);
    assert who == if w == Acquire then Nobody else RunnerOf(i) by {
      assert RunnerWalks(th) <==> who == RunnerOf(i);
    }
    WalkStarts(s, chain, who, RunnerOf(i), w);
    assert w.Free? ==> w.iter != i;
    hide ThreadInv;
    chain' := WalkKeepsChain(s.mem, chain, i, w);
    who' := Holding(w, RunnerOf(i));
    hide IsChain, WalkInv;
    RunnerWalkKeepsGuard(s, who, i);
    hide HasGuard;
    RunnerWalkKeepsOwn(s.mem, i, th);
    WalkKeepsAll(s, chain, i, w, RunnerNext(s.mem, i, th));
  }

  lemma OwnerWalkKeepsInv(s: State, chain: seq<int>, who: Who, i: nat) returns (chain': seq<int>, who': Who)
    requires Inv(s, chain, who) && Enabled(s, Own(i))
    requires s.threads[i].owner.OwnerDestroy? || s.threads[i].owner.JoinDestroy?
    ensures IsSafe(s, Own(i)) && Inv(Next(s, Own(i)), chain', who')
    ensures chain' == WalkChain(chain, i, s.threads[i].owner.walk)
  {
    var th, w := s.threads[i], s.threads[i].owner.walk;
    NotYetLinked(th, s.mem.nodes[i]);
    assert who == if w == Acquire then Nobody else OwnerOf(i) by {
      assert OwnerWalks(th) <==> who == OwnerOf(i);
    }
    WalkStarts(s, chain, who, OwnerOf(i), w);
    assert w.Free? ==> w.iter != i;
    hide ThreadInv;
    chain' := WalkKeepsChain(s.mem, chain, i, w);
    who' := Holding(w, OwnerOf(i));
    hide IsChain, WalkInv;
    OwnerWalkKeepsGuard(s, who, i);
    hide HasGuard;
    OwnerWalkKeepsOwn(s.mem, i, th);
    WalkKeepsAll(s, chain, i, w, OwnerNext(s.mem, i, th));
  }

  /** A thread that moves outside `cthread_destroy` leaves the guard and any walk in progress alone. */
  lemma QuietKeepsWalk(threads: seq<Thread>, guard: bool, who: Who, i: nat, th': Thread)
    requires HasGuard(threads, guard, who) && i < |threads|
    requires RunnerWalks(th') <==> RunnerWalks(threads[i])
    requires OwnerWalks(th') <==> OwnerWalks(threads[i])
    requires RunnerWalks(th') ==> th'.runner == threads[i].runner
    requires OwnerWalks(th') ==> th'.owner == threads[i].owner
    ensures HasGuard(threads[i := th'], guard, who) && WalkOf(threads[i := th'], who) == WalkOf(threads, who)
  {
    assert who == RunnerOf(i) ==> RunnerWalks(threads[i]);
    assert who == OwnerOf(i) ==> OwnerWalks(threads[i]);
  }

  lemma QuietRunnerKeepsOwn(m: Memory, i: nat, th: Thread)
    requires i < |m.nodes| && ThreadInv(th, m.nodes[i]) && (th.runner.RunnerLock? ==> !th.lock)
    requires !th.runner.Begin? && !th.runner.RunnerDestroy? && !th.runner.Exit?
    ensures ThreadInv(RunnerNext(m, i, th), m.nodes[i])
  {
  }

  lemma QuietOwnerKeepsOwn(m: Memory, i: nat, th: Thread)
    requires i < |m.nodes| && ThreadInv(th, m.nodes[i]) && (th.owner.OwnerLock? ==> !th.lock)
    requires th.owner.JoinWait? ==> th.finished
    requires !th.owner.OwnerDestroy? && !th.owner.JoinDestroy?
    ensures ThreadInv(OwnerNext(m, i, th), m.nodes[i])
  {
  }

  lemma QuietRunnerKeepsInv(s: State, chain: seq<int>, who: Who, i: nat)
    requires Inv(s, chain, who) && Enabled(s, Run(i))
    requires !s.threads[i].runner.RunnerDestroy? && !s.threads[i].runner.Exit?
    ensures IsSafe(s, Run(i)) && Inv(Next(s, Run(i)), chain, who)
  {
    var th := s.threads[i];
    QuietRunnerKeepsOwn(s.mem, i, th);
    QuietKeepsWalk(s.threads, s.mem.guard, who, i, RunnerNext(s.mem, i, th));
    hide ThreadInv, HasGuard, WalkOf, WalkInv, IsChain;
  }

  lemma QuietOwnerKeepsInv(s: State, chain: seq<int>, who: Who, i: nat)
    requires Inv(s, chain, who) && Enabled(s, Own(i))
    requires !s.threads[i].owner.OwnerDestroy? && !s.threads[i].owner.JoinDestroy?
    ensures IsSafe(s, Own(i)) && Inv(Next(s, Own(i)), chain, who)
  {
    var th := s.threads[i];
    QuietOwnerKeepsOwn(s.mem, i, th);
    QuietKeepsWalk(s.threads, s.mem.guard, who, i, OwnerNext(s.mem, i, th));
    hide ThreadInv, HasGuard, WalkOf, WalkInv, IsChain;
  }

  /** The kernel's stores to a tid do not disturb the list or a walk over it. */
  lemma SetTidKeepsChain(m: Memory, chain: seq<int>, own: int, w: Walk, i: nat, tid: int)
    requires IsChain(m, chain) && WalkInv(m, chain, own, w) && IsLive(m, i)
    requires w.Free? && w.iter == i ==> tid == 0
    ensures IsChain(SetTid(m, i, tid), chain) && WalkInv(SetTid(m, i, tid), chain, own, w)
  {
  }

  lemma StartKeepsInv(s: State, chain: seq<int>, who: Who, a: Action)
    requires Inv(s, chain, who) && Enabled(s, a) && a.Start?
    ensures IsSafe(s, a) && Inv(Next(s, a), chain, who)
  {
    var i := a.i;
    var th' := s.threads[i].(runner := Func);
    var w := WalkOf(s.threads, who);
    assert ThreadInv(s.threads[i], s.mem.nodes[i]) && s.mem.nodes[i].retired == 0;
    assert i !in chain;
    assert ThreadInv(th', s.mem.nodes[i].(tid := a.tid));
    SetTidKeepsChain(s.mem, chain, OwnOf(who), w, i, a.tid);
    QuietKeepsWalk(s.threads, s.mem.guard, who, i, th');
    hide ThreadInv, HasGuard, WalkOf, WalkInv, IsChain;
  }

  lemma ExitKeepsInv(s: State, chain: seq<int>, who: Who, i: nat)
    requires Inv(s, chain, who) && Enabled(s, Run(i)) && s.threads[i].runner.Exit?
    ensures IsSafe(s, Run(i)) && Inv(Next(s, Run(i)), chain, who)
  {
    var th := s.threads[i];
    var th' := RunnerNext(s.mem, i, th);
    assert ThreadInv(th, s.mem.nodes[i]) && s.mem.nodes[i].freed == 0;
    assert ThreadInv(th', s.mem.nodes[i].(tid := 0));
    SetTidKeepsChain(s.mem, chain, OwnOf(who), WalkOf(s.threads, who), i, 0);
    QuietKeepsWalk(s.threads, s.mem.guard, who, i, th');
    hide ThreadInv, HasGuard, WalkOf, WalkInv, IsChain;
  }

  /** Every action is safe and keeps the list, the guard and every thread's record. */
  lemma ActionKeepsInv(s: State, chain: seq<int>, who: Who, a: Action) returns (chain': seq<int>, who': Who)
    requires Inv(s, chain, who) && Enabled(s, a)
    ensures IsSafe(s, a) && Inv(Next(s, a), chain', who') && chain' == ChainAfter(s, chain, a)
  {
    hide Inv, Next, IsSafe, WalkChain;
    chain', who' := chain, who;
    match a
    case Start(_, _) => StartKeepsInv(s, chain, who, a);
    case Run(i) =>
      if s.threads[i].runner.RunnerDestroy? {
        chain', who' := RunnerWalkKeepsInv(s, chain, who, i);
      } else if s.threads[i].runner.Exit? {
        ExitKeepsInv(s, chain, who, i);
      } else {
        QuietRunnerKeepsInv(s, chain, who, i);
      }
    case Own(i) =>
      if s.threads[i].owner.OwnerDestroy? || s.threads[i].owner.JoinDestroy? {
        chain', who' := OwnerWalkKeepsInv(s, chain, who, i);
      } else {
        QuietOwnerKeepsInv(s, chain, who, i);
      }
  }

  // ---------- Whole runs ----------

  ghost predicate Leads(s: State, run: seq<Action>, end: State)
    decreases |run|
  {
    if run == [] then s == end
    else Enabled(s, run[0]) && IsSafe(s, run[0]) && Leads(Next(s, run[0]), run[1..], end)
  }

  lemma {:induction false} RunKeepsInv(s: State, chain: seq<int>, who: Who, run: seq<Action>, end: State)
    returns (chain': seq<int>, who': Who)
    requires Inv(s, chain, who) && Leads(s, run, end)
    ensures Inv(end, chain', who')
    decreases |run|
  {
    chain', who' := chain, who;
    if run != [] {
      chain', who' := ActionKeepsInv(s, chain, who, run[0]);
      chain', who' := RunKeepsInv(Next(s, run[0]), chain', who', run[1..], end);
    }
  }

  /** No run ever reads, writes or frees a node that was freed, and the kernel never clears a tid in freed memory. */
  lemma NothingFreedIsTouched(start: State, run: seq<Action>, s: State, a: Action)
    requires IsInitial(start) && Leads(start, run, s) && Enabled(s, a)
    ensures IsSafe(s, a)
  {
    InitialInv(start);
    var chain, who := RunKeepsInv(start, [], Nobody, run, s);
    chain, who := ActionKeepsInv(s, chain, who, a);
  }

  /**
   * A thread is linked, and its stack freed, at most once; a stack is freed only
   * after its thread is gone; and a thread that is over on both sides was linked once.
   */
  lemma DestroyedExactlyOnce(start: State, run: seq<Action>, s: State, i: nat)
    requires IsInitial(start) && Leads(start, run, s) && i < |s.threads|
    ensures |s.mem.nodes| == |s.threads|
    ensures s.mem.nodes[i].freed <= s.mem.nodes[i].retired <= 1
    ensures s.mem.nodes[i].freed == 1 ==> s.threads[i].runner.Gone? && s.mem.nodes[i].tid == 0
    ensures s.threads[i].runner.Gone? && (s.threads[i].owner.Detached? || s.threads[i].owner.Joined?) ==>
              s.mem.nodes[i].retired == 1
  {
    InitialInv(start);
    var chain, who := RunKeepsInv(start, [], Nobody, run, s);
    assert ThreadInv(s.threads[i], s.mem.nodes[i]);
  }

  /** Whenever the guard is free, `stack_list` leads through exactly the stacks linked and not yet freed. */
  lemma NoStackIsDropped(start: State, run: seq<Action>, s: State) returns (chain: seq<int>)
    requires IsInitial(start) && Leads(start, run, s)
    ensures IsChain(s.mem, chain)
    ensures !s.mem.guard ==> s.mem.list == Head(chain)
  {
    InitialInv(start);
    var who: Who;
    chain, who := RunKeepsInv(start, [], Nobody, run, s);
  }

  // ---------- What a walk frees ----------

  /** How many nodes at the front of the list have a tid that reads 0. */
  ghost function Cleared(m: Memory, chain: seq<int>): nat {
    if chain == [] || !(0 <= chain[0] < |m.nodes|) || m.nodes[chain[0]].tid != 0 then 0
    else 1 + Cleared(m, chain[1..])
  }

  lemma {:induction false} ClearedIs(m: Memory, chain: seq<int>)
    ensures Cleared(m, chain) <= |chain|
    ensures forall j :: 0 <= j < Cleared(m, chain) ==> 0 <= chain[j] < |m.nodes| && m.nodes[chain[j]].tid == 0
    ensures Cleared(m, chain) < |chain| ==>
      !(0 <= chain[Cleared(m, chain)] < |m.nodes|) || m.nodes[chain[Cleared(m, chain)]].tid != 0
  {
    if chain != [] {
      ClearedIs(m, chain[1..]);
    }
  }

  /** The walk of one side of a thread, if it is inside `cthread_destroy`. */
  ghost predicate IsWalking(s: State, me: Who) {
    && me != Nobody && me.i < |s.threads|
    && if me.RunnerOf? then s.threads[me.i].runner.RunnerDestroy?
       else s.threads[me.i].owner.OwnerDestroy? || s.threads[me.i].owner.JoinDestroy?
  }

  ghost function MyStep(me: Who): Action
    requires me != Nobody
  {
    if me.RunnerOf? then Run(me.i) else Own(me.i)
  }

  /** The nodes of the list were linked, and those before `k` or `floor` are cleared. */
  ghost predicate AreMarked(m: Memory, first: seq<int>, floor: nat, k: nat) {
    && (forall j :: 0 <= j < |first| ==> 0 <= first[j] < |m.nodes| && m.nodes[first[j]].retired > 0)
    && (forall j :: 0 <= j < |first| && (j < k || j < floor) ==> m.nodes[first[j]].tid == 0)
  }

  /**
   * Of the list as it was when `me` took the guard, the first `k` nodes are
   * gone, all of them cleared; once the walk has stopped, no cleared node that
   * was at the front then is left.
   */
  ghost predicate HasFreed(s: State, first: seq<int>, floor: nat, me: Who, chain: seq<int>, k: nat) {
    && IsWalking(s, me) && WalkOf(s.threads, me) != Acquire
    && floor <= |first| && k <= |first| && AreMarked(s.mem, first, floor, k)
    && var w := WalkOf(s.threads, me);
       && chain == (if w == Release then [me.i] + first[k..] else first[k..])
       && (w.Look? || w.Free? || floor <= k)
  }

  lemma WalkKeepsTids(m: Memory, own: nat, w: Walk, i: nat)
    requires WalkIsSafe(m, own, w) && i < |m.nodes|
    ensures |WalkMemory(m, own, w).nodes| == |m.nodes|
    ensures WalkMemory(m, own, w).nodes[i].tid == m.nodes[i].tid
    ensures WalkMemory(m, own, w).nodes[i].retired >= m.nodes[i].retired
  {
  }

  /** A cleared tid of a thread that was linked stays cleared. */
  lemma ClearedStays(s: State, chain: seq<int>, who: Who, a: Action, i: nat)
    requires Inv(s, chain, who) && Enabled(s, a) && IsSafe(s, a) && i < |s.mem.nodes| && s.mem.nodes[i].retired > 0
    ensures |Next(s, a).mem.nodes| == |s.mem.nodes| && Next(s, a).mem.nodes[i].retired > 0
    ensures s.mem.nodes[i].tid == 0 ==> Next(s, a).mem.nodes[i].tid == 0
  {
    hide IsChain, WalkInv, HasGuard, WalkOf, WalkMemory, WalkOn, RunnerNext, OwnerNext, WalkIsSafe;
    assert ThreadInv(s.threads[i], s.mem.nodes[i]);
    var th := s.threads[a.i];
    if a.Run? && th.runner.RunnerDestroy? {
      WalkKeepsTids(s.mem, a.i, th.runner.walk, i);
    } else if a.Own? && (th.owner.OwnerDestroy? || th.owner.JoinDestroy?) {
      WalkKeepsTids(s.mem, a.i, th.owner.walk, i);
    }
  }

  lemma OthersLeaveWalk(s: State, chain: seq<int>, me: Who, a: Action)
    requires Inv(s, chain, me) && Enabled(s, a) && IsSafe(s, a)
    requires IsWalking(s, me) && WalkOf(s.threads, me) != Acquire && a != MyStep(me)
    ensures IsWalking(Next(s, a), me) && WalkOf(Next(s, a).threads, me) == WalkOf(s.threads, me)
    ensures ChainAfter(s, chain, a) == chain
  {
    hide IsChain, WalkInv, ThreadInv, WalkMemory, WalkOn, SetTid;
    assert RunnerWalks(s.threads[a.i]) <==> me == RunnerOf(a.i);
    assert OwnerWalks(s.threads[a.i]) <==> me == OwnerOf(a.i);
  }

  /** One access of the walk itself. */
  lemma MyWalkMovesOn(s: State, chain: seq<int>, me: Who)
    requires Inv(s, chain, me) && IsWalking(s, me)
    requires Enabled(s, MyStep(me)) && IsSafe(s, MyStep(me))
    requires WalkOf(s.threads, me) != Acquire && WalkOf(s.threads, me) != Release
    ensures var w, t := WalkOf(s.threads, me), Next(s, MyStep(me));
            && WalkIsSafe(s.mem, me.i, w) && t.mem == WalkMemory(s.mem, me.i, w)
            && IsWalking(t, me) && WalkOf(t.threads, me) == WalkOn(s.mem, me.i, w)
            && ChainAfter(s, chain, MyStep(me)) == WalkChain(chain, me.i, w)
  {
    hide IsChain, WalkInv, WalkMemory, WalkOn, SetTid, WalkChain, WalkIsSafe, Linked;
    assert RunnerWalks(s.threads[me.i]) <==> me == RunnerOf(me.i);
    assert OwnerWalks(s.threads[me.i]) <==> me == OwnerOf(me.i);
    assert ThreadInv(s.threads[me.i], s.mem.nodes[me.i]);
  }

  lemma RestOfRest(first: seq<int>, k: nat)
    requires k < |first|
    ensures first[k..] != [] && first[k..][0] == first[k] && first[k..][1..] == first[k + 1..]
  {
  }

  /** Where the walk goes, in terms of the list it started with. */
  lemma WalkFreesNext(m: Memory, first: seq<int>, floor: nat, k: nat, own: nat, w: Walk) returns (k': nat)
    requires floor <= |first| && k <= |first| && WalkIsSafe(m, own, w) && AreMarked(m, first, floor, k)
    requires w != Acquire && w != Release && WalkInv(m, first[k..], own, w)
    requires w.Look? || w.Free? || floor <= k
    ensures k' <= |first| && k' == (if w.Free? then k + 1 else k) && (w.Free? ==> m.nodes[first[k]].tid == 0)
    ensures var w' := WalkOn(m, own, w);
            && w' != Acquire
            && WalkChain(first[k..], own, w) == (if w' == Release then [own] + first[k'..] else first[k'..])
            && (w'.Look? || w'.Free? || floor <= k')
  {
    k' := k;
    if w.Free? {
      RestOfRest(first, k);
      k' := k + 1;
    } else if w.Look? {
      if k < |first| {
        RestOfRest(first, k);
        assert w.iter == first[k];
      }
    }
  }

  lemma MarksStay(s: State, first: seq<int>, floor: nat, me: Who, chain: seq<int>, k: nat, a: Action)
    requires Inv(s, chain, me) && AreMarked(s.mem, first, floor, k) && Enabled(s, a) && IsSafe(s, a)
    ensures AreMarked(Next(s, a).mem, first, floor, k)
  {
    hide Inv, Enabled, IsSafe, Next;
    forall j | 0 <= j < |first|
      ensures 0 <= first[j] < |Next(s, a).mem.nodes| && Next(s, a).mem.nodes[first[j]].retired > 0
      ensures s.mem.nodes[first[j]].tid == 0 ==> Next(s, a).mem.nodes[first[j]].tid == 0
    {
      ClearedStays(s, chain, me, a, first[j]);
    }
  }

  /** The walk's own step frees a cleared node; for what was freed before it nothing changes. */
  lemma OneMoreMarked(m: Memory, first: seq<int>, floor: nat, k: nat, k': nat)
    requires AreMarked(m, first, floor, k) && k' <= |first|
    requires k' == k || (k' == k + 1 && m.nodes[first[k]].tid == 0)
    ensures AreMarked(m, first, floor, k')
  {
  }

  /** What the invariant says of the walker. */
  lemma InvOfWalker(s: State, chain: seq<int>, me: Who)
    requires Inv(s, chain, me) && IsWalking(s, me)
    ensures WalkInv(s.mem, chain, me.i, WalkOf(s.threads, me))
  {
  }

  lemma MyStepKeepsRecord(s: State, first: seq<int>, floor: nat, me: Who, chain: seq<int>, k: nat) returns (k': nat)
    requires Inv(s, chain, me) && HasFreed(s, first, floor, me, chain, k) && WalkOf(s.threads, me) != Release
    requires Enabled(s, MyStep(me)) && IsSafe(s, MyStep(me))
    ensures HasFreed(Next(s, MyStep(me)), first, floor, me, ChainAfter(s, chain, MyStep(me)), k')
    ensures k' == if WalkOf(s.threads, me).Free? then k + 1 else k
  {
    hide Inv, Next, ChainAfter, IsChain, AreMarked, Enabled, IsSafe, WalkOf, WalkInv, WalkMemory, WalkOn;
    hide WalkChain, WalkIsSafe;
    var w := WalkOf(s.threads, me);
    MyWalkMovesOn(s, chain, me);
    InvOfWalker(s, chain, me);
    k' := WalkFreesNext(s.mem, first, floor, k, me.i, w);
    MarksStay(s, first, floor, me, chain, k, MyStep(me));
    if w.Free? {
      FirstIsNode(s.mem, first, floor, k);
      WalkKeepsTids(s.mem, me.i, w, first[k]);
    }
    OneMoreMarked(Next(s, MyStep(me)).mem, first, floor, k, k');
  }

  lemma FirstIsNode(m: Memory, first: seq<int>, floor: nat, k: nat)
    requires AreMarked(m, first, floor, k)
    ensures forall j :: 0 <= j < |first| ==> 0 <= first[j] < |m.nodes|
  {
  }

  /** Every action, of the walker or another, keeps the record of what the walk has freed. */
  lemma ActionKeepsRecord(s: State, first: seq<int>, floor: nat, me: Who, chain: seq<int>, k: nat, a: Action)
    returns (k': nat)
    requires Inv(s, chain, me) && HasFreed(s, first, floor, me, chain, k) && Enabled(s, a)
    requires a == MyStep(me) ==> WalkOf(s.threads, me) != Release
    ensures IsSafe(s, a) && a.i < |s.threads| && Inv(Next(s, a), ChainAfter(s, chain, a), me)
    ensures HasFreed(Next(s, a), first, floor, me, ChainAfter(s, chain, a), k')
    ensures k' == if a == MyStep(me) && WalkOf(s.threads, me).Free? then k + 1 else k
  {
    hide Inv, Next, IsSafe, ChainAfter, AreMarked, WalkOf;
    var chain', who' := ActionKeepsInv(s, chain, me, a);
    k' := k;
    if a == MyStep(me) {
      k' := MyStepKeepsRecord(s, first, floor, me, chain, k);
    } else {
      OthersLeaveWalk(s, chain, me, a);
      MarksStay(s, first, floor, me, chain, k, a);
    }
    WalkerHasGuard(Next(s, a), chain', who', me);
  }

  lemma WalkerHasGuard(s: State, chain: seq<int>, who: Who, me: Who)
    requires Inv(s, chain, who) && IsWalking(s, me) && WalkOf(s.threads, me) != Acquire
    ensures who == me
  {
    assert RunnerWalks(s.threads[me.i]) <==> who == RunnerOf(me.i);
    assert OwnerWalks(s.threads[me.i]) <==> who == OwnerOf(me.i);
  }

  /** Compared with `was`, exactly the nodes in `gone` were freed. */
  ghost predicate FreedSince(was: Memory, m: Memory, gone: seq<int>) {
    |m.nodes| == |was.nodes|
    && forall i :: 0 <= i < |m.nodes| ==> m.nodes[i].freed == was.nodes[i].freed + (if i in gone then 1 else 0)
  }

  lemma FreeAddsOne(was: Memory, m: Memory, first: seq<int>, k: nat, own: nat, w: Walk)
    requires k <= |first| && FreedSince(was, m, first[..k]) && WalkIsSafe(m, own, w)
    requires forall i, j :: 0 <= i < j < |first| ==> first[i] != first[j]
    requires w.Free? ==> k < |first| && w.iter == first[k]
    ensures FreedSince(was, WalkMemory(m, own, w), first[..if w.Free? then k + 1 else k])
  {
    if w.Free? {
      assert first[..k + 1] == first[..k] + [first[k]];
      assert first[k] !in first[..k];
    }
  }

  lemma OthersFreeNothing(s: State, chain: seq<int>, me: Who, a: Action)
    requires Inv(s, chain, me) && Enabled(s, a) && IsSafe(s, a)
    requires IsWalking(s, me) && WalkOf(s.threads, me) != Acquire && a != MyStep(me)
    ensures |Next(s, a).mem.nodes| == |s.mem.nodes|
    ensures forall i :: 0 <= i < |s.mem.nodes| ==> Next(s, a).mem.nodes[i].freed == s.mem.nodes[i].freed
  {
    hide IsChain, WalkInv, ThreadInv, WalkOn;
    assert RunnerWalks(s.threads[a.i]) <==> me == RunnerOf(a.i);
    assert OwnerWalks(s.threads[a.i]) <==> me == OwnerOf(a.i);
  }

  /** The same action, and what it frees. */
  lemma ActionKeepsFreed(s: State, was: Memory, first: seq<int>, floor: nat, me: Who, chain: seq<int>, k: nat,
                         a: Action, k': nat)
    requires Inv(s, chain, me) && HasFreed(s, first, floor, me, chain, k) && Enabled(s, a) && IsSafe(s, a)
    requires a == MyStep(me) ==> WalkOf(s.threads, me) != Release
    requires forall i, j :: 0 <= i < j < |first| ==> first[i] != first[j]
    requires FreedSince(was, s.mem, first[..k])
    requires k' == if a == MyStep(me) && WalkOf(s.threads, me).Free? then k + 1 else k
    ensures k' <= |first| && FreedSince(was, Next(s, a).mem, first[..k'])
  {
    hide Next, ThreadInv, IsChain, FreedSince;
    if a == MyStep(me) {
      MyWalkMovesOn(s, chain, me);
      var w := WalkOf(s.threads, me);
      if w.Free? {
        assert first[k..] != [] && w.iter == first[k..][0];
      }
      FreeAddsOne(was, s.mem, first, k, me.i, w);
    } else {
      OthersFreeNothing(s, chain, me, a);
      SameFreed(was, s.mem, Next(s, a).mem, first[..k]);
    }
  }

  lemma SameFreed(was: Memory, m: Memory, m': Memory, gone: seq<int>)
    requires FreedSince(was, m, gone) && |m'.nodes| == |m.nodes|
    requires forall i :: 0 <= i < |m.nodes| ==> m'.nodes[i].freed == m.nodes[i].freed
    ensures FreedSince(was, m', gone)
  {
  }

  /** Out of `cthread_destroy`; nobody enters it twice. */
  ghost predicate IsPast(s: State, me: Who) {
    && me != Nobody && me.i < |s.threads|
    && var th := s.threads[me.i];
       if me.RunnerOf? then th.runner.Finish? || th.runner.RunnerUnlock? || th.runner.Exit? || th.runner.Gone?
       else th.owner.Detach? || th.owner.OwnerUnlock? || th.owner.Detached? || th.owner.Joined?
  }

  lemma {:induction false} PastStays(s: State, me: Who, run: seq<Action>, end: State)
    requires IsPast(s, me) && Leads(s, run, end)
    ensures !IsWalking(end, me)
    decreases |run|
  {
    if run != [] {
      PastStays(Next(s, run[0]), me, run[1..], end);
    }
  }

  lemma ReleaseIsPast(s: State, chain: seq<int>, me: Who)
    requires Inv(s, chain, me) && IsWalking(s, me) && WalkOf(s.threads, me) == Release
    requires Enabled(s, MyStep(me)) && IsSafe(s, MyStep(me))
    ensures IsPast(Next(s, MyStep(me)), me)
  {
    assert ThreadInv(s.threads[me.i], s.mem.nodes[me.i]);
    hide IsChain, WalkInv, HasGuard;
  }

  lemma {:induction false} RunKeepsRecord(s: State, was: Memory, first: seq<int>, floor: nat, me: Who, chain: seq<int>,
                                          k: nat, run: seq<Action>, end: State)
    returns (chain': seq<int>, k': nat)
    requires Inv(s, chain, me) && HasFreed(s, first, floor, me, chain, k)
    requires forall i, j :: 0 <= i < j < |first| ==> first[i] != first[j]
    requires FreedSince(was, s.mem, first[..k])
    requires Leads(s, run, end) && IsWalking(end, me)
    ensures Inv(end, chain', me) && HasFreed(end, first, floor, me, chain', k')
    ensures FreedSince(was, end.mem, first[..k'])
    decreases |run|
  {
    hide Inv, HasFreed, FreedSince, IsWalking, ChainAfter, Next, Enabled, IsSafe;
    chain', k' := chain, k;
    if run != [] {
      var a := run[0];
      RecordIsWalk(s, first, floor, me, chain, k);
      if a == MyStep(me) && WalkOf(s.threads, me) == Release {
        ReleaseIsPast(s, chain, me);
        PastStays(Next(s, a), me, run[1..], end);
        assert false;
      } else {
        k' := ActionKeepsRecord(s, first, floor, me, chain, k, a);
        ActionKeepsFreed(s, was, first, floor, me, chain, k, a, k');
        chain', k' := RunKeepsRecord(Next(s, a), was, first, floor, me, ChainAfter(s, chain, a), k', run[1..], end);
      }
    }
  }

  lemma RecordIsWalk(s: State, first: seq<int>, floor: nat, me: Who, chain: seq<int>, k: nat)
    requires HasFreed(s, first, floor, me, chain, k)
    ensures IsWalking(s, me) && me != Nobody && k <= |first|
  {
  }

  lemma RecordStarts(s: State, first: seq<int>, me: Who)
    requires Inv(s, first, Nobody) && IsWalking(s, me) && WalkOf(s.threads, me) == Acquire
    requires Enabled(s, MyStep(me)) && IsSafe(s, MyStep(me))
    ensures var t := Next(s, MyStep(me));
            && Inv(t, first, me) && HasFreed(t, first, Cleared(s.mem, first), me, first, 0)
            && FreedSince(s.mem, t.mem, first[..0])
  {
    hide Inv, Next, IsSafe, Enabled, ChainAfter, IsChain, AreMarked, FreedSince, Cleared;
    var t := Next(s, MyStep(me));
    var chain', who' := ActionKeepsInv(s, first, Nobody, MyStep(me));
    AcquireStarts(s, first, me);
    WalkerHasGuard(t, chain', who', me);
    NothingFreedYet(s, t.mem, first);
    assert first[0..] == first;
  }

  lemma NothingFreedYet(s: State, m: Memory, first: seq<int>)
    requires Inv(s, first, Nobody) && m.nodes == s.mem.nodes
    ensures Cleared(s.mem, first) <= |first| && AreMarked(m, first, Cleared(s.mem, first), 0)
    ensures FreedSince(s.mem, m, first[..0])
  {
    hide HasGuard, WalkInv, ThreadInv, Cleared;
    ClearedIs(s.mem, first);
  }

  lemma AcquireStarts(s: State, first: seq<int>, me: Who)
    requires Inv(s, first, Nobody) && IsWalking(s, me) && WalkOf(s.threads, me) == Acquire
    requires Enabled(s, MyStep(me)) && IsSafe(s, MyStep(me))
    ensures var t := Next(s, MyStep(me));
            && IsWalking(t, me) && WalkOf(t.threads, me).Look? && t.mem.nodes == s.mem.nodes
            && ChainAfter(s, first, MyStep(me)) == first
  {
    assert ThreadInv(s.threads[me.i], s.mem.nodes[me.i]);
  }

  /**
   * One `cthread_destroy`, from taking the guard to releasing it, whatever
   * others do meanwhile: it frees the first `k` nodes of the list and no other,
   * at least those at the front that were cleared when it came and at most those
   * that are cleared when it leaves; its own node is then followed by the rest.
   */
  lemma DestroyFreesClearedPrefix(start: State, run: seq<Action>, s: State, me: Who, more: seq<Action>, end: State)
    returns (first: seq<int>, k: nat)
    requires IsInitial(start) && Leads(start, run, s) && IsWalking(s, me) && WalkOf(s.threads, me) == Acquire
    requires more != [] && more[0] == MyStep(me) && Leads(s, more, end)
    requires IsWalking(end, me) && WalkOf(end.threads, me) == Release
    ensures IsChain(s.mem, first) && s.mem.list == Head(first)
    ensures Cleared(s.mem, first) <= k <= Cleared(end.mem, first) <= |first|
    ensures IsChain(end.mem, [me.i] + first[k..]) && end.mem.list == me.i
    ensures FreedSince(s.mem, end.mem, first[..k])
  {
    InitialInv(start);
    var who: Who;
    first, who := RunKeepsInv(start, [], Nobody, run, s);
    EntersAlone(s, first, who, me);
    var chain', who' := ActionKeepsInv(s, first, who, more[0]);
    RecordStarts(s, first, me);
    var chain: seq<int>;
    var t := Next(s, more[0]);
    assert Leads(t, more[1..], end);
    chain, k := RunKeepsRecord(t, s.mem, first, Cleared(s.mem, first), me, first, 0, more[1..], end);
    ClearedAtLeast(end.mem, first, k);
    ClearedIs(end.mem, first);
    assert Head([me.i] + first[k..]) == me.i;
    hide ThreadInv, HasGuard;
  }

  lemma EntersAlone(s: State, chain: seq<int>, who: Who, me: Who)
    requires Inv(s, chain, who) && IsWalking(s, me) && WalkOf(s.threads, me) == Acquire && Enabled(s, MyStep(me))
    ensures who == Nobody
  {
    assert ThreadInv(s.threads[me.i], s.mem.nodes[me.i]);
  }

  lemma {:induction false} ClearedAtLeast(m: Memory, chain: seq<int>, k: nat)
    requires k <= |chain| && forall j :: 0 <= j < k ==> 0 <= chain[j] < |m.nodes| && m.nodes[chain[j]].tid == 0
    ensures k <= Cleared(m, chain)
  {
    if k > 0 {
      assert forall j :: 0 <= j < k - 1 ==> chain[1..][j] == chain[j + 1];
      ClearedAtLeast(m, chain[1..], k - 1);
    }
  }

  // ---------- Every run ends ----------

  ghost predicate AllOver(s: State) {
    forall i :: 0 <= i < |s.threads| ==>
      s.threads[i].runner.Gone? && (s.threads[i].owner.Detached? || s.threads[i].owner.Joined?)
  }

  /** Spin locks and joins never leave all threads waiting for each other. */
  lemma SomeoneCanMove(s: State, chain: seq<int>, who: Who) returns (a: Action)
    requires Inv(s, chain, who) && !AllOver(s)
    ensures Enabled(s, a)
  {
    match who
    case RunnerOf(i) => a := Run(i);
    case OwnerOf(i) => a := Own(i);
    case Nobody =>
      var i :| 0 <= i < |s.threads| && !(s.threads[i].runner.Gone?
          && (s.threads[i].owner.Detached? || s.threads[i].owner.Joined?));
      assert ThreadInv(s.threads[i], s.mem.nodes[i]);
      var th := s.threads[i];
      if th.runner.Begin? {
        a := Start(i, 1);
      } else if th.runner.Gone? || (th.runner.RunnerLock? && th.lock) {
        a := Own(i);
      } else {
        a := Run(i);
      }
  }

  ghost function WalkRank(w: Walk): int {
    match w case Acquire => 6 case Look(_) => 5 case Free(_) => 4 case Link(_) => 3 case Publish => 2 case Release => 1
  }

  ghost function RunnerRank(pc: RunnerPc): int {
    match pc
    case Begin => 13 case Func => 12 case RunnerLock => 11 case CheckDetached => 10
    case RunnerDestroy(w) => 3 + WalkRank(w)
    case Finish => 3 case RunnerUnlock => 2 case Exit => 1 case Gone => 0
  }

  ghost function OwnerRank(pc: OwnerPc): int {
    match pc
    case OwnerLock => 10 case CheckFinished => 9
    case OwnerDestroy(w) => 2 + WalkRank(w)
    case Detach => 2 case OwnerUnlock => 1 case Detached => 0
    case JoinWait => 7 case JoinDestroy(w) => WalkRank(w) case Joined => 0
  }

  ghost function ThreadWork(): Thread -> int {
    (th: Thread) => RunnerRank(th.runner) + OwnerRank(th.owner)
  }

  /** A walk pays for each round of its loop with the node it frees. */
  ghost function NodeWork(): Node -> int {
    (n: Node) => if n.freed == 0 then 2 else 0
  }

  ghost function Work(s: State): int {
    Total(s.threads, ThreadWork()) + Total(s.mem.nodes, NodeWork())
  }

  lemma WalkUsesWork(m: Memory, own: nat, w: Walk)
    requires WalkIsSafe(m, own, w)
    ensures Total(WalkMemory(m, own, w).nodes, NodeWork()) == Total(m.nodes, NodeWork()) - (if w.Free? then 2 else 0)
  {
    match w
    case Free(iter) => TotalOfUpdate(m.nodes, iter, WalkMemory(m, own, w).nodes[iter], NodeWork());
    case Link(_) => TotalOfUpdate(m.nodes, own, WalkMemory(m, own, w).nodes[own], NodeWork());
    case Publish => TotalOfUpdate(m.nodes, own, WalkMemory(m, own, w).nodes[own], NodeWork());
    case _ =>
  }

  lemma RunUsesWork(s: State, i: nat)
    requires Enabled(s, Run(i)) && IsSafe(s, Run(i)) && |s.mem.nodes| == |s.threads|
    ensures Work(Next(s, Run(i))) < Work(s)
  {
    hide Total;
    var th := s.threads[i];
    TotalOfUpdate(s.threads, i, RunnerNext(s.mem, i, th), ThreadWork());
    if th.runner.RunnerDestroy? {
      WalkUsesWork(s.mem, i, th.runner.walk);
      hide WalkMemory;
    } else if th.runner.Exit? {
      TotalOfUpdate(s.mem.nodes, i, s.mem.nodes[i].(tid := 0), NodeWork());
    }
  }

  lemma OwnUsesWork(s: State, i: nat)
    requires Enabled(s, Own(i)) && IsSafe(s, Own(i)) && |s.mem.nodes| == |s.threads|
    ensures Work(Next(s, Own(i))) < Work(s)
  {
    hide Total;
    var th := s.threads[i];
    TotalOfUpdate(s.threads, i, OwnerNext(s.mem, i, th), ThreadWork());
    if th.owner.OwnerDestroy? || th.owner.JoinDestroy? {
      WalkUsesWork(s.mem, i, th.owner.walk);
      hide WalkMemory;
    }
  }

  lemma ActionUsesWork(s: State, a: Action)
    requires Enabled(s, a) && IsSafe(s, a) && |s.mem.nodes| == |s.threads|
    ensures Work(Next(s, a)) < Work(s)
  {
    match a
    case Start(i, tid) =>
      TotalOfUpdate(s.threads, i, s.threads[i].(runner := Func), ThreadWork());
      TotalOfUpdate(s.mem.nodes, i, s.mem.nodes[i].(tid := tid), NodeWork());
      hide Total;
    case Run(i) => RunUsesWork(s, i);
    case Own(i) => OwnUsesWork(s, i);
  }

  /** No run is longer than the work its start holds. */
  lemma {:induction false} RunsAreBounded(s: State, run: seq<Action>, end: State)
    requires Leads(s, run, end) && |s.mem.nodes| == |s.threads|
    ensures |run| <= Work(s)
    decreases |run|
  {
    if run == [] {
      TotalIsNonNegative(s.threads, ThreadWork());
      TotalIsNonNegative(s.mem.nodes, NodeWork());
    } else {
      ActionUsesWork(s, run[0]);
      RunsAreBounded(Next(s, run[0]), run[1..], end);
    }
  }

  /** A run that can go no further has destroyed every thread once; its stack is freed or still on the list. */
  lemma EveryRunEndsClean(start: State, run: seq<Action>, s: State) returns (chain: seq<int>)
    requires IsInitial(start) && Leads(start, run, s)
    requires forall a :: !Enabled(s, a)
    ensures AllOver(s) && |s.mem.nodes| == |s.threads|
    ensures IsChain(s.mem, chain) && s.mem.list == Head(chain)
    ensures forall i :: 0 <= i < |s.threads| ==>
          s.mem.nodes[i].retired == 1 && (s.mem.nodes[i].freed == 1 <==> i !in chain)
  {
    InitialInv(start);
    var who: Who;
    chain, who := RunKeepsInv(start, [], Nobody, run, s);
    if !AllOver(s) {
      var a := SomeoneCanMove(s, chain, who);
    }
    forall i | 0 <= i < |s.threads|
      ensures s.mem.nodes[i].retired == 1
    {
      assert ThreadInv(s.threads[i], s.mem.nodes[i]);
    }
  }
}
