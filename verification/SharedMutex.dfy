/** The two-gate reader/writer lock: its word, the object, and every run of any number of threads. */
module SharedMutex {
  import opened Sets
  import opened Sums

  // ---------- The state word ----------

  /** `write_entered_`, the top bit of a 32-bit unsigned. */
  const WRITE_ENTERED: nat := 0x8000_0000
  /** `n_readers_`, all the other bits. */
  const N_READERS: nat := 0x7fff_ffff

  type Word = w: nat | w < 0x1_0000_0000

  /** `w & write_entered_` is not zero. */
  predicate WriteEntered(w: Word) {
    w >= WRITE_ENTERED
  }

  /** `w & n_readers_`. */
  function Readers(w: Word): nat {
    w % WRITE_ENTERED
  }

  /** The word with this top bit and these low bits. */
  function Pack(entered: bool, readers: nat): (w: Word)
    requires readers <= N_READERS
    ensures WriteEntered(w) == entered && Readers(w) == readers
  {
    if entered then WRITE_ENTERED + readers else readers
  }

  lemma WordIsPacked(w: Word)
    ensures Readers(w) <= N_READERS && w == Pack(WriteEntered(w), Readers(w))
  {
  }

  /** How a critical section ends: inside, or asleep on a gate. */
  datatype Outcome = Entered | AtGate1 | AtGate2

  /** One pass of `lock` from the first test, holding `mut_` throughout. */
  function LockSection(w: Word): (Word, Outcome) {
    if WriteEntered(w) then (w, AtGate1)
    else (Pack(true, Readers(w)), if Readers(w) > 0 then AtGate2 else Entered)
  }

  function LockSharedSection(w: Word): (Word, Outcome) {
    if WriteEntered(w) || Readers(w) == N_READERS then (w, AtGate1) else (Pack(false, Readers(w) + 1), Entered)
  }

  /** Which gate `unlock_shared` notifies, if any. */
  datatype Notice = NoNotice | OneAtGate1 | OneAtGate2

  /** With no reader inside, the unsigned subtraction wraps and sets every bit. */
  function UnlockSharedSection(w: Word): (Word, Notice) {
    if Readers(w) == 0 then (0xffff_ffff, NoNotice)
    else
      var left := Readers(w) - 1;
      (Pack(WriteEntered(w), left),
       if WriteEntered(w) then (if left == 0 then OneAtGate2 else NoNotice)
       else if left == N_READERS - 1 then OneAtGate1 else NoNotice)
  }

  // ---------- The object ----------

  /** Each method is one critical section under `mut_`; sleeping on a gate ends a section. */
  class Lock {
    var state: Word

    constructor ()
      ensures state == 0
    {
      state := 0;
    }

    method LockPass() returns (o: Outcome)
      modifies this
      ensures (state, o) == LockSection(old(state))
    {
      WordIsPacked(state);
      if state >= WRITE_ENTERED {
        return AtGate1;
      }
      state := state + WRITE_ENTERED;
      o := DrainPass();
    }

    /** The second loop of `lock`. */
    method DrainPass() returns (o: Outcome)
      ensures o == if Readers(state) > 0 then AtGate2 else Entered
    {
      o := if state % WRITE_ENTERED != 0 then AtGate2 else Entered;
    }

    method TryLock(owns: bool) returns (ok: bool)
      modifies this
      ensures ok == (owns && old(state) == 0)
      ensures state == if ok then Pack(true, 0) else old(state)
    {
      if owns && state == 0 {
        state := WRITE_ENTERED;
        return true;
      }
      return false;
    }

    method Unlock()
      modifies this
      ensures state == 0
    {
      state := 0;
    }

    method LockSharedPass() returns (o: Outcome)
      modifies this
      ensures (state, o) == LockSharedSection(old(state))
    {
      WordIsPacked(state);
      if state >= WRITE_ENTERED || state % WRITE_ENTERED == N_READERS {
        return AtGate1;
      }
      var numReaders := state % WRITE_ENTERED + 1;
      state := state - state % WRITE_ENTERED;
      state := state + numReaders;
      return Entered;
    }

    method TryLockShared(owns: bool) returns (ok: bool)
      modifies this
      ensures ok == (owns && LockSharedSection(old(state)).1 == Entered)
      ensures state == if ok then LockSharedSection(old(state)).0 else old(state)
    {
      WordIsPacked(state);
      var numReaders := state % WRITE_ENTERED;
      if owns && state < WRITE_ENTERED && numReaders != N_READERS {
        numReaders := numReaders + 1;
        state := state - state % WRITE_ENTERED;
        state := state + numReaders;
        return true;
      }
      return false;
    }

    method UnlockShared() returns (n: Notice)
      modifies this
      ensures (state, n) == UnlockSharedSection(old(state))
    {
      WordIsPacked(state);
      var numReaders: Word := if state % WRITE_ENTERED == 0 then 0xffff_ffff else state % WRITE_ENTERED - 1;
      state := state - state % WRITE_ENTERED;
      state := if numReaders == 0xffff_ffff then 0xffff_ffff else state + numReaders;
      if state >= WRITE_ENTERED {
        n := if numReaders == 0 then OneAtGate2 else NoNotice;
      } else {
        n := if numReaders == N_READERS - 1 then OneAtGate1 else NoNotice;
      }
    }
  }

  // ---------- Runs ----------

  /** `Want...`: about to take `mut_`; `Asleep...`: parked on a gate; `Notifying`: in `unlock`, before `notify_all`. */
  datatype Pc =
    | Idle
    | WantWrite | AsleepWrite | WantDrain | AsleepDrain | Writing | Notifying
    | WantRead | AsleepRead | Reading

  datatype State = State(word: Word, pcs: seq<Pc>)

  datatype Action =
    | CallLock(t: nat)
    | PassLock(t: nat)
    | PassDrain(t: nat)
    | CallTryLock(t: nat, owns: bool)
    | CallUnlock(t: nat)
    | NotifyAll(t: nat)
    | CallLockShared(t: nat)
    | PassLockShared(t: nat)
    | CallTryLockShared(t: nat, owns: bool)
    | CallUnlockShared(t: nat, woken: nat)
    | SpuriousWakeup(t: nat)

  function Initial(threads: nat): State {
    State(0, seq(threads, _ => Idle))
  }

  predicate AsleepAtGate1(pc: Pc) {
    pc.AsleepWrite? || pc.AsleepRead?
  }

  /** A thread that has set the top bit and not yet cleared it. */
  predicate OwnsEntry(pc: Pc) {
    pc.WantDrain? || pc.AsleepDrain? || pc.Writing?
  }

  /** What a wake-up does to a thread; awake threads are left alone. */
  function Awake(pc: Pc): Pc {
    match pc
    case AsleepWrite => WantWrite
    case AsleepDrain => WantDrain
    case AsleepRead => WantRead
    case _ => pc
  }

  /** `woken` is a legal choice of `notify_one`: a sleeper at that gate if there is one. */
  ghost predicate MayWake(s: State, n: Notice, woken: nat) {
    match n
    case NoNotice => woken >= |s.pcs|
    case OneAtGate1 =>
      if exists t :: 0 <= t < |s.pcs| && AsleepAtGate1(s.pcs[t]) then woken < |s.pcs| && AsleepAtGate1(s.pcs[woken])
      else woken >= |s.pcs|
    case OneAtGate2 =>
      if exists t :: 0 <= t < |s.pcs| && s.pcs[t].AsleepDrain? then woken < |s.pcs| && s.pcs[woken].AsleepDrain?
      else woken >= |s.pcs|
  }

  /** Threads lock only when idle and unlock only what they hold. */
  ghost predicate Enabled(s: State, a: Action) {
    && a.t < |s.pcs|
    && match a
       case CallLock(t) => s.pcs[t].Idle?
       case PassLock(t) => s.pcs[t].WantWrite?
       case PassDrain(t) => s.pcs[t].WantDrain?
       case CallTryLock(t, _) => s.pcs[t].Idle?
       case CallUnlock(t) => s.pcs[t].Writing?
       case NotifyAll(t) => s.pcs[t].Notifying?
       case CallLockShared(t) => s.pcs[t].Idle?
       case PassLockShared(t) => s.pcs[t].WantRead?
       case CallTryLockShared(t, _) => s.pcs[t].Idle?
       case CallUnlockShared(t, woken) =>
         s.pcs[t].Reading? && MayWake(s, UnlockSharedSection(s.word).1, woken)
       case SpuriousWakeup(t) => Awake(s.pcs[t]) != s.pcs[t]
  }

  function At(s: State, word: Word, t: nat, pc: Pc): State
    requires t < |s.pcs|
  {
    State(word, s.pcs[t := pc])
  }

  function WakeGate1(pcs: seq<Pc>): seq<Pc> {
    seq(|pcs|, k requires 0 <= k < |pcs| => if AsleepAtGate1(pcs[k]) then Awake(pcs[k]) else pcs[k])
  }

  ghost function Next(s: State, a: Action): State
    requires Enabled(s, a)
  {
    match a
    case CallLock(t) => At(s, s.word, t, WantWrite)
    case PassLock(t) =>
      var (w, o) := LockSection(s.word);
      At(s, w, t, match o case Entered => Writing case AtGate1 => AsleepWrite case AtGate2 => AsleepDrain)
    case PassDrain(t) => At(s, s.word, t, if Readers(s.word) > 0 then AsleepDrain else Writing)
    case CallTryLock(t, owns) =>
      if owns && s.word == 0 then At(s, Pack(true, 0), t, Writing) else s
    case CallUnlock(t) => At(s, 0, t, Notifying)
    case NotifyAll(t) => State(s.word, WakeGate1(s.pcs)[t := Idle])
    case CallLockShared(t) => At(s, s.word, t, WantRead)
    case PassLockShared(t) =>
      var (w, o) := LockSharedSection(s.word);
      At(s, w, t, if o == Entered then Reading else AsleepRead)
    case CallTryLockShared(t, owns) =>
      var (w, o) := LockSharedSection(s.word);
      if owns && o == Entered then At(s, w, t, Reading) else s
    case CallUnlockShared(t, woken) =>
      var after := At(s, UnlockSharedSection(s.word).0, t, Idle);
      if woken < |s.pcs| then At(after, after.word, woken, Awake(s.pcs[woken])) else after
    case SpuriousWakeup(t) => At(s, s.word, t, Awake(s.pcs[t]))
  }

  /** The actions lead from `s` to `end`. */
  ghost predicate Leads(s: State, run: seq<Action>, end: State)
    decreases |run|
  {
    if run == [] then s == end else Enabled(s, run[0]) && Leads(Next(s, run[0]), run[1..], end)
  }

  ghost predicate Reachable(threads: nat, s: State) {
    exists run :: Leads(Initial(threads), run, s)
  }

  // ---------- Exclusion ----------

  ghost function ReadersInside(pcs: seq<Pc>): set<nat> {
    set t: nat | t < |pcs| && pcs[t].Reading?
  }

  ghost predicate Inv(s: State) {
    && Readers(s.word) == |ReadersInside(s.pcs)|
    && (forall t, u :: 0 <= t < |s.pcs| && 0 <= u < |s.pcs| && OwnsEntry(s.pcs[t]) && OwnsEntry(s.pcs[u]) ==> t == u)
    && (WriteEntered(s.word) <==> exists t :: 0 <= t < |s.pcs| && OwnsEntry(s.pcs[t]))
    && (forall t :: 0 <= t < |s.pcs| && s.pcs[t].Writing? ==> Readers(s.word) == 0)
    && (forall t :: 0 <= t < |s.pcs| && s.pcs[t].AsleepDrain? ==> Readers(s.word) > 0)
  }

  lemma ReadersAfterMove(pcs: seq<Pc>, t: nat, pc: Pc)
    requires t < |pcs|
    ensures |ReadersInside(pcs[t := pc])| ==
      |ReadersInside(pcs)| - (if pcs[t].Reading? then 1 else 0) + (if pc.Reading? then 1 else 0)
  {
    var was, now := ReadersInside(pcs), ReadersInside(pcs[t := pc]);
    assert forall u: nat :: u != t ==> (u in now <==> u in was);
    if pcs[t].Reading? && !pc.Reading? {
      assert now == was - {t};
    } else if !pcs[t].Reading? && pc.Reading? {
      assert now == was + {t};
    } else {
      assert now == was;
    }
  }

  lemma ReaderIsCounted(s: State, t: nat)
    requires Inv(s) && t < |s.pcs| && s.pcs[t].Reading?
    ensures Readers(s.word) > 0
  {
    assert t in ReadersInside(s.pcs);
  }

  /** Moving one thread: what keeps the invariant. */
  lemma MoveKeepsInv(s: State, word: Word, t: nat, pc: Pc)
    requires Inv(s) && t < |s.pcs|
    requires Readers(word) == Readers(s.word) - (if s.pcs[t].Reading? then 1 else 0) + (if pc.Reading? then 1 else 0)
    requires if OwnsEntry(s.pcs[t]) then WriteEntered(word) == OwnsEntry(pc)
             else if OwnsEntry(pc) then !WriteEntered(s.word) && WriteEntered(word)
             else WriteEntered(word) == WriteEntered(s.word)
    requires pc.Writing? ==> Readers(word) == 0
    requires pc.AsleepDrain? ==> Readers(word) > 0
    requires WriteEntered(s.word) ==> Readers(word) <= Readers(s.word)
    requires s.pcs[t].Reading? && Readers(word) == 0 ==> forall u :: 0 <= u < |s.pcs| ==> !s.pcs[u].AsleepDrain?
    ensures Inv(At(s, word, t, pc))
  {
    ReadersAfterMove(s.pcs, t, pc);
    var s' := At(s, word, t, pc);
    if WriteEntered(word) {
      if OwnsEntry(pc) {
        assert OwnsEntry(s'.pcs[t]);
      } else {
        var u :| 0 <= u < |s.pcs| && OwnsEntry(s.pcs[u]);
        assert OwnsEntry(s'.pcs[u]);
      }
    }
  }

  lemma WakingGate1KeepsInv(s: State)
    requires Inv(s)
    ensures Inv(State(s.word, WakeGate1(s.pcs)))
  {
    var s' := State(s.word, WakeGate1(s.pcs));
    assert forall t :: 0 <= t < |s.pcs| ==> s'.pcs[t].Reading? == s.pcs[t].Reading?;
    assert ReadersInside(s'.pcs) == ReadersInside(s.pcs);
    assert forall t :: 0 <= t < |s.pcs| ==> OwnsEntry(s'.pcs[t]) == OwnsEntry(s.pcs[t]);
    if t :| 0 <= t < |s.pcs| && OwnsEntry(s.pcs[t]) {
      assert OwnsEntry(s'.pcs[t]);
    }
  }

  lemma UnlockSharedKeepsInv(s: State, t: nat, woken: nat)
    requires Inv(s) && Enabled(s, CallUnlockShared(t, woken))
    ensures Inv(Next(s, CallUnlockShared(t, woken)))
  {
    ReaderIsCounted(s, t);
    WordIsPacked(s.word);
    var (w, n) := UnlockSharedSection(s.word);
    if woken < |s.pcs| {
      var s1 := At(s, s.word, woken, Awake(s.pcs[woken]));
      MoveKeepsInv(s, s.word, woken, Awake(s.pcs[woken]));
      MoveKeepsInv(s1, w, t, Idle);
      assert s.pcs[woken := Awake(s.pcs[woken])][t := Idle] == s.pcs[t := Idle][woken := Awake(s.pcs[woken])];
    } else {
      MoveKeepsInv(s, w, t, Idle);
    }
  }

  lemma WriterStepKeepsInv(s: State, a: Action)
    requires Inv(s) && Enabled(s, a)
    requires a.CallLock? || a.PassLock? || a.PassDrain? || a.CallTryLock? || a.CallUnlock?
    ensures Inv(Next(s, a))
  {
    WordIsPacked(s.word);
    if Next(s, a) != s {
      MoveKeepsInv(s, Next(s, a).word, a.t, Next(s, a).pcs[a.t]);
    }
  }

  lemma ReaderStepKeepsInv(s: State, a: Action)
    requires Inv(s) && Enabled(s, a)
    requires a.CallLockShared? || a.PassLockShared? || a.CallTryLockShared? || a.SpuriousWakeup?
    ensures Inv(Next(s, a))
  {
    WordIsPacked(s.word);
    if Next(s, a) != s {
      MoveKeepsInv(s, Next(s, a).word, a.t, Next(s, a).pcs[a.t]);
    }
  }

  /** Every action of every thread keeps exclusion and the reader count. */
  lemma StepKeepsInv(s: State, a: Action)
    requires Inv(s) && Enabled(s, a)
    ensures Inv(Next(s, a)) && |Next(s, a).pcs| == |s.pcs|
  {
    match a
    case NotifyAll(t) =>
      WakingGate1KeepsInv(s);
      MoveKeepsInv(State(s.word, WakeGate1(s.pcs)), s.word, t, Idle);
    case CallUnlockShared(t, woken) => UnlockSharedKeepsInv(s, t, woken);
    case CallLockShared(_) | PassLockShared(_) | CallTryLockShared(_, _) | SpuriousWakeup(_) =>
      ReaderStepKeepsInv(s, a);
    case _ => WriterStepKeepsInv(s, a);
  }

  lemma InitialInv(threads: nat)
    ensures Inv(Initial(threads))
  {
    assert ReadersInside(Initial(threads).pcs) == {};
  }

  lemma {:induction false} RunKeepsInv(s: State, run: seq<Action>, end: State)
    requires Inv(s) && Leads(s, run, end)
    ensures Inv(end) && |end.pcs| == |s.pcs|
    decreases |run|
  {
    if run != [] {
      StepKeepsInv(s, run[0]);
      RunKeepsInv(Next(s, run[0]), run[1..], end);
    }
  }

  lemma ReachableInv(threads: nat, s: State)
    requires Reachable(threads, s)
    ensures Inv(s) && |s.pcs| == threads
  {
    var run :| Leads(Initial(threads), run, s);
    InitialInv(threads);
    RunKeepsInv(Initial(threads), run, s);
  }

  lemma ReachableAbandonsNobody(threads: nat, s: State)
    requires threads <= N_READERS + 1 && Reachable(threads, s)
    ensures NobodyAbandoned(s)
  {
    var run :| Leads(Initial(threads), run, s);
    InitialInv(threads);
    RunAbandonsNobody(Initial(threads), run, s);
  }

  /**
   * In every run of any number of threads: a writer is inside alone, the low
   * bits count the readers inside, and a writer asleep on gate 2 has readers to wait for.
   */
  lemma Exclusion(threads: nat, s: State)
    requires Reachable(threads, s)
    ensures forall t, u :: 0 <= t < |s.pcs| && 0 <= u < |s.pcs| && t != u && s.pcs[t].Writing? ==>
              !s.pcs[u].Writing? && !s.pcs[u].Reading?
    ensures Readers(s.word) == |ReadersInside(s.pcs)|
    ensures forall t :: 0 <= t < |s.pcs| && s.pcs[t].AsleepDrain? ==> ReadersInside(s.pcs) != {}
  {
    ReachableInv(threads, s);
    forall t | 0 <= t < |s.pcs| && s.pcs[t].Reading?
      ensures Readers(s.word) > 0
    {
      ReaderIsCounted(s, t);
    }
  }

  /** Once a writer has entered, no action adds a reader, and `unlock` finds no reader to discard. */
  lemma ReadersOnlyLeaveOnceWriterEntered(threads: nat, s: State, a: Action)
    requires Reachable(threads, s) && Enabled(s, a) && WriteEntered(s.word)
    ensures ReadersInside(Next(s, a).pcs) <= ReadersInside(s.pcs)
    ensures Readers(Next(s, a).word) <= Readers(s.word)
    ensures a.CallUnlock? ==> ReadersInside(s.pcs) == {}
  {
    ReachableInv(threads, s);
    if a.CallUnlockShared? {
      ReaderIsCounted(s, a.t);
    }
  }

  // ---------- Who gets in, without the word ----------

  ghost predicate SomeoneEntered(pcs: seq<Pc>) {
    exists t :: 0 <= t < |pcs| && OwnsEntry(pcs[t])
  }

  /** Where a thread goes that asks for the lock or gives it back, told from the threads' places alone. */
  ghost function Intended(pcs: seq<Pc>, a: Action): Pc
    requires a.t < |pcs|
  {
    var noReaders, slotOpen := ReadersInside(pcs) == {}, |ReadersInside(pcs)| < N_READERS;
    match a
    case CallLock(_) => WantWrite
    case PassLock(_) => if SomeoneEntered(pcs) then AsleepWrite else if noReaders then Writing else AsleepDrain
    case PassDrain(_) => if noReaders then Writing else AsleepDrain
    case CallTryLock(t, owns) => if owns && noReaders && !SomeoneEntered(pcs) then Writing else pcs[t]
    case CallUnlock(_) => Notifying
    case CallLockShared(_) => WantRead
    case PassLockShared(_) => if slotOpen && !SomeoneEntered(pcs) then Reading else AsleepRead
    case CallTryLockShared(t, owns) => if owns && slotOpen && !SomeoneEntered(pcs) then Reading else pcs[t]
    case NotifyAll(_) => Idle
    case CallUnlockShared(_, _) => Idle
    case SpuriousWakeup(t) => Awake(pcs[t])
  }

  /**
   * The lock behaves as if it looked at the threads and had no state word: each
   * goes where it is intended to, and the others stay where they are, except
   * those that `unlock` or the departing reader wakes.
   */
  lemma WordIsNotNeeded(threads: nat, s: State, a: Action, u: nat)
    requires Reachable(threads, s) && Enabled(s, a) && u < |s.pcs|
    ensures |Next(s, a).pcs| == |s.pcs|
    ensures Next(s, a).pcs[u] ==
      if u == a.t then Intended(s.pcs, a)
      else if (a.NotifyAll? && AsleepAtGate1(s.pcs[u])) || (a.CallUnlockShared? && u == a.woken) then Awake(s.pcs[u])
      else s.pcs[u]
  {
    ReachableInv(threads, s);
    WordOfThreads(s);
    WordIsPacked(s.word);
    hide Inv, ReadersInside, Reachable, SomeoneEntered, MayWake;
    if a.CallUnlockShared? {
      AwakeIsNotAsleep(s, a);
    }
  }

  /** A departing reader wakes someone else. */
  lemma AwakeIsNotAsleep(s: State, a: Action)
    requires Enabled(s, a) && a.CallUnlockShared?
    ensures a.woken != a.t
  {
  }

  lemma WordOfThreads(s: State)
    requires Inv(s)
    ensures WriteEntered(s.word) <==> SomeoneEntered(s.pcs)
    ensures Readers(s.word) == |ReadersInside(s.pcs)| && (Readers(s.word) == 0 <==> ReadersInside(s.pcs) == {})
    ensures s.word == 0 <==> !SomeoneEntered(s.pcs) && ReadersInside(s.pcs) == {}
  {
    WordIsPacked(s.word);
  }

  /** A departing reader wakes a writer on gate 2 if it is the last, and a sleeper on gate 1 if the house was full. */
  lemma DepartureWakes(threads: nat, s: State, t: nat, woken: nat)
    requires Reachable(threads, s) && t < |s.pcs| && s.pcs[t].Reading?
    ensures Enabled(s, CallUnlockShared(t, woken)) <==>
      var n := |ReadersInside(s.pcs)|;
      if SomeoneEntered(s.pcs) && n == 1 && exists u :: 0 <= u < |s.pcs| && s.pcs[u].AsleepDrain?
      then woken < |s.pcs| && s.pcs[woken].AsleepDrain?
      else if !SomeoneEntered(s.pcs) && n == N_READERS && exists u :: 0 <= u < |s.pcs| && AsleepAtGate1(s.pcs[u])
      then woken < |s.pcs| && AsleepAtGate1(s.pcs[woken])
      else woken >= |s.pcs|
  {
    ReachableInv(threads, s);
    ReaderIsCounted(s, t);
    WordOfThreads(s);
    hide Inv, ReadersInside, Reachable, SomeoneEntered;
  }

  // ---------- Wake-ups ----------

  ghost predicate SleepsAtGate1(s: State, t: nat) {
    t < |s.pcs| && AsleepAtGate1(s.pcs[t])
  }

  ghost predicate SomeoneNotifies(s: State) {
    exists t :: 0 <= t < |s.pcs| && s.pcs[t].Notifying?
  }

  /**
   * `t` sleeps on gate 1 although it could leave it, and nobody is about to wake
   * it. A writer leaves gate 1 whenever the top bit is clear, a reader needs a slot as well.
   */
  ghost predicate Abandoned(s: State, t: nat) {
    && SleepsAtGate1(s, t) && !WriteEntered(s.word) && !SomeoneNotifies(s)
    && (s.pcs[t].AsleepWrite? || Readers(s.word) != N_READERS)
  }

  /** A writer asleep on gate 1 has the top bit set before it, or a notification under way. */
  ghost predicate WritersAreNoticed(s: State) {
    forall t :: 0 <= t < |s.pcs| && s.pcs[t].AsleepWrite? ==> WriteEntered(s.word) || SomeoneNotifies(s)
  }

  lemma StepNoticesWriters(s: State, a: Action)
    requires Inv(s) && WritersAreNoticed(s) && Enabled(s, a)
    ensures WritersAreNoticed(Next(s, a))
  {
    WordIsPacked(s.word);
    var s' := Next(s, a);
    if a.CallUnlockShared? {
      ReaderIsCounted(s, a.t);
    } else if a.CallUnlock? {
      assert s'.pcs[a.t].Notifying?;
    }
    if !a.NotifyAll? && SomeoneNotifies(s) {
      var n :| 0 <= n < |s.pcs| && s.pcs[n].Notifying?;
      assert s'.pcs[n].Notifying?;
    }
  }

  lemma {:induction false} RunNoticesWriters(s: State, run: seq<Action>, end: State)
    requires Inv(s) && WritersAreNoticed(s) && Leads(s, run, end)
    ensures WritersAreNoticed(end)
    decreases |run|
  {
    if run != [] {
      StepKeepsInv(s, run[0]);
      StepNoticesWriters(s, run[0]);
      RunNoticesWriters(Next(s, run[0]), run[1..], end);
    }
  }

  /** No run of any number of threads abandons a writer on gate 1. */
  lemma WritersAreNeverAbandoned(threads: nat, s: State, t: nat)
    requires Reachable(threads, s) && t < |s.pcs| && s.pcs[t].AsleepWrite?
    ensures WriteEntered(s.word) || SomeoneNotifies(s)
    ensures !Abandoned(s, t)
  {
    var run :| Leads(Initial(threads), run, s);
    InitialInv(threads);
    RunNoticesWriters(Initial(threads), run, s);
  }

  ghost predicate NobodyAbandoned(s: State) {
    forall t :: !Abandoned(s, t)
  }

  /** With every reader slot taken, at most one other thread can sleep on gate 1. */
  lemma FullHouseLeavesOneSleeper(s: State, t: nat, u: nat)
    requires Inv(s) && |s.pcs| <= N_READERS + 1 && Readers(s.word) == N_READERS
    requires SleepsAtGate1(s, t) && SleepsAtGate1(s, u)
    ensures t == u
  {
    var inside := ReadersInside(s.pcs);
    assert t !in inside && u !in inside;
    assert |inside + {t}| == |inside| + 1;
    assert t != u ==> |inside + {t} + {u}| == |inside| + 2;
    hide Inv, AsleepAtGate1;
    SubsetSize(inside + {t} + {u}, Below(|s.pcs|));
  }

  lemma UnlockSharedAbandonsNobody(s: State, t: nat, woken: nat)
    requires Inv(s) && |s.pcs| <= N_READERS + 1 && NobodyAbandoned(s)
    requires Enabled(s, CallUnlockShared(t, woken))
    ensures NobodyAbandoned(Next(s, CallUnlockShared(t, woken)))
  {
    ReaderIsCounted(s, t);
    WordIsPacked(s.word);
    var s' := Next(s, CallUnlockShared(t, woken));
    forall u | SleepsAtGate1(s', u)
      ensures !Abandoned(s', u)
    {
      assert SleepsAtGate1(s, u) && !Abandoned(s, u);
      if !WriteEntered(s.word) {
        if Readers(s.word) == N_READERS {
          FullHouseLeavesOneSleeper(s, u, woken);
        } else {
          var n :| 0 <= n < |s.pcs| && s.pcs[n].Notifying?;
          assert s'.pcs[n].Notifying?;
        }
      }
    }
  }

  lemma StepAbandonsNobody(s: State, a: Action)
    requires Inv(s) && |s.pcs| <= N_READERS + 1 && NobodyAbandoned(s) && Enabled(s, a)
    ensures NobodyAbandoned(Next(s, a))
  {
    WordIsPacked(s.word);
    if a.CallUnlockShared? {
      UnlockSharedAbandonsNobody(s, a.t, a.woken);
    } else {
      var s' := Next(s, a);
      forall u | SleepsAtGate1(s', u)
        ensures !Abandoned(s', u)
      {
        OtherStepsAbandonNobody(s, a, u);
      }
    }
  }

  lemma OtherStepsAbandonNobody(s: State, a: Action, u: nat)
    requires Inv(s) && NobodyAbandoned(s) && Enabled(s, a) && !a.CallUnlockShared?
    requires SleepsAtGate1(Next(s, a), u)
    ensures !Abandoned(Next(s, a), u)
  {
    WordIsPacked(s.word);
    var s' := Next(s, a);
    if a.CallUnlock? {
      assert s'.pcs[a.t].Notifying?;
    } else if a.NotifyAll? {
      assert false;
    } else if SomeoneNotifies(s) {
      var n :| 0 <= n < |s.pcs| && s.pcs[n].Notifying?;
      assert s'.pcs[n].Notifying?;
    } else if SleepsAtGate1(s, u) {
      assert !Abandoned(s, u);
    }
  }

  lemma {:induction false} RunAbandonsNobody(s: State, run: seq<Action>, end: State)
    requires Inv(s) && |s.pcs| <= N_READERS + 1 && NobodyAbandoned(s) && Leads(s, run, end)
    ensures NobodyAbandoned(end)
    decreases |run|
  {
    if run != [] {
      StepKeepsInv(s, run[0]);
      StepAbandonsNobody(s, run[0]);
      RunAbandonsNobody(Next(s, run[0]), run[1..], end);
    }
  }

  /** With at most `N_READERS + 1` threads, whoever sleeps has an awake thread ahead of it. */
  lemma SleepersHaveSomeoneAwake(threads: nat, s: State, t: nat)
    requires threads <= N_READERS + 1 && Reachable(threads, s)
    requires t < |s.pcs| && (AsleepAtGate1(s.pcs[t]) || s.pcs[t].AsleepDrain?)
    ensures exists u :: 0 <= u < |s.pcs| && !s.pcs[u].Idle? && Awake(s.pcs[u]) == s.pcs[u]
  {
    ReachableInv(threads, s);
    ReachableAbandonsNobody(threads, s);
    if Readers(s.word) > 0 {
      var u :| u in ReadersInside(s.pcs);
    } else if WriteEntered(s.word) {
      var u :| 0 <= u < |s.pcs| && OwnsEntry(s.pcs[u]);
    } else {
      assert !Abandoned(s, t) && SleepsAtGate1(s, t);
    }
  }

  // ---------- Every run can be completed ----------

  ghost predicate AllIdle(s: State) {
    forall t :: 0 <= t < |s.pcs| ==> s.pcs[t].Idle?
  }

  /** The threads' own steps: no new call and no spurious wake-up. */
  predicate IsOwnStep(a: Action) {
    a.PassLock? || a.PassDrain? || a.CallUnlock? || a.NotifyAll? || a.PassLockShared? || a.CallUnlockShared?
  }

  ghost predicate OwnSteps(run: seq<Action>) {
    forall k :: 0 <= k < |run| ==> IsOwnStep(run[k])
  }

  /** The threads' own steps lead to a state with all of them idle and the lock free. */
  ghost predicate CanBeCompleted(s: State) {
    exists run, end :: Leads(s, run, end) && OwnSteps(run) && AllIdle(end) && end.word == 0
  }

  /** Only a new call or a spurious wake-up can change anything. */
  ghost predicate IsHalted(s: State) {
    forall a :: Enabled(s, a) ==> !IsOwnStep(a)
  }

  /** Stages a thread still has to go through, waiting aside. */
  ghost function Rank(pc: Pc): int {
    match pc
    case Idle => 0
    case Notifying | Reading => 1
    case Writing => 2
    case WantDrain | AsleepDrain => 3
    case WantWrite | AsleepWrite | WantRead | AsleepRead => 5
  }

  ghost function Remaining(s: State): int {
    Total(s.pcs, Rank)
  }

  lemma RemainingIsNonNegative(s: State)
    ensures Remaining(s) >= 0
  {
    TotalIsNonNegative(s.pcs, Rank);
  }

  lemma MovesOn(s: State, word: Word, t: nat, pc: Pc)
    requires t < |s.pcs|
    ensures Remaining(At(s, word, t, pc)) == Remaining(s) - Rank(s.pcs[t]) + Rank(pc)
  {
    TotalOfUpdate(s.pcs, t, pc, Rank);
  }

  lemma {:induction false} SameRanks(a: seq<Pc>, b: seq<Pc>)
    requires |a| == |b| && forall k :: 0 <= k < |a| ==> Rank(a[k]) == Rank(b[k])
    ensures Total(a, Rank) == Total(b, Rank)
    decreases |a|
  {
    if a != [] {
      assert forall k :: 0 <= k < |a| - 1 ==> a[1..][k] == a[k + 1] && b[1..][k] == b[k + 1];
      assert Rank(a[0]) == Rank(b[0]);
      SameRanks(a[1..], b[1..]);
    }
  }

  /** A reader inside can leave, and whoever it wakes does not go back. */
  lemma ReaderCanLeave(s: State, t: nat) returns (a: Action)
    requires Inv(s) && t < |s.pcs| && s.pcs[t].Reading?
    ensures IsOwnStep(a) && Enabled(s, a) && Remaining(Next(s, a)) < Remaining(s)
  {
    var n := UnlockSharedSection(s.word).1;
    var woken := |s.pcs|;
    if n == OneAtGate1 && exists u :: 0 <= u < |s.pcs| && AsleepAtGate1(s.pcs[u]) {
      var u: nat :| u < |s.pcs| && AsleepAtGate1(s.pcs[u]);
      woken := u;
    } else if n == OneAtGate2 && exists u :: 0 <= u < |s.pcs| && s.pcs[u].AsleepDrain? {
      var u: nat :| u < |s.pcs| && s.pcs[u].AsleepDrain?;
      woken := u;
    }
    a := CallUnlockShared(t, woken);
    assert MayWake(s, n, woken);
    hide MayWake, Inv, Total;
    var after := At(s, UnlockSharedSection(s.word).0, t, Idle);
    MovesOn(s, after.word, t, Idle);
    if woken < |s.pcs| {
      MovesOn(after, after.word, woken, Awake(s.pcs[woken]));
    }
  }

  /** With no reader inside, whoever has set the top bit can go on, or else the notifier, or one who waits to enter. */
  lemma OthersCanMoveOn(s: State) returns (a: Action)
    requires Inv(s) && NobodyAbandoned(s) && !AllIdle(s) && ReadersInside(s.pcs) == {}
    ensures IsOwnStep(a) && Enabled(s, a) && Remaining(Next(s, a)) < Remaining(s)
  {
    hide Total;
    if WriteEntered(s.word) {
      var t: nat :| t < |s.pcs| && OwnsEntry(s.pcs[t]);
      a := if s.pcs[t].Writing? then CallUnlock(t) else PassDrain(t);
      MovesOn(s, Next(s, a).word, t, Next(s, a).pcs[t]);
    } else if SomeoneNotifies(s) {
      var t: nat :| t < |s.pcs| && s.pcs[t].Notifying?;
      a := NotifyAll(t);
      SameRanks(WakeGate1(s.pcs), s.pcs);
      MovesOn(State(s.word, WakeGate1(s.pcs)), s.word, t, Idle);
    } else {
      var t: nat :| t < |s.pcs| && !s.pcs[t].Idle?;
      assert t !in ReadersInside(s.pcs) && !OwnsEntry(s.pcs[t]) && !Abandoned(s, t);
      a := if s.pcs[t].WantWrite? then PassLock(t) else PassLockShared(t);
      WordIsPacked(s.word);
      MovesOn(s, Next(s, a).word, t, Next(s, a).pcs[t]);
    }
  }

  /** While not all threads are idle, some action brings the whole closer to it. */
  lemma SomeoneCanMoveOn(s: State) returns (a: Action)
    requires Inv(s) && NobodyAbandoned(s) && !AllIdle(s)
    ensures IsOwnStep(a) && Enabled(s, a) && Remaining(Next(s, a)) < Remaining(s)
  {
    hide Inv, NobodyAbandoned, Next, Enabled, Remaining;
    if t: nat :| t in ReadersInside(s.pcs) {
      a := ReaderCanLeave(s, t);
    } else {
      a := OthersCanMoveOn(s);
    }
  }

  lemma {:induction false} CanComplete(s: State) returns (run: seq<Action>, end: State)
    requires Inv(s) && |s.pcs| <= N_READERS + 1 && NobodyAbandoned(s)
    ensures Leads(s, run, end) && OwnSteps(run) && AllIdle(end)
    decreases Remaining(s)
  {
    hide Inv, NobodyAbandoned, Enabled, AllIdle, Remaining, IsOwnStep;
    if AllIdle(s) {
      run, end := [], s;
    } else {
      var a := SomeoneCanMoveOn(s);
      StepKeepsInv(s, a);
      StepAbandonsNobody(s, a);
      RemainingIsNonNegative(Next(s, a));
      var rest;
      rest, end := CanComplete(Next(s, a));
      run := [a] + rest;
      assert run[1..] == rest;
    }
  }

  lemma IdleIsFree(s: State)
    requires Inv(s) && AllIdle(s)
    ensures s.word == 0
  {
    WordIsPacked(s.word);
    assert ReadersInside(s.pcs) == {};
  }

  /**
   * With at most `N_READERS + 1` threads every run can be continued, by the
   * threads' own steps, until all of them are idle and the lock is free.
   */
  lemma NoRunGetsStuck(threads: nat, s: State) returns (run: seq<Action>, end: State)
    requires threads <= N_READERS + 1 && Reachable(threads, s)
    ensures Leads(s, run, end) && OwnSteps(run) && AllIdle(end) && end.word == 0
  {
    ReachableInv(threads, s);
    ReachableAbandonsNobody(threads, s);
    run, end := CanComplete(s);
    RunKeepsInv(s, run, end);
    IdleIsFree(end);
  }

  // ---------- Own steps come to an end ----------

  /** 1 for a thread that is about to take `mut_` and may yet be put to sleep. */
  ghost function Wanting(pc: Pc): int {
    if pc.WantWrite? || pc.WantDrain? || pc.WantRead? then 1 else 0
  }

  /** More than the own steps that are left: going to sleep lowers only the second part. */
  ghost function StepsLeft(s: State): int {
    Remaining(s) * (|s.pcs| + 1) + Total(s.pcs, Wanting)
  }

  lemma {:induction false} WantingFits(pcs: seq<Pc>)
    ensures 0 <= Total(pcs, Wanting) <= |pcs|
  {
    if pcs != [] {
      WantingFits(pcs[1..]);
    }
  }

  /** One thread moves on or goes to sleep. */
  lemma MoveUsesUp(s: State, word: Word, t: nat, pc: Pc)
    requires t < |s.pcs|
    ensures Rank(pc) < Rank(s.pcs[t]) ==> Remaining(At(s, word, t, pc)) < Remaining(s)
    ensures Rank(pc) == Rank(s.pcs[t]) && Wanting(pc) < Wanting(s.pcs[t]) ==>
      Remaining(At(s, word, t, pc)) == Remaining(s)
      && Total(At(s, word, t, pc).pcs, Wanting) < Total(s.pcs, Wanting)
  {
    hide Total;
    MovesOn(s, word, t, pc);
    TotalOfUpdate(s.pcs, t, pc, Wanting);
  }

  /** Every own step uses up some of what is left, whatever the state. */
  lemma OwnStepUsesUp(s: State, a: Action)
    requires IsOwnStep(a) && Enabled(s, a)
    ensures |Next(s, a).pcs| == |s.pcs|
    ensures Remaining(Next(s, a)) < Remaining(s)
      || (Remaining(Next(s, a)) == Remaining(s) && Total(Next(s, a).pcs, Wanting) < Total(s.pcs, Wanting))
  {
    hide Total, Remaining, MayWake;
    if a.NotifyAll? {
      hide Total;
      NotifyAllUsesUp(s, a.t);
    } else if a.CallUnlockShared? {
      UnlockSharedUsesUp(s, a.t, a.woken);
    } else {
      MoveUsesUp(s, Next(s, a).word, a.t, Next(s, a).pcs[a.t]);
    }
  }

  lemma NotifyAllUsesUp(s: State, t: nat)
    requires Enabled(s, NotifyAll(t))
    ensures Remaining(Next(s, NotifyAll(t))) < Remaining(s)
  {
    hide Total;
    SameRanks(WakeGate1(s.pcs), s.pcs);
    MovesOn(State(s.word, WakeGate1(s.pcs)), s.word, t, Idle);
  }

  lemma UnlockSharedUsesUp(s: State, t: nat, woken: nat)
    requires Enabled(s, CallUnlockShared(t, woken))
    ensures Remaining(Next(s, CallUnlockShared(t, woken))) < Remaining(s)
  {
    hide Total, Remaining;
    var after := At(s, UnlockSharedSection(s.word).0, t, Idle);
    MovesOn(s, after.word, t, Idle);
    if woken < |s.pcs| {
      MovesOn(after, after.word, woken, Awake(s.pcs[woken]));
    }
  }

  /** From any state the threads' own steps end, in whatever order they are taken. */
  lemma {:induction false} OwnStepsAreBounded(s: State, run: seq<Action>, end: State)
    requires Leads(s, run, end) && OwnSteps(run)
    ensures |run| <= StepsLeft(s)
    decreases |run|
  {
    hide Enabled, Next, IsOwnStep, Total, Remaining;
    RemainingIsNonNegative(s);
    WantingFits(s.pcs);
    if run != [] {
      var t := Next(s, run[0]);
      OwnStepUsesUp(s, run[0]);
      WantingFits(t.pcs);
      RemainingIsNonNegative(t);
      ProductDecreases(Remaining(s), Remaining(t), |s.pcs| + 1, Total(s.pcs, Wanting), Total(t.pcs, Wanting));
      OwnStepsAreBounded(t, run[1..], end);
    } else {
      assert Remaining(s) * (|s.pcs| + 1) >= 0;
    }
  }

  // ---------- Too many threads ----------

  lemma {:induction false} LeadsOn(s: State, run: seq<Action>, mid: State, more: seq<Action>, end: State)
    requires Leads(s, run, mid) && Leads(mid, more, end)
    ensures Leads(s, run + more, end)
    decreases |run|
  {
    if run == [] {
      assert run + more == more;
    } else {
      LeadsOn(Next(s, run[0]), run[1..], mid, more, end);
      assert (run + more)[1..] == run[1..] + more;
    }
  }

  lemma ReachOneMore(threads: nat, s: State, a: Action)
    requires Reachable(threads, s) && Enabled(s, a)
    ensures Reachable(threads, Next(s, a))
  {
    var run :| Leads(Initial(threads), run, s);
    assert Leads(Next(s, a), [], Next(s, a));
    assert [a][1..] == [];
    LeadsOn(Initial(threads), run, s, [a], Next(s, a));
  }

  /** `readers` threads are inside and the others idle. */
  ghost predicate HoldsReaders(s: State, threads: nat, readers: nat) {
    && s.word == readers && |s.pcs| == threads
    && forall t :: 0 <= t < threads ==> s.pcs[t] == if t < readers then Reading else Idle
  }

  lemma InitialIsReachable(threads: nat)
    ensures Reachable(threads, Initial(threads))
  {
    assert Leads(Initial(threads), [], Initial(threads));
  }

  lemma {:induction false} ReadersEnter(threads: nat, readers: nat) returns (s: State)
    requires readers <= N_READERS && readers <= threads
    ensures Reachable(threads, s) && HoldsReaders(s, threads, readers)
  {
    hide Leads, Reachable;
    if readers == 0 {
      s := Initial(threads);
      InitialIsReachable(threads);
    } else {
      var t := readers - 1;
      s := ReadersEnter(threads, t);
      ReachOneMore(threads, s, CallLockShared(t));
      s := Next(s, CallLockShared(t));
      ReachOneMore(threads, s, PassLockShared(t));
      s := Next(s, PassLockShared(t));
    }
  }

  lemma ReaderFallsAsleep(threads: nat, s0: State, t: nat) returns (s: State)
    requires Reachable(threads, s0) && t < |s0.pcs| && s0.pcs[t].Idle? && s0.word == N_READERS
    ensures Reachable(threads, s) && s == At(s0, N_READERS, t, AsleepRead)
  {
    ReachOneMore(threads, s0, CallLockShared(t));
    s := Next(s0, CallLockShared(t));
    ReachOneMore(threads, s, PassLockShared(t));
    s := Next(s, PassLockShared(t));
    assert s0.pcs[t := WantRead][t := AsleepRead] == s0.pcs[t := AsleepRead];
  }

  /** Two readers fell asleep behind a full house and two others left: only the first departure notified. */
  ghost predicate AfterTwoLeft(s: State, threads: nat) {
    && |s.pcs| == threads >= N_READERS + 2 && s.word == N_READERS - 2
    && forall t :: 0 <= t < threads ==>
         s.pcs[t] ==
           if 2 <= t < N_READERS then Reading
           else if t == N_READERS then WantRead
           else if t == N_READERS + 1 then AsleepRead
           else Idle
  }

  lemma TwoLeaveFullHouse(threads: nat) returns (s: State)
    requires threads >= N_READERS + 2
    ensures Reachable(threads, s) && AfterTwoLeft(s, threads)
  {
    var s0 := ReadersEnter(threads, N_READERS);
    var s1 := ReaderFallsAsleep(threads, s0, N_READERS);
    var s2 := ReaderFallsAsleep(threads, s1, N_READERS + 1);
    var first := CallUnlockShared(0, N_READERS);
    ReachOneMore(threads, s2, first);
    var s3 := Next(s2, first);
    var second := CallUnlockShared(1, threads);
    ReachOneMore(threads, s3, second);
    s := Next(s3, second);
  }

  /** The lock loses no wake-up in any run exactly when it has at most `N_READERS + 1` threads. */
  lemma NoWakeupLostIff(threads: nat)
    ensures threads <= N_READERS + 1 <==> forall s :: Reachable(threads, s) ==> NobodyAbandoned(s)
  {
    if threads <= N_READERS + 1 {
      forall s | Reachable(threads, s)
        ensures NobodyAbandoned(s)
      {
        ReachableAbandonsNobody(threads, s);
      }
    } else {
      var s := TwoLeaveFullHouse(threads);
      assert Abandoned(s, N_READERS + 1);
    }
  }

  /** The lock is free, everyone else is idle, and `sleeper` is still asleep. */
  ghost predicate StuckFor(s: State, sleeper: nat) {
    && s.word == 0 && SleepsAtGate1(s, sleeper)
    && forall t :: 0 <= t < |s.pcs| && t != sleeper ==> s.pcs[t].Idle?
  }

  lemma {:induction false} ReadersLeave(threads: nat, s: State, sleeper: nat) returns (end: State)
    requires Reachable(threads, s) && Inv(s)
    requires !WriteEntered(s.word) && Readers(s.word) < N_READERS && SleepsAtGate1(s, sleeper)
    requires forall t :: 0 <= t < |s.pcs| && t != sleeper ==> s.pcs[t].Idle? || s.pcs[t].Reading?
    ensures Reachable(threads, end) && StuckFor(end, sleeper)
    decreases Readers(s.word)
  {
    WordIsPacked(s.word);
    if Readers(s.word) == 0 {
      forall t | 0 <= t < |s.pcs|
        ensures !s.pcs[t].Reading?
      {
        assert t !in ReadersInside(s.pcs);
      }
      end := s;
    } else {
      var t :| t in ReadersInside(s.pcs);
      var a := CallUnlockShared(t, |s.pcs|);
      StepKeepsInv(s, a);
      ReachOneMore(threads, s, a);
      end := ReadersLeave(threads, Next(s, a), sleeper);
    }
  }

  lemma StuckIsHalted(s: State, sleeper: nat)
    requires StuckFor(s, sleeper)
    ensures IsHalted(s) && !AllIdle(s)
  {
  }

  lemma HaltedStays(s: State, run: seq<Action>, end: State)
    requires IsHalted(s) && Leads(s, run, end) && OwnSteps(run)
    ensures end == s
  {
    if run != [] {
      assert false;
    }
  }

  /**
   * With more threads a run can end with the lock free, one reader asleep and
   * all others idle: until someone calls again, nothing but a spurious wake-up
   * helps it.
   */
  lemma TooManyThreadsCanGetStuck(threads: nat) returns (s: State)
    requires threads >= N_READERS + 2
    ensures Reachable(threads, s) && StuckFor(s, N_READERS + 1)
    ensures IsHalted(s) && !CanBeCompleted(s)
  {
    var s0 := TwoLeaveFullHouse(threads);
    ReachOneMore(threads, s0, PassLockShared(N_READERS));
    var s1 := Next(s0, PassLockShared(N_READERS));
    assert s1.pcs == s0.pcs[N_READERS := Reading];
    ReachableInv(threads, s1);
    hide Inv, Leads, Reachable;
    s := ReadersLeave(threads, s1, N_READERS + 1);
    StuckIsHalted(s, N_READERS + 1);
    if CanBeCompleted(s) {
      var run, end :| Leads(s, run, end) && OwnSteps(run) && AllIdle(end) && end.word == 0;
      HaltedStays(s, run, end);
    }
  }

  /**
   * Exactly with at most `N_READERS + 1` threads every reachable state can be
   * completed by the threads' own steps, and exactly then these come to an end
   * only with all threads idle.
   */
  lemma CompletionIff(threads: nat)
    ensures threads <= N_READERS + 1 <==> forall s :: Reachable(threads, s) ==> CanBeCompleted(s)
    ensures threads <= N_READERS + 1 <==> forall s :: Reachable(threads, s) && IsHalted(s) ==> AllIdle(s)
  {
    hide Reachable, IsHalted, Leads, AllIdle, StuckFor, Inv, OwnSteps;
    if threads <= N_READERS + 1 {
      forall s | Reachable(threads, s)
        ensures CanBeCompleted(s) && (IsHalted(s) ==> AllIdle(s))
      {
        var run, end := NoRunGetsStuck(threads, s);
        if IsHalted(s) {
          HaltedStays(s, run, end);
        }
      }
    } else {
      var s := TooManyThreadsCanGetStuck(threads);
      StuckIsHalted(s, N_READERS + 1);
    }
  }
}
