/**
 * The two-flag shared-memory channel between a sorter and its parent: one
 * writer and one reader, stepping one memory access at a time.
 */
module SharedChannel {

  type byte = b: int | 0 <= b < 256

  const MEM_SIZE: nat := 65536
  const IS_READABLE: nat := 0
  const IS_WRITABLE: nat := 1
  const MEM_META_SIZE: nat := 2
  const CAPACITY: nat := MEM_SIZE - MEM_META_SIZE

  /** Spinning on a flag, `memcpy` with `k` bytes done, the two flag stores, or no message left. */
  datatype Pc = Spin | Copy(k: nat) | Clear | Signal | Done

  /** One side's place: message `i`, with `off` bytes of it handed over in earlier chunks. */
  datatype Side = Side(i: nat, off: nat, pc: Pc)

  datatype State = State(mem: seq<byte>, w: Side, r: Side, received: seq<seq<byte>>, partial: seq<byte>)

  function Initial(mem: seq<byte>, messages: seq<seq<byte>>): State
    requires |mem| == MEM_SIZE
  {
    var side := Side(0, 0, if messages == [] then Done else Spin);
    State(mem[IS_READABLE := 0][IS_WRITABLE := 1], side, side, [], [])
  }

  /** `to_copy` at this place. */
  function ChunkSize(messages: seq<seq<byte>>, side: Side): nat
    requires side.i < |messages| && side.off <= |messages[side.i]|
  {
    var size := |messages[side.i]| - side.off;
    if CAPACITY > size then size else CAPACITY
  }

  /** The place after the chunk at this one. */
  function Advanced(messages: seq<seq<byte>>, side: Side): Side
    requires side.i < |messages| && side.off <= |messages[side.i]|
  {
    var off := side.off + ChunkSize(messages, side);
    if off < |messages[side.i]| then Side(side.i, off, Spin)
    else Side(side.i + 1, 0, if side.i + 1 == |messages| then Done else Spin)
  }

  predicate IsPlace(messages: seq<seq<byte>>, side: Side) {
    if side.pc.Done? then side.i == |messages| && side.off == 0
    else
      && side.i < |messages|
      && (side.off < |messages[side.i]| || side.off == 0 == |messages[side.i]|)
      && (side.pc.Copy? ==> side.pc.k <= ChunkSize(messages, side))
  }

  predicate WellFormed(messages: seq<seq<byte>>, s: State) {
    |s.mem| == MEM_SIZE && IsPlace(messages, s.w) && IsPlace(messages, s.r)
  }

  /** One access of `write_to_shared_mem`, called for each message in turn. */
  function WriterNext(messages: seq<seq<byte>>, s: State): State
    requires WellFormed(messages, s)
  {
    match s.w.pc
    case Spin => if s.mem[IS_WRITABLE] != 0 then s.(w := s.w.(pc := Copy(0))) else s
    case Copy(k) =>
      if k < ChunkSize(messages, s.w)
      then s.(mem := s.mem[MEM_META_SIZE + k := messages[s.w.i][s.w.off + k]], w := s.w.(pc := Copy(k + 1)))
      else s.(w := s.w.(pc := Clear))
    case Clear => s.(mem := s.mem[IS_WRITABLE := 0], w := s.w.(pc := Signal))
    case Signal => s.(mem := s.mem[IS_READABLE := 1], w := Advanced(messages, s.w))
    case Done => s
  }

  /** One access of `read_from_shared_mem`; the reader knows the sizes but not the bytes. */
  function ReaderNext(messages: seq<seq<byte>>, s: State): State
    requires WellFormed(messages, s)
  {
    match s.r.pc
    case Spin => if s.mem[IS_READABLE] != 0 then s.(r := s.r.(pc := Copy(0))) else s
    case Copy(k) =>
      if k < ChunkSize(messages, s.r)
      then s.(partial := s.partial + [s.mem[MEM_META_SIZE + k]], r := s.r.(pc := Copy(k + 1)))
      else s.(r := s.r.(pc := Clear))
    case Clear => s.(mem := s.mem[IS_READABLE := 0], r := s.r.(pc := Signal))
    case Signal =>
      var next := Advanced(messages, s.r);
      var t := s.(mem := s.mem[IS_WRITABLE := 1], r := next);
      if next.i == s.r.i then t else t.(received := s.received + [s.partial], partial := [])
    case Done => s
  }

  // ---------- The processes over the mapped memory ----------

  class Link {
    const mem: array<byte>
    const messages: seq<seq<byte>>
    var w: Side
    var r: Side
    var received: seq<seq<byte>>
    var partial: seq<byte>

    ghost function View(): State
      reads this, mem
    {
      State(mem[..], w, r, received, partial)
    }

    constructor (mem: array<byte>, messages: seq<seq<byte>>)
      requires mem.Length == MEM_SIZE
      modifies mem
      ensures this.mem == mem && this.messages == messages
      ensures View() == Initial(old(mem[..]), messages)
    {
      this.mem, this.messages := mem, messages;
      w := Side(0, 0, if messages == [] then Done else Spin);
      r := Side(0, 0, if messages == [] then Done else Spin);
      received, partial := [], [];
      new;
      mem[IS_READABLE] := 0;
      mem[IS_WRITABLE] := 1;
    }

    method WriterStep()
      requires WellFormed(messages, View())
      modifies this`w, mem
      ensures View() == WriterNext(messages, old(View()))
    {
      match w.pc
      case Spin =>
        if mem[IS_WRITABLE] != 0 {
          w := w.(pc := Copy(0));
        }
      case Copy(k) =>
        if k < ChunkSize(messages, w) {
          mem[MEM_META_SIZE + k] := messages[w.i][w.off + k];
          w := w.(pc := Copy(k + 1));
        } else {
          w := w.(pc := Clear);
        }
      case Clear => mem[IS_WRITABLE] := 0; w := w.(pc := Signal);
      case Signal => mem[IS_READABLE] := 1; w := Advanced(messages, w);
      case Done =>
    }

    method ReaderStep()
      requires WellFormed(messages, View())
      modifies this`r, this`received, this`partial, mem
      ensures View() == ReaderNext(messages, old(View()))
    {
      match r.pc
      case Spin =>
        if mem[IS_READABLE] != 0 {
          r := r.(pc := Copy(0));
        }
      case Copy(k) =>
        if k < ChunkSize(messages, r) {
          partial := partial + [mem[MEM_META_SIZE + k]];
          r := r.(pc := Copy(k + 1));
        } else {
          r := r.(pc := Clear);
        }
      case Clear => mem[IS_READABLE] := 0; r := r.(pc := Signal);
      case Signal =>
        mem[IS_WRITABLE] := 1;
        var next := Advanced(messages, r);
        if next.i != r.i {
          received, partial := received + [partial], [];
        }
        r := next;
      case Done =>
    }
  }

  // ---------- Who owns the buffer ----------

  datatype Turn = WriterWrites | WriterSignals | ReaderReads | ReaderSignals

  ghost function TurnOf(s: State): Turn
    requires |s.mem| == MEM_SIZE
  {
    if s.w.pc.Signal? then WriterSignals
    else if s.r.pc.Signal? then ReaderSignals
    else if s.mem[IS_READABLE] != 0 then ReaderReads
    else WriterWrites
  }

  ghost predicate SamePlace(a: Side, b: Side) {
    a.i == b.i && a.off == b.off
  }

  /** The first `n` bytes of the buffer are the chunk at this place. */
  ghost predicate Buffered(messages: seq<seq<byte>>, s: State, side: Side, n: nat)
    requires |s.mem| == MEM_SIZE && IsPlace(messages, side) && !side.pc.Done?
  {
    n <= ChunkSize(messages, side) &&
    s.mem[MEM_META_SIZE..MEM_META_SIZE + n] == messages[side.i][side.off..side.off + n]
  }

  /** Bytes of the current message the reader already has. */
  ghost function Got(s: State, messages: seq<seq<byte>>): int
    requires WellFormed(messages, s)
  {
    match s.r.pc
    case Copy(k) => s.r.off + k
    case Clear | Signal => s.r.off + ChunkSize(messages, s.r)
    case _ => s.r.off
  }

  ghost predicate Inv(messages: seq<seq<byte>>, s: State) {
    && WellFormed(messages, s)
    && s.received == messages[..s.r.i]
    && s.partial == (if s.r.pc.Done? then [] else messages[s.r.i][..Got(s, messages)])
    && match TurnOf(s)
       case WriterWrites =>
         && s.mem[IS_WRITABLE] != 0 && s.mem[IS_READABLE] == 0 && SamePlace(s.w, s.r)
         && (s.r.pc.Spin? || s.r.pc.Done?)
         && (s.w.pc.Copy? ==> Buffered(messages, s, s.w, s.w.pc.k))
         && (s.w.pc.Clear? ==> Buffered(messages, s, s.w, ChunkSize(messages, s.w)))
       case WriterSignals =>
         && s.mem[IS_WRITABLE] == 0 && s.mem[IS_READABLE] == 0 && SamePlace(s.w, s.r) && s.r.pc.Spin?
         && Buffered(messages, s, s.w, ChunkSize(messages, s.w))
       case ReaderReads =>
         && s.mem[IS_WRITABLE] == 0 && !s.r.pc.Done? && s.w == Advanced(messages, s.r)
         && Buffered(messages, s, s.r, ChunkSize(messages, s.r))
       case ReaderSignals =>
         && s.mem[IS_WRITABLE] == 0 && s.mem[IS_READABLE] == 0 && s.w == Advanced(messages, s.r)
  }

  datatype Actor = Writer | Reader

  function Next(messages: seq<seq<byte>>, s: State, who: Actor): State
    requires WellFormed(messages, s)
  {
    if who.Writer? then WriterNext(messages, s) else ReaderNext(messages, s)
  }

  lemma InitialInv(mem: seq<byte>, messages: seq<seq<byte>>)
    requires |mem| == MEM_SIZE
    ensures Inv(messages, Initial(mem, messages))
  {
  }

  lemma WriterCopyKeepsInv(messages: seq<seq<byte>>, s: State)
    requires Inv(messages, s) && s.w.pc.Copy? && s.w.pc.k < ChunkSize(messages, s.w)
    ensures Inv(messages, WriterNext(messages, s))
  {
    var k, message, s' := s.w.pc.k, messages[s.w.i], WriterNext(messages, s);
    assert TurnOf(s) == TurnOf(s') == WriterWrites;
    assert s'.mem[MEM_META_SIZE..MEM_META_SIZE + k + 1] ==
        s.mem[MEM_META_SIZE..MEM_META_SIZE + k] + [message[s.w.off + k]];
    assert message[s.w.off..s.w.off + k + 1] == message[s.w.off..s.w.off + k] + [message[s.w.off + k]];
  }

  lemma WriterCopiedKeepsInv(messages: seq<seq<byte>>, s: State)
    requires Inv(messages, s) && s.w.pc.Copy? && s.w.pc.k == ChunkSize(messages, s.w)
    ensures Inv(messages, WriterNext(messages, s))
  {
  }

  /** What the two sides know at the same place. */
  lemma SamePlaceSameChunk(messages: seq<seq<byte>>, a: Side, b: Side)
    requires a.i < |messages| && a.off <= |messages[a.i]| && SamePlace(a, b)
    ensures ChunkSize(messages, a) == ChunkSize(messages, b) <= CAPACITY
    ensures Advanced(messages, a) == Advanced(messages, b)
  {
  }

  lemma AdvancedIsPlace(messages: seq<seq<byte>>, side: Side)
    requires IsPlace(messages, side) && !side.pc.Done?
    ensures IsPlace(messages, Advanced(messages, side))
    ensures Advanced(messages, side).pc.Spin? || Advanced(messages, side).pc.Done?
  {
  }

  lemma WriterHasTurn(messages: seq<seq<byte>>, s: State)
    requires Inv(messages, s) && s.w.pc.Clear?
    ensures TurnOf(s) == WriterWrites
  {
  }

  lemma WriterClearKeepsInv(messages: seq<seq<byte>>, s: State)
    requires Inv(messages, s) && s.w.pc.Clear?
    ensures Inv(messages, WriterNext(messages, s))
  {
    hide ChunkSize, Advanced;
    WriterHasTurn(messages, s);
    var s', n := WriterNext(messages, s), ChunkSize(messages, s.w);
    SamePlaceSameChunk(messages, s.w, s'.w);
    assert s'.mem[MEM_META_SIZE..MEM_META_SIZE + n] == s.mem[MEM_META_SIZE..MEM_META_SIZE + n];
  }

  lemma WriterSignalKeepsInv(messages: seq<seq<byte>>, s: State)
    requires Inv(messages, s) && s.w.pc.Signal?
    ensures Inv(messages, WriterNext(messages, s))
  {
    hide ChunkSize, Advanced;
    SamePlaceSameChunk(messages, s.w, s.r);
    AdvancedIsPlace(messages, s.w);
    var s', n := WriterNext(messages, s), ChunkSize(messages, s.w);
    assert s'.mem[MEM_META_SIZE..MEM_META_SIZE + n] == s.mem[MEM_META_SIZE..MEM_META_SIZE + n];
  }

  lemma WriterKeepsInv(messages: seq<seq<byte>>, s: State)
    requires Inv(messages, s)
    ensures Inv(messages, WriterNext(messages, s))
  {
    if s.w.pc.Copy? && s.w.pc.k < ChunkSize(messages, s.w) {
      WriterCopyKeepsInv(messages, s);
    } else if s.w.pc.Copy? {
      WriterCopiedKeepsInv(messages, s);
    } else if s.w.pc.Clear? {
      WriterClearKeepsInv(messages, s);
    } else if s.w.pc.Signal? {
      WriterSignalKeepsInv(messages, s);
    }
  }

  /** One more byte of the chunk, taken from the buffer. */
  lemma ReaderTakesNextByte(messages: seq<seq<byte>>, s: State)
    requires Inv(messages, s) && s.r.pc.Copy? && s.r.pc.k < ChunkSize(messages, s.r)
    ensures ReaderNext(messages, s).partial == messages[s.r.i][..s.r.off + s.r.pc.k + 1]
  {
    var k, n, message := s.r.pc.k, ChunkSize(messages, s.r), messages[s.r.i];
    assert s.mem[MEM_META_SIZE..MEM_META_SIZE + n][k] == message[s.r.off..s.r.off + n][k];
    assert message[..s.r.off + k + 1] == message[..s.r.off + k] + [message[s.r.off + k]];
  }

  lemma ReaderCopyKeepsInv(messages: seq<seq<byte>>, s: State)
    requires Inv(messages, s) && s.r.pc.Copy?
    ensures Inv(messages, ReaderNext(messages, s))
  {
    SamePlaceSameChunk(messages, s.r, ReaderNext(messages, s).r);
    if s.r.pc.k < ChunkSize(messages, s.r) {
      ReaderTakesNextByte(messages, s);
    }
    hide ChunkSize, Advanced, Buffered;
  }

  lemma ReaderSignalKeepsInv(messages: seq<seq<byte>>, s: State)
    requires Inv(messages, s) && s.r.pc.Signal?
    ensures Inv(messages, ReaderNext(messages, s))
  {
    var message := messages[s.r.i];
    if Advanced(messages, s.r).i != s.r.i {
      assert message[..|message|] == message;
      assert messages[..s.r.i + 1] == messages[..s.r.i] + [message];
    }
  }

  lemma ReaderKeepsInv(messages: seq<seq<byte>>, s: State)
    requires Inv(messages, s)
    ensures Inv(messages, ReaderNext(messages, s))
  {
    if s.r.pc.Copy? {
      ReaderCopyKeepsInv(messages, s);
    } else if s.r.pc.Signal? {
      ReaderSignalKeepsInv(messages, s);
    }
  }

  lemma NextIsWellFormed(messages: seq<seq<byte>>, s: State, who: Actor)
    requires WellFormed(messages, s)
    ensures WellFormed(messages, Next(messages, s, who))
  {
  }

  ghost function After(messages: seq<seq<byte>>, s: State, run: seq<Actor>): (end: State)
    requires WellFormed(messages, s)
    ensures WellFormed(messages, end)
    decreases |run|
  {
    if run == [] then s
    else
      NextIsWellFormed(messages, s, run[0]);
      After(messages, Next(messages, s, run[0]), run[1..])
  }

  lemma {:induction false} AfterKeepsInv(messages: seq<seq<byte>>, s: State, run: seq<Actor>)
    requires Inv(messages, s)
    ensures Inv(messages, After(messages, s, run))
    decreases |run|
  {
    if run != [] {
      WriterKeepsInv(messages, s);
      ReaderKeepsInv(messages, s);
      AfterKeepsInv(messages, Next(messages, s, run[0]), run[1..]);
    }
  }

  /** In every interleaving the reader has a prefix of what is sent, and at most one side is in the buffer. */
  lemma ReceivesInOrderAlone(mem: seq<byte>, messages: seq<seq<byte>>, run: seq<Actor>)
    requires |mem| == MEM_SIZE
    ensures WellFormed(messages, Initial(mem, messages))
    ensures var s := After(messages, Initial(mem, messages), run);
            && s.received <= messages
            && (s.r.pc.Done? ==> s.received == messages)
            && (!s.r.pc.Done? ==> |s.received| < |messages| && s.partial <= messages[|s.received|])
            && !(s.w.pc.Copy? && s.r.pc.Copy?)
  {
    InitialInv(mem, messages);
    AfterKeepsInv(messages, Initial(mem, messages), run);
    assert messages[..|messages|] == messages;
  }

  /** Chunks begin at multiples of the buffer's capacity: each but the last of a message fills it. */
  ghost predicate AtChunk(side: Side) {
    side.off % 65534 == 0
  }

  lemma {:induction false} AfterKeepsChunks(messages: seq<seq<byte>>, s: State, run: seq<Actor>)
    requires WellFormed(messages, s) && AtChunk(s.w) && AtChunk(s.r)
    ensures AtChunk(After(messages, s, run).w) && AtChunk(After(messages, s, run).r)
    decreases |run|
  {
    if run != [] {
      NextIsWellFormed(messages, s, run[0]);
      AdvancedAtChunk(messages, s.w);
      AdvancedAtChunk(messages, s.r);
      AfterKeepsChunks(messages, Next(messages, s, run[0]), run[1..]);
    }
  }

  lemma AdvancedAtChunk(messages: seq<seq<byte>>, side: Side)
    requires IsPlace(messages, side) && AtChunk(side)
    ensures side.pc.Signal? ==> AtChunk(Advanced(messages, side))
  {
  }

  /** In every run both sides hand over whole buffers, but for the end of a message. */
  lemma ChunksAreFull(mem: seq<byte>, messages: seq<seq<byte>>, run: seq<Actor>)
    requires |mem| == MEM_SIZE
    ensures WellFormed(messages, Initial(mem, messages))
    ensures var s := After(messages, Initial(mem, messages), run);
            AtChunk(s.w) && AtChunk(s.r)
  {
    AfterKeepsChunks(messages, Initial(mem, messages), run);
  }

  // ---------- Termination ----------

  ghost function BytesFrom(messages: seq<seq<byte>>, i: nat): nat
    requires i <= |messages|
    decreases |messages| - i
  {
    if i == |messages| then 0 else |messages[i]| + BytesFrom(messages, i + 1)
  }

  ghost function Rank(messages: seq<seq<byte>>, side: Side): nat
    requires IsPlace(messages, side)
  {
    match side.pc
    case Spin | Done => 0
    case Copy(k) => 1 + k
    case Clear => 2 + ChunkSize(messages, side)
    case Signal => 3 + ChunkSize(messages, side)
  }

  /** Accesses a side may still make, not counting looks at a flag that is not yet set. */
  ghost function SideWork(messages: seq<seq<byte>>, side: Side): int
    requires IsPlace(messages, side)
  {
    6 * (BytesFrom(messages, side.i) - side.off) + 6 * (|messages| - side.i) - Rank(messages, side)
  }

  lemma SideWorkNonNegative(messages: seq<seq<byte>>, side: Side)
    requires IsPlace(messages, side)
    ensures SideWork(messages, side) >= 0
  {
  }

  ghost function Work(messages: seq<seq<byte>>, s: State): int
    requires WellFormed(messages, s)
  {
    SideWork(messages, s.w) + SideWork(messages, s.r)
  }

  lemma SideUsesWork(messages: seq<seq<byte>>, side: Side)
    requires IsPlace(messages, side) && !side.pc.Done?
    ensures side.pc.Spin? ==> SideWork(messages, side.(pc := Copy(0))) < SideWork(messages, side)
    ensures side.pc.Copy? && side.pc.k < ChunkSize(messages, side) ==>
      SideWork(messages, side.(pc := Copy(side.pc.k + 1))) < SideWork(messages, side)
    ensures side.pc.Copy? ==> SideWork(messages, side.(pc := Clear)) < SideWork(messages, side)
    ensures side.pc.Clear? ==> SideWork(messages, side.(pc := Signal)) < SideWork(messages, side)
    ensures side.pc.Signal? ==> SideWork(messages, Advanced(messages, side)) < SideWork(messages, side)
  {
  }

  /** Every access but a vain look at a flag uses up work. */
  lemma StepUsesWork(messages: seq<seq<byte>>, s: State, who: Actor)
    requires WellFormed(messages, s)
    ensures WellFormed(messages, Next(messages, s, who))
    ensures Next(messages, s, who) == s || 0 <= Work(messages, Next(messages, s, who)) < Work(messages, s)
  {
    hide SideWork;
    NextIsWellFormed(messages, s, who);
    SideWorkNonNegative(messages, Next(messages, s, who).w);
    SideWorkNonNegative(messages, Next(messages, s, who).r);
    var side := if who.Writer? then s.w else s.r;
    if !side.pc.Done? {
      SideUsesWork(messages, side);
    }
  }

  /** Until both sides are done, one of them can move: no interleaving deadlocks. */
  lemma SomeoneCanMove(messages: seq<seq<byte>>, s: State)
    requires Inv(messages, s)
    ensures (s.w.pc.Done? && s.r.pc.Done?) || Next(messages, s, Writer) != s || Next(messages, s, Reader) != s
  {
  }

  /** Some continuation of every run delivers everything. */
  lemma {:induction false} CanFinish(messages: seq<seq<byte>>, s: State) returns (run: seq<Actor>)
    requires Inv(messages, s)
    ensures After(messages, s, run).received == messages && After(messages, s, run).w.pc.Done?
    decreases Work(messages, s)
  {
    if s.w.pc.Done? && s.r.pc.Done? {
      run := [];
      assert messages[..|messages|] == messages;
    } else {
      SomeoneCanMove(messages, s);
      var who := if Next(messages, s, Writer) != s then Writer else Reader;
      StepUsesWork(messages, s, who);
      WriterKeepsInv(messages, s);
      ReaderKeepsInv(messages, s);
      var rest := CanFinish(messages, Next(messages, s, who));
      run := [who] + rest;
      assert run[1..] == rest;
    }
  }

  /** Steps of a run that are not vain looks at a flag. */
  ghost function Moves(messages: seq<seq<byte>>, s: State, run: seq<Actor>): nat
    requires WellFormed(messages, s)
    decreases |run|
  {
    if run == [] then 0
    else
      NextIsWellFormed(messages, s, run[0]);
      var s' := Next(messages, s, run[0]);
      (if s' == s then 0 else 1) + Moves(messages, s', run[1..])
  }

  /** No run makes more moves than the messages call for, so a fair one ends with everything delivered. */
  lemma {:induction false} MovesAreBounded(messages: seq<seq<byte>>, s: State, run: seq<Actor>)
    requires WellFormed(messages, s)
    ensures Moves(messages, s, run) <= Work(messages, s)
    decreases |run|
  {
    SideWorkNonNegative(messages, s.w);
    SideWorkNonNegative(messages, s.r);
    if run != [] {
      StepUsesWork(messages, s, run[0]);
      MovesAreBounded(messages, Next(messages, s, run[0]), run[1..]);
    }
  }
}
