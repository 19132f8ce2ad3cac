/**
 * One coroutine of the concurrent quicksort: the body of `q_sort_coro` cut at
 * its rescheduling points, acting on one `struct task`.
 */
module CoroSort {
  import opened Sums

  /** Statements of the partition loop. */
  datatype ScanPoint =
    | Pivot | InitI | InitJ | Test | Compare | IncI | LoadI | MoveJ | StoreJ | IncJ | PlaceA | PlaceB | SetP

  /** Statements that push one half of a partitioned range. */
  datatype PushPoint = Enter | Top1 | Put1 | Top2 | Put2

  datatype Side = Left | Right

  /** Where a coroutine resumes: the statement that follows its last `check_resched`. */
  datatype Point =
    | Start | LoopTest | PopH | PopL
    | Scan(at: ScanPoint)
    | Push(side: Side, step: PushPoint)
    | Waiting

  datatype Task = Task(pc: Point, isFinished: bool, arr: seq<int>, stack: seq<int>, top: int,
                       l: int, h: int, x: int, i: int, j: int, p: int, t: int)

  /** The task `main` builds for the numbers of one file: one range is pending, the whole array. */
  function InitialTask(numbers: seq<int>): Task
    requires |numbers| >= 2
  {
    var n := |numbers|;
    Task(Start, false, numbers, InitialStack(n), 1, 0, n - 1, 0, 0, 0, 0, 0)
  }

  function InitialStack(n: nat): seq<int>
    requires n >= 2
  {
    [0, n - 1] + seq(n - 2, _ => 0)
  }

  function SideLo(s: Task, side: Side): int {
    if side.Left? then s.l else s.p + 1
  }

  function SideHi(s: Task, side: Side): int {
    if side.Left? then s.p - 1 else s.h
  }

  /** The next segment reads and writes inside the two buffers. */
  predicate InBounds(s: Task) {
    match s.pc
    case PopH | PopL => 0 <= s.top < |s.stack|
    case Scan(at) => ScanInBounds(s, at)
    case Push(_, step) => step == Put1 || step == Put2 ==> 0 <= s.top < |s.stack|
    case _ => true
  }

  predicate ScanInBounds(s: Task, at: ScanPoint) {
    match at
    case Pivot | PlaceB => 0 <= s.h < |s.arr|
    case Test => s.j <= s.h - 1 || 0 <= s.i + 1 < |s.arr|
    case Compare | StoreJ => 0 <= s.j < |s.arr|
    case LoadI => 0 <= s.i < |s.arr|
    case MoveJ => 0 <= s.i < |s.arr| && 0 <= s.j < |s.arr|
    case PlaceA => 0 <= s.i + 1 < |s.arr| && 0 <= s.h < |s.arr|
    case _ => true
  }

  /** Runs one coroutine from its saved point to the next rescheduling point. */
  function Resume(s: Task): Task
    requires InBounds(s)
  {
    match s.pc
    case Start => s.(pc := LoopTest)
    case LoopTest => AtLoopTest(s)
    case PopH => s.(h := s.stack[s.top], top := s.top - 1, pc := PopL)
    case PopL => s.(l := s.stack[s.top], top := s.top - 1, pc := Scan(Pivot))
    case Scan(at) => ResumeScan(s, at)
    case Push(side, step) => ResumePush(s, side, step)
    case Waiting => s
  }

  function AtLoopTest(s: Task): Task {
    if s.top >= 0 then s.(pc := PopH) else s.(pc := Waiting, isFinished := true)
  }

  function ResumeScan(s: Task, at: ScanPoint): Task
    requires ScanInBounds(s, at)
  {
    match at
    case Pivot => s.(x := s.arr[s.h], pc := Scan(InitI))
    case InitI => s.(i := s.l - 1, pc := Scan(InitJ))
    case InitJ => s.(j := s.l, pc := Scan(Test))
    case Test =>
      if s.j <= s.h - 1 then s.(pc := Scan(Compare)) else s.(t := s.arr[s.i + 1], pc := Scan(PlaceA))
    case Compare =>
      if s.arr[s.j] <= s.x then s.(pc := Scan(IncI)) else s.(j := s.j + 1, pc := Scan(Test))
    case IncI => s.(i := s.i + 1, pc := Scan(LoadI))
    case LoadI => s.(t := s.arr[s.i], pc := Scan(MoveJ))
    case MoveJ => s.(arr := s.arr[s.i := s.arr[s.j]], pc := Scan(StoreJ))
    case StoreJ => s.(arr := s.arr[s.j := s.t], pc := Scan(IncJ))
    case IncJ => s.(j := s.j + 1, pc := Scan(Test))
    case PlaceA => s.(arr := s.arr[s.i + 1 := s.arr[s.h]], pc := Scan(PlaceB))
    case PlaceB => s.(arr := s.arr[s.h := s.t], pc := Scan(SetP))
    case SetP => s.(p := s.i + 1, pc := Push(Left, Enter))
  }

  /** A half is pushed only if it is longer than one; the right half follows the left. */
  function EnterPush(s: Task, side: Side): Task {
    if SideHi(s, side) > SideLo(s, side) then s.(pc := Push(side, Top1))
    else if side.Left? && SideHi(s, Right) > SideLo(s, Right) then s.(pc := Push(Right, Top1))
    else AtLoopTest(s)
  }

  function ResumePush(s: Task, side: Side, step: PushPoint): Task
    requires step == Put1 || step == Put2 ==> 0 <= s.top < |s.stack|
  {
    match step
    case Enter => EnterPush(s, side)
    case Top1 => s.(top := s.top + 1, pc := Push(side, Put1))
    case Put1 => s.(stack := s.stack[s.top := SideLo(s, side)], pc := Push(side, Top2))
    case Top2 => s.(top := s.top + 1, pc := Push(side, Put2))
    case Put2 =>
      s.(stack := s.stack[s.top := SideHi(s, side)], pc := if side.Left? then Push(Right, Enter) else LoopTest)
  }

  // ---------- Pending ranges ----------

  type Range = (int, int)

  /** The bottom `n` (l, h) pairs of the explicit stack. */
  ghost function PairsOf(stack: seq<int>, n: nat): (r: seq<Range>)
    requires 2 * n <= |stack|
    ensures |r| == n && forall k :: 0 <= k < n ==> r[k] == (stack[2 * k], stack[2 * k + 1])
  {
    if n == 0 then [] else PairsOf(stack, n - 1) + [(stack[2 * n - 2], stack[2 * n - 1])]
  }

  /** Disjoint ranges of at least two positions under `n`, from left to right. */
  ghost predicate AreSeparate(ranges: seq<Range>, n: int) {
    && (forall k :: 0 <= k < |ranges| ==> 0 <= ranges[k].0 < ranges[k].1 < n)
    && (forall k, m :: 0 <= k < m < |ranges| ==> ranges[k].1 < ranges[m].0)
  }

  ghost predicate Together(ranges: seq<Range>, u: int, v: int) {
    exists k :: 0 <= k < |ranges| && ranges[k].0 <= u && v <= ranges[k].1
  }

  /** Two positions hold their values in order unless one pending range still covers both. */
  ghost predicate Arranged(a: seq<int>, ranges: seq<Range>) {
    forall u, v :: 0 <= u < v < |a| ==> a[u] <= a[v] || Together(ranges, u, v)
  }

  ghost predicate Sorted(a: seq<int>) {
    forall u, v :: 0 <= u < v < |a| ==> a[u] <= a[v]
  }

  /** How far `top` is past the last whole pair on the stack. */
  ghost function Lead(pc: Point): int {
    match pc
    case PopL => 1
    case Push(_, step) => (match step case Put1 | Top2 => 1 case Put2 => 2 case _ => 0)
    case _ => 0
  }

  /** Number of whole pairs on the stack. */
  ghost function Depth(s: Task): int {
    (s.top + 1 - Lead(s.pc)) / 2
  }

  ghost predicate StackShape(s: Task) {
    && |s.stack| == |s.arr|
    && 0 <= Depth(s) && 2 * Depth(s) <= |s.stack|
    && s.top + 1 == 2 * Depth(s) + Lead(s.pc)
  }

  /** The part of a half that still needs sorting. */
  ghost function Half(s: Task, side: Side): seq<Range> {
    if SideHi(s, side) > SideLo(s, side) then [(SideLo(s, side), SideHi(s, side))] else []
  }

  /** The ranges that are pending but not whole on the stack. */
  ghost function InFlight(s: Task): seq<Range> {
    match s.pc
    case PopL => if 0 <= s.top < |s.stack| then [(s.stack[s.top], s.h)] else []
    case Scan(_) => [(s.l, s.h)]
    case Push(side, _) => if side.Left? then Half(s, Left) + Half(s, Right) else Half(s, Right)
    case _ => []
  }

  /** All ranges still to be sorted, whether on the stack or in hand. */
  ghost function Pending(s: Task): seq<Range>
    requires StackShape(s)
  {
    PairsOf(s.stack, Depth(s)) + InFlight(s)
  }

  /** The array with an unfinished exchange completed. */
  ghost function Content(s: Task): seq<int> {
    if s.pc == Scan(StoreJ) && 0 <= s.j < |s.arr| then s.arr[s.j := s.t]
    else if s.pc == Scan(PlaceB) && 0 <= s.h < |s.arr| then s.arr[s.h := s.t]
    else s.arr
  }

  /** In the active range, positions up to `i` hold at most the pivot and those between `i` and `j` hold more. */
  ghost predicate Partitioned(s: Task, i: int, j: int) {
    && s.l - 1 <= i && j <= s.h
    && 0 <= s.l < s.h < |s.arr|
    && (forall k :: s.l <= k <= i && k < |s.arr| ==> s.arr[k] <= s.x)
    && (forall k :: s.l <= k && i < k < j ==> s.arr[k] > s.x)
  }

  ghost predicate HasPivot(s: Task) {
    0 <= s.h < |s.arr| && s.x == s.arr[s.h]
  }

  ghost predicate ScanInv(s: Task, at: ScanPoint) {
    match at
    case Pivot => true
    case InitI => HasPivot(s)
    case InitJ => HasPivot(s) && s.i == s.l - 1
    case Test => HasPivot(s) && s.i < s.j && Partitioned(s, s.i, s.j)
    case Compare => HasPivot(s) && s.i < s.j < s.h && Partitioned(s, s.i, s.j)
    case IncI => HasPivot(s) && s.i < s.j < s.h && Partitioned(s, s.i, s.j) && s.arr[s.j] <= s.x
    case LoadI => HasPivot(s) && s.i <= s.j < s.h && Partitioned(s, s.i - 1, s.j) && s.arr[s.j] <= s.x
    case MoveJ =>
      && HasPivot(s) && s.i <= s.j < s.h && Partitioned(s, s.i - 1, s.j)
      && s.arr[s.j] <= s.x && s.t == s.arr[s.i]
    case StoreJ =>
      && HasPivot(s) && s.l <= s.i <= s.j < s.h && Partitioned(s, s.i, s.j) && (s.t <= s.x <==> s.i == s.j)
    case IncJ => HasPivot(s) && s.i <= s.j < s.h && Partitioned(s, s.i, s.j + 1)
    case PlaceA => HasPivot(s) && s.i < s.h && Partitioned(s, s.i, s.h) && s.t == s.arr[s.i + 1]
    case PlaceB =>
      && s.i < s.h && Partitioned(s, s.i, s.i + 1) && s.arr[s.i + 1] == s.x
      && (forall k :: s.i + 1 < k < s.h ==> s.arr[k] > s.x)
      && s.t >= s.x && (s.t == s.x <==> s.i + 1 == s.h)
    case SetP =>
      && s.i < s.h && Partitioned(s, s.i, s.i + 1) && s.arr[s.i + 1] == s.x
      && (forall k :: s.i + 1 < k <= s.h ==> s.arr[k] > s.x)
  }

  ghost predicate PushInv(s: Task, side: Side, step: PushPoint) {
    && (step == Enter && side.Left? ==> s.l <= s.p <= s.h)
    && (step != Enter ==> SideHi(s, side) > SideLo(s, side))
    && (step == Top2 ==> 0 <= s.top < |s.stack| && s.stack[s.top] == SideLo(s, side))
    && (step == Put2 ==> 1 <= s.top <= |s.stack| && s.stack[s.top - 1] == SideLo(s, side))
  }

  ghost predicate LocalInv(s: Task) {
    match s.pc
    case PopH => s.top >= 0
    case PopL => 0 <= s.top < |s.stack|
    case Scan(at) => ScanInv(s, at)
    case Push(side, step) => PushInv(s, side, step)
    case Waiting => s.top == -1
    case _ => true
  }

  /** What holds at every rescheduling point of every coroutine. */
  ghost predicate Inv(s: Task) {
    && StackShape(s)
    && AreSeparate(Pending(s), |s.arr|)
    && Arranged(Content(s), Pending(s))
    && LocalInv(s)
    && (s.isFinished <==> s.pc == Waiting)
  }

  // ---------- Facts about ranges ----------

  /** Disjoint ranges of two or more positions number at most half the positions. */
  lemma {:induction false} RangesFit(ranges: seq<Range>, n: int)
    requires AreSeparate(ranges, n) && n >= 0
    ensures 2 * |ranges| <= n
  {
    if ranges != [] {
      var last := |ranges| - 1;
      RangesFit(ranges[..last], ranges[last].0);
    }
  }

  /** Positions of the last range are out of reach of the others. */
  lemma LastRangeStandsAlone(a: seq<int>, ranges: seq<Range>, l: int, h: int, u: int, v: int, w: int)
    requires Arranged(a, ranges) && AreSeparate(ranges, |a|) && ranges != [] && ranges[|ranges| - 1] == (l, h)
    requires l <= w <= h
    ensures 0 <= u < l ==> a[u] <= a[w]
    ensures h < v < |a| ==> a[w] <= a[v]
  {
  }

  lemma ExchangeKeepsArranged(a: seq<int>, ranges: seq<Range>, l: int, h: int, i: int, j: int)
    requires Arranged(a, ranges) && AreSeparate(ranges, |a|) && ranges != [] && ranges[|ranges| - 1] == (l, h)
    requires l <= i <= j <= h
    ensures Arranged(a[i := a[j]][j := a[i]], ranges)
    ensures multiset(a[i := a[j]][j := a[i]]) == multiset(a)
  {
    var b := a[i := a[j]][j := a[i]];
    forall u, v | 0 <= u < v < |a|
      ensures b[u] <= b[v] || Together(ranges, u, v)
    {
      if u < l && l <= v <= h {
        LastRangeStandsAlone(a, ranges, l, h, u, v, if v == i then j else if v == j then i else v);
      } else if l <= u <= h && h < v {
        LastRangeStandsAlone(a, ranges, l, h, u, v, if u == i then j else if u == j then i else u);
      } else if l <= u && v <= h {
        assert Together(ranges, u, v);
      } else {
        assert a[u] <= a[v] || Together(ranges, u, v);
      }
    }
  }

  lemma SplitKeepsSeparate(below: seq<Range>, halves: seq<Range>, whole: Range, n: int)
    requires AreSeparate(below + [whole], n) && AreSeparate(halves, n)
    requires forall k :: 0 <= k < |halves| ==> whole.0 <= halves[k].0 && halves[k].1 <= whole.1
    ensures AreSeparate(below + halves, n)
  {
    var before, after := below + [whole], below + halves;
    assert before[|below|] == whole;
    assert forall k :: 0 <= k < |below| ==> after[k] == before[k];
    assert forall k :: |below| <= k < |after| ==> after[k] == halves[k - |below|];
  }

  lemma SplitArrangesPair(s: Task, below: seq<Range>, halves: seq<Range>, u: int, v: int)
    requires Arranged(s.arr, below + [(s.l, s.h)]) && 0 <= u < v < |s.arr|
    requires 0 <= s.l <= s.p <= s.h < |s.arr| && halves == Half(s, Left) + Half(s, Right)
    requires forall k :: s.l <= k < s.p ==> s.arr[k] <= s.arr[s.p]
    requires forall k :: s.p < k <= s.h ==> s.arr[k] > s.arr[s.p]
    ensures s.arr[u] <= s.arr[v] || Together(below + halves, u, v)
  {
    var before, after := below + [(s.l, s.h)], below + halves;
    if s.l <= u && v < s.p {
      assert after[|below|] == (s.l, s.p - 1);
    } else if s.p < u && v <= s.h {
      assert after[|after| - 1] == (s.p + 1, s.h);
    } else if s.l <= u && v <= s.h {
      assert s.arr[u] <= s.arr[s.p] <= s.arr[v];
    } else if s.arr[u] > s.arr[v] {
      assert Together(before, u, v);
      var k :| 0 <= k < |before| && before[k].0 <= u && v <= before[k].1;
      assert after[k] == before[k];
    }
  }

  /** Once the pivot stands between the two halves, only the halves longer than one stay pending. */
  lemma SplitKeepsArranged(s: Task, below: seq<Range>)
    requires AreSeparate(below + [(s.l, s.h)], |s.arr|) && Arranged(s.arr, below + [(s.l, s.h)])
    requires 0 <= s.l <= s.p <= s.h < |s.arr|
    requires forall k :: s.l <= k < s.p ==> s.arr[k] <= s.arr[s.p]
    requires forall k :: s.p < k <= s.h ==> s.arr[k] > s.arr[s.p]
    ensures AreSeparate(below + (Half(s, Left) + Half(s, Right)), |s.arr|)
    ensures Arranged(s.arr, below + (Half(s, Left) + Half(s, Right)))
  {
    var halves := Half(s, Left) + Half(s, Right);
    SplitKeepsSeparate(below, halves, (s.l, s.h), |s.arr|);
    hide AreSeparate, Together, Half;
    forall u, v | 0 <= u < v < |s.arr|
      ensures s.arr[u] <= s.arr[v] || Together(below + halves, u, v)
    {
      SplitArrangesPair(s, below, halves, u, v);
    }
  }

  // ---------- Every segment keeps the invariant ----------

  /** A segment that leaves the content and the pending ranges alone. */
  ghost predicate Carries(s: Task, s': Task) {
    && StackShape(s) && StackShape(s') && LocalInv(s')
    && Pending(s') == Pending(s)
    && Content(s') == Content(s)
    && |s'.arr| == |s.arr|
    && (s'.isFinished <==> s'.pc == Waiting)
  }

  lemma CarriedInv(s: Task, s': Task)
    requires Inv(s) && Carries(s, s')
    ensures Inv(s')
  {
  }

  lemma LoopTestCarries(s: Task)
    requires StackShape(s) && LocalInv(s) && !s.isFinished
    requires s.pc == Start || s.pc == LoopTest
    ensures Carries(s, Resume(s))
  {
    assert Pending(Resume(s)) == Pending(s);
  }

  lemma PopCarries(s: Task)
    requires StackShape(s) && LocalInv(s) && !s.isFinished && 2 * |Pending(s)| <= |s.arr|
    requires s.pc == PopH || s.pc == PopL
    ensures InBounds(s) && Carries(s, Resume(s))
  {
    assert Pending(Resume(s)) == Pending(s);
  }

  // The pushes move ranges from hand to stack without changing which are pending.

  lemma EnterKeepsPending(s: Task, side: Side)
    requires StackShape(s) && s.pc == Push(side, Enter)
    ensures StackShape(Resume(s)) && Pending(Resume(s)) == Pending(s)
  {
    hide PairsOf;
    assert Depth(Resume(s)) == Depth(s);
    assert InFlight(Resume(s)) == InFlight(s);
  }

  lemma PushEnterCarries(s: Task, side: Side, step: PushPoint)
    requires StackShape(s) && PushInv(s, side, step) && !s.isFinished && 2 * |Pending(s)| <= |s.arr|
    requires s.pc == Push(side, step) && step == Enter
    ensures InBounds(s) && Carries(s, Resume(s))
  {
    hide PairsOf;
    EnterKeepsPending(s, side);
    hide Pending;
  }

  lemma TopKeepsPending(s: Task, side: Side, step: PushPoint)
    requires StackShape(s) && s.pc == Push(side, step) && (step == Top1 || step == Top2)
    ensures StackShape(Resume(s)) && Pending(Resume(s)) == Pending(s)
  {
    hide PairsOf;
    assert Depth(Resume(s)) == Depth(s);
    assert InFlight(Resume(s)) == InFlight(s);
  }

  lemma PushTopCarries(s: Task, side: Side, step: PushPoint)
    requires StackShape(s) && PushInv(s, side, step) && !s.isFinished && 2 * |Pending(s)| <= |s.arr|
    requires s.pc == Push(side, step) && (step == Top1 || step == Top2)
    ensures InBounds(s) && Carries(s, Resume(s))
  {
    hide PairsOf;
    TopKeepsPending(s, side, step);
    hide Pending;
  }

  /** Writing above the whole pairs leaves them alone. */
  lemma PairsOfOther(stack: seq<int>, n: nat, k: nat, v: int)
    requires 2 * n <= k < |stack|
    ensures PairsOf(stack[k := v], n) == PairsOf(stack, n)
  {
    hide PairsOf;
    assert forall m :: 0 <= m < n ==> PairsOf(stack[k := v], n)[m] == PairsOf(stack, n)[m];
  }

  lemma Put1KeepsPending(s: Task, side: Side)
    requires StackShape(s) && 0 <= s.top < |s.stack| && s.pc == Push(side, Put1)
    ensures StackShape(Resume(s)) && Pending(Resume(s)) == Pending(s)
  {
    hide PairsOf;
    assert Depth(Resume(s)) == Depth(s) && s.top == 2 * Depth(s);
    PairsOfOther(s.stack, Depth(s), s.top, SideLo(s, side));
    assert InFlight(Resume(s)) == InFlight(s);
  }

  lemma PushPut1Carries(s: Task, side: Side, step: PushPoint)
    requires StackShape(s) && PushInv(s, side, step) && !s.isFinished && 2 * |Pending(s)| <= |s.arr|
    requires s.pc == Push(side, step) && step == Put1
    ensures InBounds(s) && Carries(s, Resume(s))
  {
    hide PairsOf;
    assert 0 <= s.top < |s.stack|;
    Put1KeepsPending(s, side);
    hide Pending;
  }

  lemma PairsOfPush(stack: seq<int>, n: nat, hi: int)
    requires 2 * n + 2 <= |stack|
    ensures PairsOf(stack[2 * n + 1 := hi], n + 1) == PairsOf(stack, n) + [(stack[2 * n], hi)]
  {
    assert PairsOf(stack[2 * n + 1 := hi], n) == PairsOf(stack, n);
  }

  lemma Put2KeepsPending(s: Task, side: Side)
    requires StackShape(s) && PushInv(s, side, Put2) && 0 <= s.top < |s.stack| && s.pc == Push(side, Put2)
    ensures StackShape(Resume(s)) && Pending(Resume(s)) == Pending(s)
  {
    hide PairsOf;
    var n := Depth(s);
    assert Depth(Resume(s)) == n + 1 && s.top == 2 * n + 1;
    PairsOfPush(s.stack, n, SideHi(s, side));
    assert Half(s, side) == [(SideLo(s, side), SideHi(s, side))];
  }

  lemma PushPut2Carries(s: Task, side: Side, step: PushPoint)
    requires StackShape(s) && PushInv(s, side, step) && !s.isFinished && 2 * |Pending(s)| <= |s.arr|
    requires s.pc == Push(side, step) && step == Put2
    ensures InBounds(s) && Carries(s, Resume(s))
  {
    hide PairsOf;
    assert 0 <= s.top < |s.stack|;
    Put2KeepsPending(s, side);
    hide Pending;
  }

  /** While a range is in hand it is the last pending one. */
  lemma RangeInHand(s: Task)
    requires Inv(s) && s.pc.Scan?
    ensures Pending(s) != [] && Pending(s)[|Pending(s)| - 1] == (s.l, s.h)
    ensures 0 <= s.l < s.h < |s.arr|
  {
    var r := Pending(s);
    assert r[|r| - 1] == (s.l, s.h);
  }

  /** A partition segment is safe and establishes what the next one relies on. */
  ghost predicate ScanStep(s: Task, at: ScanPoint, content: seq<int>) {
    && ScanInBounds(s, at)
    && ResumeScan(s, at).pc.Scan?
    && ScanInv(ResumeScan(s, at), ResumeScan(s, at).pc.at)
    && Content(ResumeScan(s, at)) == content
  }

  lemma InitSteps(s: Task, at: ScanPoint)
    requires ScanInv(s, at) && 0 <= s.l < s.h < |s.arr| && s.pc == Scan(at)
    requires at == Pivot || at == InitI || at == InitJ
    ensures ScanStep(s, at, Content(s))
  {
  }

  lemma TestEnds(s: Task)
    requires ScanInv(s, Test) && 0 <= s.l < s.h < |s.arr| && s.pc == Scan(Test) && s.j > s.h - 1
    ensures ScanStep(s, Test, Content(s))
  {
    assert s.j == s.h;
    var s' := s.(t := s.arr[s.i + 1], pc := Scan(PlaceA));
    assert Partitioned(s', s'.i, s'.h) && ScanInv(s', PlaceA);
    hide ScanInv, Partitioned;
  }

  lemma TestGoesOn(s: Task)
    requires ScanInv(s, Test) && 0 <= s.l < s.h < |s.arr| && s.pc == Scan(Test) && s.j <= s.h - 1
    ensures ScanStep(s, Test, Content(s))
  {
    assert Partitioned(s.(pc := Scan(Compare)), s.i, s.j);
  }

  lemma TestSteps(s: Task)
    requires ScanInv(s, Test) && 0 <= s.l < s.h < |s.arr| && s.pc == Scan(Test)
    ensures ScanStep(s, Test, Content(s))
  {
    hide ScanStep, ScanInv;
    if s.j > s.h - 1 {
      TestEnds(s);
    } else {
      TestGoesOn(s);
    }
  }

  lemma CompareSteps(s: Task)
    requires ScanInv(s, Compare) && 0 <= s.l < s.h < |s.arr| && s.pc == Scan(Compare)
    ensures ScanStep(s, Compare, Content(s))
  {
    var s' := s.(j := s.j + 1, pc := Scan(Test));
    assert s.arr[s.j] > s.x ==> Partitioned(s', s'.i, s'.j);
  }

  lemma IncISteps(s: Task)
    requires ScanInv(s, IncI) && 0 <= s.l < s.h < |s.arr| && s.pc == Scan(IncI)
    ensures ScanStep(s, IncI, Content(s))
  {
    var s' := s.(i := s.i + 1, pc := Scan(LoadI));
    assert Partitioned(s', s'.i - 1, s'.j);
  }

  lemma IncJSteps(s: Task)
    requires ScanInv(s, IncJ) && 0 <= s.l < s.h < |s.arr| && s.pc == Scan(IncJ)
    ensures ScanStep(s, IncJ, Content(s))
  {
    var s' := s.(j := s.j + 1, pc := Scan(Test));
    assert Partitioned(s', s'.i, s'.j);
  }

  lemma LoadISteps(s: Task)
    requires ScanInv(s, LoadI) && 0 <= s.l < s.h < |s.arr| && s.pc == Scan(LoadI)
    ensures ScanStep(s, LoadI, Content(s))
  {
    var s' := s.(t := s.arr[s.i], pc := Scan(MoveJ));
    assert Partitioned(s', s'.i - 1, s'.j);
  }

  lemma StoreJSteps(s: Task)
    requires ScanInv(s, StoreJ) && 0 <= s.l < s.h < |s.arr| && s.pc == Scan(StoreJ)
    ensures ScanStep(s, StoreJ, Content(s))
  {
    var s' := s.(arr := s.arr[s.j := s.t], pc := Scan(IncJ));
    assert Partitioned(s', s'.i, s'.j + 1);
  }

  lemma PlaceBSteps(s: Task)
    requires ScanInv(s, PlaceB) && 0 <= s.l < s.h < |s.arr| && s.pc == Scan(PlaceB)
    ensures ScanStep(s, PlaceB, Content(s))
  {
  }

  lemma MoveSteps(s: Task)
    requires ScanInv(s, MoveJ) && 0 <= s.l < s.h < |s.arr|
    ensures ScanStep(s, MoveJ, s.arr[s.i := s.arr[s.j]][s.j := s.arr[s.i]])
  {
  }

  lemma PlaceSteps(s: Task)
    requires ScanInv(s, PlaceA) && 0 <= s.l < s.h < |s.arr|
    ensures ScanStep(s, PlaceA, s.arr[s.i + 1 := s.arr[s.h]][s.h := s.arr[s.i + 1]])
  {
  }

  lemma ScanKeepsPending(s: Task, at: ScanPoint)
    requires StackShape(s) && s.pc == Scan(at) && ScanInBounds(s, at) && at != SetP
    ensures StackShape(ResumeScan(s, at)) && Pending(ResumeScan(s, at)) == Pending(s)
    ensures ResumeScan(s, at).isFinished == s.isFinished && |ResumeScan(s, at).arr| == |s.arr|
  {
    var s' := ResumeScan(s, at);
    assert s'.stack == s.stack && s'.top == s.top && s'.l == s.l && s'.h == s.h && s'.pc.Scan?;
  }

  /** What the invariant says of a coroutine in the partition loop. */
  lemma InvInScan(s: Task, at: ScanPoint)
    requires Inv(s) && s.pc == Scan(at)
    ensures StackShape(s) && ScanInv(s, at) && !s.isFinished
    ensures AreSeparate(Pending(s), |s.arr|) && Arranged(Content(s), Pending(s))
    ensures at != StoreJ && at != PlaceB ==> Content(s) == s.arr
    ensures ScanInBounds(s, at) ==> InBounds(s) && Resume(s) == ResumeScan(s, at)
  {
    hide StackShape, Pending, AreSeparate, Arranged, ScanInv, ScanInBounds, ResumeScan;
  }

  /** A segment of the partition loop that leaves the given content arranged keeps the invariant. */
  lemma StepRebuildsInv(s: Task, at: ScanPoint, content: seq<int>)
    requires StackShape(s) && s.pc == Scan(at) && at != SetP && !s.isFinished
    requires ScanStep(s, at, content)
    requires AreSeparate(Pending(s), |s.arr|) && Arranged(content, Pending(s))
    ensures Inv(ResumeScan(s, at)) && Content(ResumeScan(s, at)) == content
    ensures Pending(ResumeScan(s, at)) == Pending(s) && |ResumeScan(s, at).arr| == |s.arr|
  {
    hide StackShape, Pending, AreSeparate, Arranged, ScanInv, ScanInBounds, ResumeScan, Content, Inv;
    ScanKeepsPending(s, at);
    RebuiltInv(ResumeScan(s, at), content, Pending(s));
  }

  lemma QuietSteps(s: Task, at: ScanPoint)
    requires ScanInv(s, at) && 0 <= s.l < s.h < |s.arr| && s.pc == Scan(at)
    requires at != SetP && at != MoveJ && at != PlaceA
    ensures ScanStep(s, at, Content(s))
  {
    hide *;
    match at {
      case Pivot | InitI | InitJ => InitSteps(s, at);
      case Test => TestSteps(s);
      case Compare => CompareSteps(s);
      case IncI => IncISteps(s);
      case IncJ => IncJSteps(s);
      case LoadI => LoadISteps(s);
      case StoreJ => StoreJSteps(s);
      case PlaceB => PlaceBSteps(s);
    }
  }

  /** A partition segment that exchanges nothing. */
  lemma QuietScanKeepsInv(s: Task, at: ScanPoint)
    requires Inv(s) && s.pc == Scan(at) && at != SetP && at != MoveJ && at != PlaceA
    ensures InBounds(s) && Inv(Resume(s)) && Content(Resume(s)) == Content(s)
    ensures Pending(Resume(s)) == Pending(s) && |Resume(s).arr| == |s.arr|
  {
    hide Inv, InBounds, StackShape, Pending, AreSeparate, Arranged, ScanInv, ResumeScan, Resume, Content;
    InvInScan(s, at);
    RangeInHand(s);
    QuietSteps(s, at);
    StepRebuildsInv(s, at, Content(s));
  }

  // The two segments that exchange numbers do so inside the range in hand.

  lemma MoveKeepsInv(s: Task)
    requires Inv(s) && s.pc == Scan(MoveJ)
    ensures InBounds(s) && Inv(Resume(s)) && multiset(Content(Resume(s))) == multiset(Content(s))
    ensures Pending(Resume(s)) == Pending(s) && |Resume(s).arr| == |s.arr|
  {
    hide Inv, InBounds, StackShape, Pending, AreSeparate, Arranged, ResumeScan, Resume, Content;
    InvInScan(s, MoveJ);
    RangeInHand(s);
    MoveSteps(s);
    ExchangeKeepsArranged(s.arr, Pending(s), s.l, s.h, s.i, s.j);
    StepRebuildsInv(s, MoveJ, s.arr[s.i := s.arr[s.j]][s.j := s.arr[s.i]]);
  }

  lemma PlaceKeepsInv(s: Task)
    requires Inv(s) && s.pc == Scan(PlaceA)
    ensures InBounds(s) && Inv(Resume(s)) && multiset(Content(Resume(s))) == multiset(Content(s))
    ensures Pending(Resume(s)) == Pending(s) && |Resume(s).arr| == |s.arr|
  {
    hide Inv, InBounds, StackShape, Pending, AreSeparate, Arranged, ResumeScan, Resume, Content;
    InvInScan(s, PlaceA);
    RangeInHand(s);
    PlaceSteps(s);
    ExchangeKeepsArranged(s.arr, Pending(s), s.l, s.h, s.i + 1, s.h);
    StepRebuildsInv(s, PlaceA, s.arr[s.i + 1 := s.arr[s.h]][s.h := s.arr[s.i + 1]]);
  }

  lemma SplitPending(s: Task)
    requires StackShape(s) && s.pc == Scan(SetP)
    ensures Pending(s) == PairsOf(s.stack, Depth(s)) + [(s.l, s.h)]
    ensures var s' := ResumeScan(s, SetP);
            StackShape(s') && Pending(s') == PairsOf(s.stack, Depth(s)) + (Half(s', Left) + Half(s', Right))
  {
  }

  lemma SplitLocal(s: Task)
    requires ScanInv(s, SetP) && s.pc == Scan(SetP) && !s.isFinished
    ensures var s' := ResumeScan(s, SetP);
            && LocalInv(s') && Content(s') == Content(s) == s.arr && !s'.isFinished && s'.arr == s.arr
            && 0 <= s.l <= s'.p <= s.h < |s.arr|
            && (forall k :: s.l <= k < s'.p ==> s.arr[k] <= s.arr[s'.p])
            && (forall k :: s'.p < k <= s.h ==> s.arr[k] > s.arr[s'.p])
  {
  }

  lemma SplitKeepsInv(s: Task)
    requires Inv(s) && s.pc == Scan(SetP)
    ensures InBounds(s) && Inv(Resume(s)) && Content(Resume(s)) == Content(s) && |Resume(s).arr| == |s.arr|
  {
    hide Inv, InBounds, Resume, Pending, AreSeparate, Arranged, ScanInv, LocalInv, Content, PairsOf;
    InvInScan(s, SetP);
    var s' := ResumeScan(s, SetP);
    SplitPending(s);
    SplitLocal(s);
    SplitKeepsArranged(s', PairsOf(s.stack, Depth(s)));
    RebuiltInv(s', s.arr, Pending(s'));
  }

  lemma RebuiltInv(s: Task, content: seq<int>, pending: seq<Range>)
    requires StackShape(s) && LocalInv(s) && !s.isFinished && s.pc != Waiting
    requires Content(s) == content && Pending(s) == pending
    requires AreSeparate(pending, |s.arr|) && Arranged(content, pending)
    ensures Inv(s)
  {
  }

  lemma ScanSegmentKeepsInv(s: Task, at: ScanPoint)
    requires Inv(s) && s.pc == Scan(at)
    ensures InBounds(s) && Inv(Resume(s))
    ensures multiset(Content(Resume(s))) == multiset(Content(s)) && |Resume(s).arr| == |s.arr|
    ensures at != SetP ==> Pending(Resume(s)) == Pending(s)
  {
    if at == SetP {
      SplitKeepsInv(s);
    } else if at == MoveJ {
      MoveKeepsInv(s);
    } else if at == PlaceA {
      PlaceKeepsInv(s);
    } else {
      QuietScanKeepsInv(s, at);
    }
    hide Inv, Content, Pending;
  }

  lemma PushCarries(s: Task, side: Side, step: PushPoint)
    requires StackShape(s) && PushInv(s, side, step) && !s.isFinished && 2 * |Pending(s)| <= |s.arr|
    requires s.pc == Push(side, step)
    ensures InBounds(s) && Carries(s, Resume(s))
  {
    match step {
      case Enter => PushEnterCarries(s, side, step);
      case Top1 | Top2 => PushTopCarries(s, side, step);
      case Put1 => PushPut1Carries(s, side, step);
      case Put2 => PushPut2Carries(s, side, step);
    }
    hide Carries, Pending;
  }

  /** What the invariant says of a coroutine that pushes ranges. */
  lemma InvInPush(s: Task, side: Side, step: PushPoint)
    requires Inv(s) && s.pc == Push(side, step)
    ensures StackShape(s) && PushInv(s, side, step) && !s.isFinished && 2 * |Pending(s)| <= |s.arr|
  {
    hide StackShape, Pending, AreSeparate, Arranged, PushInv, Content;
    RangesFit(Pending(s), |s.arr|);
  }

  lemma OutsideScanKeepsInv(s: Task)
    requires Inv(s) && !s.pc.Scan? && s.pc != Waiting
    ensures InBounds(s) && Carries(s, Resume(s))
  {
    hide AreSeparate, Arranged, Carries, InBounds, Resume, StackShape, PushInv, Pending, Content;
    if s.pc.Push? {
      InvInPush(s, s.pc.side, s.pc.step);
      PushCarries(s, s.pc.side, s.pc.step);
    } else {
      RangesFit(Pending(s), |s.arr|);
      if s.pc == PopH || s.pc == PopL {
        PopCarries(s);
      } else {
        LoopTestCarries(s);
        LoopInBounds(s);
      }
    }
  }

  lemma LoopInBounds(s: Task)
    requires s.pc == Start || s.pc == LoopTest || s.pc == Waiting
    ensures InBounds(s) && (s.pc == Waiting ==> Resume(s) == s)
  {
  }

  /** No segment leaves the buffers, breaks the invariant or loses a number. */
  lemma ResumeKeepsInv(s: Task)
    requires Inv(s)
    ensures InBounds(s) && Inv(Resume(s))
    ensures multiset(Content(Resume(s))) == multiset(Content(s)) && |Resume(s).arr| == |s.arr|
    ensures s.pc != Scan(SetP) ==> Pending(Resume(s)) == Pending(s)
  {
    hide Inv, InBounds, StackShape, Pending, Resume, Content, LocalInv;
    if s.pc.Scan? {
      ScanSegmentKeepsInv(s, s.pc.at);
    } else if s.pc == Waiting {
      LoopInBounds(s);
    } else {
      OutsideScanKeepsInv(s);
      CarriedInv(s, Resume(s));
    }
  }

  /** The explicit stack never holds more integers than the array has. */
  lemma StackNeverOverflows(s: Task)
    requires Inv(s)
    ensures -1 <= s.top < |s.stack| == |s.arr|
  {
    RangesFit(Pending(s), |s.arr|);
  }

  // ---------- A coroutine on its own ----------

  ghost function Size(r: Range): int {
    r.1 - r.0 + 1
  }

  lemma TotalSizeOfOneMore(ranges: seq<Range>, r: Range)
    ensures Total(ranges + [r], Size) == Total(ranges, Size) + Size(r)
  {
    TotalOfAppend(ranges, [r], Size);
    TotalOfOne(r, Size);
  }

  /** Segments left before the pending ranges next shrink; at most `7 * n + 19`. */
  ghost function LocalWork(s: Task): int {
    var n := |s.arr|;
    match s.pc
    case Start => 7 * n + 10
    case LoopTest => 7 * n + 9
    case PopH => 7 * n + 8
    case PopL => 7 * n + 7
    case Scan(at) => ScanWork(s, at)
    case Push(side, step) => 7 * n + PushWork(side, step)
    case Waiting => 0
  }

  ghost function ScanWork(s: Task, at: ScanPoint): int {
    match at
    case Pivot => 7 * |s.arr| + 6
    case InitI => 7 * |s.arr| + 5
    case InitJ => 7 * |s.arr| + 4
    case Test => 7 * (s.h - s.j) + 3
    case Compare => 7 * (s.h - s.j) + 2
    case IncI => 7 * (s.h - s.j) + 1
    case LoadI => 7 * (s.h - s.j)
    case MoveJ => 7 * (s.h - s.j) - 1
    case StoreJ => 7 * (s.h - s.j) - 2
    case IncJ => 7 * (s.h - s.j) - 3
    case PlaceA => 2
    case PlaceB => 1
    case SetP => 0
  }

  ghost function PushWork(side: Side, step: PushPoint): int {
    (if side.Left? then 15 else 10)
    + match step case Enter => 4 case Top1 => 3 case Put1 => 2 case Top2 => 1 case Put2 => 0
  }

  ghost function Work(s: Task): int
    requires StackShape(s)
  {
    Total(Pending(s), Size) * (7 * |s.arr| + 20) + LocalWork(s)
  }

  lemma LocalWorkBounds(s: Task)
    requires Inv(s)
    ensures 0 <= LocalWork(s) <= 7 * |s.arr| + 19
  {
    if s.pc.Scan? {
      RangeInHand(s);
    }
  }

  lemma ScanWorkDecreases(s: Task, at: ScanPoint)
    requires at != SetP && ScanInv(s, at) && ScanInBounds(s, at) && 0 <= s.l < s.h < |s.arr|
    ensures LocalWork(ResumeScan(s, at)) < ScanWork(s, at)
  {
  }

  lemma LocalWorkDecreases(s: Task)
    requires Inv(s) && s.pc != Waiting && s.pc != Scan(SetP)
    requires InBounds(s)
    ensures LocalWork(Resume(s)) < LocalWork(s)
  {
    if s.pc.Scan? {
      RangeInHand(s);
      ScanWorkDecreases(s, s.pc.at);
    }
  }

  lemma HalvesAreSmaller(below: seq<Range>, s: Task)
    requires s.l <= s.p <= s.h && s.l < s.h
    ensures Total(below + (Half(s, Left) + Half(s, Right)), Size) < Total(below + [(s.l, s.h)], Size)
  {
    TotalSizeOfOneMore(below, (s.l, s.h));
    var left, right := Half(s, Left), Half(s, Right);
    if left == [] && right == [] {
      assert below + (left + right) == below;
    } else if right == [] {
      assert below + (left + right) == below + [left[0]];
      TotalSizeOfOneMore(below, left[0]);
    } else if left == [] {
      assert below + (left + right) == below + [right[0]];
      TotalSizeOfOneMore(below, right[0]);
    } else {
      assert below + (left + right) == (below + [left[0]]) + [right[0]];
      TotalSizeOfOneMore(below, left[0]);
      TotalSizeOfOneMore(below + [left[0]], right[0]);
    }
  }

  lemma SplitShrinks(s: Task)
    requires Inv(s) && s.pc == Scan(SetP)
    ensures StackShape(Resume(s)) && Total(Pending(Resume(s)), Size) < Total(Pending(s), Size)
  {
    SplitPending(s);
    SplitLocal(s);
    HalvesAreSmaller(PairsOf(s.stack, Depth(s)), ResumeScan(s, SetP));
  }

  lemma WorkBounds(s: Task)
    requires Inv(s)
    ensures Total(Pending(s), Size) >= 0 && 0 <= LocalWork(s) <= 7 * |s.arr| + 19
  {
    LocalWorkBounds(s);
    TotalIsNonNegative(Pending(s), Size);
  }

  lemma WorkSplits(s: Task, s': Task)
    requires StackShape(s) && StackShape(s') && |s'.arr| == |s.arr|
    requires 0 <= Total(Pending(s'), Size) <= Total(Pending(s), Size)
    requires 0 <= LocalWork(s') < 7 * |s.arr| + 20 && 0 <= LocalWork(s)
    requires Total(Pending(s'), Size) < Total(Pending(s), Size) || LocalWork(s') < LocalWork(s)
    ensures 0 <= Work(s') < Work(s)
  {
    hide Total, Pending, LocalWork, StackShape;
    ProductDecreases(Total(Pending(s), Size), Total(Pending(s'), Size), 7 * |s.arr| + 20, LocalWork(s), LocalWork(s'));
  }

  /** Every segment of an unfinished coroutine uses up some of its remaining work. */
  lemma WorkDecreases(s: Task)
    requires Inv(s) && s.pc != Waiting
    ensures InBounds(s) && Inv(Resume(s)) && 0 <= Work(Resume(s)) < Work(s)
  {
    ResumeKeepsInv(s);
    WorkBounds(s);
    WorkBounds(Resume(s));
    if s.pc == Scan(SetP) {
      SplitShrinks(s);
    } else {
      LocalWorkDecreases(s);
    }
    WorkSplits(s, Resume(s));
  }

  /** Where a coroutine ends when nothing else runs. */
  ghost function SoloResult(s: Task): (r: Task)
    requires Inv(s)
    ensures Inv(r) && r.pc == Waiting && |r.arr| == |s.arr|
    ensures multiset(r.arr) == multiset(Content(s))
    decreases Work(s)
  {
    if s.pc == Waiting then s
    else
      WorkDecreases(s);
      ResumeKeepsInv(s);
      SoloResult(Resume(s))
  }

  lemma InitialTaskInv(numbers: seq<int>)
    requires |numbers| >= 2
    ensures Inv(InitialTask(numbers)) && Content(InitialTask(numbers)) == numbers
  {
    var s := InitialTask(numbers);
    assert Pending(s) == [(0, |numbers| - 1)];
    assert Pending(s)[0] == (0, |numbers| - 1);
  }

  lemma NothingIsPending(s: Task)
    requires StackShape(s) && s.pc == Waiting && s.top == -1
    ensures Pending(s) == []
  {
  }

  lemma FinishedIsSorted(s: Task)
    requires Inv(s) && s.pc == Waiting
    ensures Sorted(s.arr)
  {
    hide PairsOf, AreSeparate, Pending, Depth;
    NothingIsPending(s);
  }

  /** A coroutine left alone finishes with its file's numbers in order. */
  lemma SoloResultSorts(numbers: seq<int>)
    requires |numbers| >= 2
    ensures Inv(InitialTask(numbers))
    ensures var r := SoloResult(InitialTask(numbers)).arr; Sorted(r) && multiset(r) == multiset(numbers)
  {
    InitialTaskInv(numbers);
    FinishedIsSorted(SoloResult(InitialTask(numbers)));
    hide Inv, Sorted;
  }

  // ---------- Positions outside the pending ranges ----------

  ghost predicate Covered(ranges: seq<Range>, u: int) {
    exists k :: 0 <= k < |ranges| && ranges[k].0 <= u <= ranges[k].1
  }

  lemma HalvesCoverNoMore(below: seq<Range>, halves: seq<Range>, whole: Range, u: int)
    requires !Covered(below + [whole], u)
    requires forall k :: 0 <= k < |halves| ==> whole.0 <= halves[k].0 && halves[k].1 <= whole.1
    ensures !Covered(below + halves, u)
  {
    var before, after := below + [whole], below + halves;
    assert before[|below|] == whole;
    forall k | 0 <= k < |after|
      ensures !(after[k].0 <= u <= after[k].1)
    {
      if k < |below| {
        assert after[k] == before[k];
      } else {
        assert after[k] == halves[k - |below|];
      }
    }
  }

  lemma SplitCoversNoMore(s: Task, u: int)
    requires Inv(s) && s.pc == Scan(SetP) && !Covered(Pending(s), u)
    ensures Inv(Resume(s)) && !Covered(Pending(Resume(s)), u)
  {
    hide Arranged, AreSeparate, Partitioned, Covered;
    assert StackShape(s) && ScanInv(s, SetP) && !s.isFinished;
    SplitKeepsInv(s);
    SplitPending(s);
    SplitLocal(s);
    hide Inv, ScanInv;
    var s' := ResumeScan(s, SetP);
    var below := PairsOf(s.stack, Depth(s));
    var halves := Half(s', Left) + Half(s', Right);
    hide PairsOf, StackShape, LocalInv;
    HalvesCoverNoMore(below, halves, (s.l, s.h), u);
  }

  lemma ExchangeLeavesOutside(s: Task, at: ScanPoint, u: int)
    requires Inv(s) && s.pc == Scan(at) && (at == MoveJ || at == PlaceA)
    requires 0 <= u < |s.arr| && !Covered(Pending(s), u)
    ensures InBounds(s) && |Content(Resume(s))| == |s.arr| && Content(Resume(s))[u] == Content(s)[u]
  {
    RangeInHand(s);
    var r := Pending(s);
    assert !(r[|r| - 1].0 <= u <= r[|r| - 1].1);
    hide Inv;
    if at == MoveJ {
      MoveSteps(s);
    } else {
      PlaceSteps(s);
    }
  }

  lemma OutsideContentIsFinal(s: Task, u: int)
    requires Inv(s) && 0 <= u < |s.arr| && !Covered(Pending(s), u)
    ensures |Content(s)| == |s.arr| && SoloResult(s).arr[u] == Content(s)[u]
    decreases Work(s)
  {
    if s.pc != Waiting {
      WorkDecreases(s);
      ResumeKeepsInv(s);
      if s.pc == Scan(SetP) {
        SplitCoversNoMore(s, u);
        SplitKeepsInv(s);
      } else if s.pc == Scan(MoveJ) || s.pc == Scan(PlaceA) {
        ExchangeLeavesOutside(s, s.pc.at, u);
      } else {
        QuietKeepsContent(s);
      }
      OutsideContentIsFinal(Resume(s), u);
    }
  }

  /** Content and array differ only inside the range in hand. */
  lemma OutsideIsInPlace(s: Task, u: int)
    requires Inv(s) && 0 <= u < |s.arr| && !Covered(Pending(s), u)
    ensures |Content(s)| == |s.arr| && Content(s)[u] == s.arr[u]
  {
    if s.pc.Scan? {
      RangeInHand(s);
      var r := Pending(s);
      assert !(r[|r| - 1].0 <= u <= r[|r| - 1].1);
    }
  }

  /** A position outside every pending range already holds what it holds when the coroutine ends. */
  lemma OutsidePendingIsFinal(s: Task, u: int)
    requires Inv(s) && 0 <= u < |s.arr| && !Covered(Pending(s), u)
    ensures SoloResult(s).arr[u] == s.arr[u]
  {
    hide Inv, Pending, Covered, Content, SoloResult;
    OutsideIsInPlace(s, u);
    OutsideContentIsFinal(s, u);
  }

  lemma QuietKeepsContent(s: Task)
    requires Inv(s) && s.pc != Scan(SetP) && s.pc != Scan(MoveJ) && s.pc != Scan(PlaceA)
    ensures InBounds(s) && Content(Resume(s)) == Content(s)
  {
    if s.pc.Scan? {
      QuietScanKeepsInv(s, s.pc.at);
    } else {
      RangesFit(Pending(s), |s.arr|);
    }
  }
}
