/**
 * Event sources and consumers over a System V semaphore set and message
 * queue: consumers join one event of each of three types.
 */
module EventJoin {
  import opened Sequences
  import opened Sums

  type Payload = string

  datatype Message = Message(kind: nat, data: Payload)

  // ---------- The kernel objects ----------

  /** Messages of one type, in the order they were sent. */
  function OfKind(queue: seq<Message>, kind: nat): seq<Payload> {
    if queue == [] then []
    else (if queue[0].kind == kind then [queue[0].data] else []) + OfKind(queue[1..], kind)
  }

  /** Where `msgrcv` with this type finds its message: the first of that type. */
  function FirstOf(queue: seq<Message>, kind: nat): (k: nat)
    requires OfKind(queue, kind) != []
    ensures k < |queue| && queue[k].kind == kind && forall m :: 0 <= m < k ==> queue[m].kind != kind
  {
    if queue[0].kind == kind then 0 else 1 + FirstOf(queue[1..], kind)
  }

  lemma {:induction false} OfKindOfAppend(queue: seq<Message>, message: Message, kind: nat)
    ensures OfKind(queue + [message], kind) ==
      OfKind(queue, kind) + (if message.kind == kind then [message.data] else [])
  {
    if queue == [] {
      assert queue + [message] == [message];
    } else {
      var all := queue + [message];
      OfKindOfAppend(queue[1..], message, kind);
      var head := if queue[0].kind == kind then [queue[0].data] else [];
      assert all[0] == queue[0] && all[1..] == queue[1..] + [message];
      assert OfKind(all, kind) == head + OfKind(all[1..], kind);
      assert OfKind(queue, kind) == head + OfKind(queue[1..], kind);
    }
  }

  lemma OfKindOfHead(queue: seq<Message>, kind: nat)
    requires queue != []
    ensures OfKind(queue, kind) ==
      (if queue[0].kind == kind then [queue[0].data] else []) + OfKind(queue[1..], kind)
  {
  }

  lemma WithoutLater(queue: seq<Message>, k: nat)
    requires 0 < k < |queue|
    ensures WithoutAt(queue, k) == [queue[0]] + WithoutAt(queue[1..], k - 1)
  {
  }

  /** Receiving takes the oldest message of its type and leaves the other types alone. */
  lemma {:induction false} OfKindOfReceive(queue: seq<Message>, kind: nat, other: nat)
    requires OfKind(queue, kind) != []
    ensures var k := FirstOf(queue, kind);
            && queue[k].data == OfKind(queue, kind)[0]
            && OfKind(WithoutAt(queue, k), other) ==
                 if other == kind then OfKind(queue, kind)[1..] else OfKind(queue, other)
    decreases |queue|, 1
  {
    var k := FirstOf(queue, kind);
    OfKindOfHead(queue, kind);
    OfKindOfHead(queue, other);
    if k == 0 {
      assert WithoutAt(queue, k) == queue[1..];
    } else {
      OfKindOfReceiveLater(queue, kind, other);
    }
  }

  lemma {:induction false} OfKindOfReceiveLater(queue: seq<Message>, kind: nat, other: nat)
    requires OfKind(queue, kind) != [] && FirstOf(queue, kind) > 0
    ensures var k := FirstOf(queue, kind);
            && queue[k].data == OfKind(queue, kind)[0]
            && OfKind(WithoutAt(queue, k), other) ==
                 if other == kind then OfKind(queue, kind)[1..] else OfKind(queue, other)
    decreases |queue|, 0
  {
    hide OfKind, WithoutAt;
    var k, tail := FirstOf(queue, kind), queue[1..];
    OfKindOfHead(queue, kind);
    OfKindOfHead(queue, other);
    OfKindOfReceive(tail, kind, other);
    WithoutLater(queue, k);
    OfKindOfHead(WithoutAt(queue, k), other);
    assert WithoutAt(queue, k)[1..] == WithoutAt(tail, k - 1);
  }

  // ---------- The processes ----------

  const KINDS: nat := 3
  /** The semaphore that admits one consumer at a time. */
  const GATE: nat := 3

  /** A source between `send_msg` and `sem_inc` is posting. */
  datatype Source = Source(id: nat, posting: bool)

  /** A consumer outside, holding the locks with `got` received so far, or about to unlock. */
  datatype Consumer = Outside | Inside(got: seq<Payload>) | Unlocking

  datatype State = State(
    sems: seq<nat>,
    queue: seq<Message>,
    sources: seq<Source>,
    consumers: seq<Consumer>,
    sent: seq<seq<Payload>>,      // per type, everything ever sent
    joined: seq<seq<Payload>>)    // the triples received, in order

  ghost predicate IsInitial(s: State) {
    && s.sems == [0, 0, 0, 1] && s.queue == [] && s.sent == [[], [], []] && s.joined == []
    && (forall k :: 0 <= k < |s.sources| ==> s.sources[k].id < KINDS && !s.sources[k].posting)
    && (forall c :: 0 <= c < |s.consumers| ==> s.consumers[c] == Outside)
  }

  datatype Action =
    | Send(k: nat, data: Payload)
    | Post(k: nat)
    | LockEvents(c: nat)
    | Receive(c: nat)
    | UnlockEvents(c: nat)

  ghost predicate Shaped(s: State) {
    |s.sems| == 4 && |s.sent| == KINDS && forall k :: 0 <= k < |s.sources| ==> s.sources[k].id < KINDS
  }

  /** A blocked `semop` or `msgrcv` is an action that is not enabled. */
  ghost predicate Enabled(s: State, a: Action)
    requires Shaped(s)
  {
    match a
    case Send(k, _) => k < |s.sources| && !s.sources[k].posting
    case Post(k) => k < |s.sources| && s.sources[k].posting
    case LockEvents(c) =>
      c < |s.consumers| && s.consumers[c].Outside? && forall m :: 0 <= m < 4 ==> s.sems[m] >= 1
    case Receive(c) =>
      && c < |s.consumers| && s.consumers[c].Inside? && |s.consumers[c].got| < KINDS
      && OfKind(s.queue, |s.consumers[c].got|) != []
    case UnlockEvents(c) => c < |s.consumers| && s.consumers[c].Unlocking?
  }

  ghost function Next(s: State, a: Action): State
    requires Shaped(s) && Enabled(s, a)
  {
    match a
    case Send(k, data) =>
      var id := s.sources[k].id;
      s.(queue := s.queue + [Message(id, data)], sources := s.sources[k := Source(id, true)],
         sent := s.sent[id := s.sent[id] + [data]])
    case Post(k) =>
      var id := s.sources[k].id;
      s.(sems := s.sems[id := s.sems[id] + 1], sources := s.sources[k := Source(id, false)])
    case LockEvents(c) =>
      s.(sems := [s.sems[0] - 1, s.sems[1] - 1, s.sems[2] - 1, s.sems[3] - 1],
         consumers := s.consumers[c := Inside([])])
    case Receive(c) =>
      var got := s.consumers[c].got;
      var k := FirstOf(s.queue, |got|);
      var now := got + [s.queue[k].data];
      var t := s.(queue := WithoutAt(s.queue, k));
      if |now| < KINDS then t.(consumers := s.consumers[c := Inside(now)])
      else t.(consumers := s.consumers[c := Unlocking], joined := s.joined + [now])
    case UnlockEvents(c) =>
      s.(sems := s.sems[GATE := s.sems[GATE] + 1], consumers := s.consumers[c := Outside])
  }

  /** The kernel objects, changed in place by the calls the programs make, and the programs' own positions. */
  class Events {
    var sems: seq<nat>
    var queue: seq<Message>
    var sources: seq<Source>
    var consumers: seq<Consumer>
    ghost var sent: seq<seq<Payload>>
    ghost var joined: seq<seq<Payload>>

    ghost function View(): State
      reads this
    {
      State(sems, queue, sources, consumers, sent, joined)
    }

    constructor (sources: seq<Source>, consumers: nat)
      requires forall k :: 0 <= k < |sources| ==> sources[k].id < KINDS && !sources[k].posting
      ensures IsInitial(View()) && this.sources == sources && |this.consumers| == consumers
    {
      sems, queue := [0, 0, 0, 1], [];
      this.sources := sources;
      this.consumers := seq(consumers, _ => Outside);
      sent, joined := [[], [], []], [];
    }

    /** `send_msg` by source `k`. */
    method SendMsg(k: nat, data: Payload)
      requires Shaped(View()) && Enabled(View(), Send(k, data))
      modifies this
      ensures View() == Next(old(View()), Send(k, data))
    {
      var id := sources[k].id;
      queue := queue + [Message(id, data)];
      sources := sources[k := Source(id, true)];
      sent := sent[id := sent[id] + [data]];
    }

    /** `sem_inc` by source `k`. */
    method SemInc(k: nat)
      requires Shaped(View()) && Enabled(View(), Post(k))
      modifies this
      ensures View() == Next(old(View()), Post(k))
    {
      var id := sources[k].id;
      sems := sems[id := sems[id] + 1];
      sources := sources[k := Source(id, false)];
    }

    /** `semop` with -1 on all four: all of them or, while it would block, none. */
    method Decrement() returns (ok: bool)
      requires |sems| == 4
      modifies this`sems
      ensures ok <==> forall m :: 0 <= m < 4 ==> old(sems)[m] >= 1
      ensures |sems| == 4 && forall m :: 0 <= m < 4 ==> sems[m] == if ok then old(sems)[m] - 1 else old(sems)[m]
    {
      ok := true;
      for m := 0 to 4
        invariant ok <==> forall n :: 0 <= n < m ==> sems[n] >= 1
      {
        if sems[m] == 0 {
          ok := false;
          break;
        }
      }
      if ok {
        for m := 0 to 4
          invariant |sems| == 4
          invariant forall n :: 0 <= n < 4 ==> sems[n] == if n < m then old(sems)[n] - 1 else old(sems)[n]
        {
          sems := sems[m := sems[m] - 1];
        }
      }
    }

    /** `lock_events` by consumer `c`; where it would block nothing changes. */
    method LockEvents(c: nat) returns (ok: bool)
      requires Shaped(View()) && c < |consumers| && consumers[c].Outside?
      modifies this
      ensures ok <==> Enabled(old(View()), Action.LockEvents(c))
      ensures View() == if ok then Next(old(View()), Action.LockEvents(c)) else old(View())
    {
      ghost var was := sems;
      ok := Decrement();
      if ok {
        assert sems == [was[0] - 1, was[1] - 1, was[2] - 1, was[3] - 1];
        consumers := consumers[c := Inside([])];
      } else {
        assert sems == was;
      }
    }

    /** `msgrcv` of one type, once there is such a message. */
    method Take(kind: nat) returns (data: Payload)
      requires OfKind(queue, kind) != []
      modifies this`queue
      ensures data == OfKind(old(queue), kind)[0] == old(queue)[FirstOf(old(queue), kind)].data
      ensures queue == WithoutAt(old(queue), FirstOf(old(queue), kind))
    {
      OfKindOfReceive(queue, kind, kind);
      var k := 0;
      while queue[k].kind != kind
        invariant k <= FirstOf(queue, kind)
        decreases FirstOf(queue, kind) - k
      {
        k := k + 1;
      }
      data := queue[k].data;
      queue := queue[..k] + queue[k + 1..];
    }

    /** `recv_msg` by consumer `c`, of the type after those it has. */
    method RecvMsg(c: nat)
      requires Shaped(View()) && Enabled(View(), Receive(c))
      modifies this
      ensures View() == Next(old(View()), Receive(c))
    {
      var got := consumers[c].got;
      var data := Take(|got|);
      got := got + [data];
      if |got| < KINDS {
        consumers := consumers[c := Inside(got)];
      } else {
        consumers := consumers[c := Unlocking];
        joined := joined + [got];
      }
    }

    /** `unlock_events` by consumer `c`. */
    method UnlockEvents(c: nat)
      requires Shaped(View()) && Enabled(View(), Action.UnlockEvents(c))
      modifies this
      ensures View() == Next(old(View()), Action.UnlockEvents(c))
    {
      sems := sems[GATE := sems[GATE] + 1];
      consumers := consumers[c := Outside];
    }
  }

  // ---------- Invariant ----------

  ghost function Posting(kind: nat): Source -> int {
    (x: Source) => if x.posting && x.id == kind then 1 else 0
  }

  /** `h` is the consumer that holds the gate, or their number if none does. */
  ghost predicate HeldBy(s: State, h: nat)
    requires Shaped(s)
  {
    && h <= |s.consumers|
    && s.sems[GATE] == (if h < |s.consumers| then 0 else 1)
    && forall c :: 0 <= c < |s.consumers| ==> (s.consumers[c].Outside? <==> c != h)
  }

  /** Received by the consumer inside and not yet a whole triple. */
  ghost function InHand(s: State, h: nat): seq<Payload> {
    if h < |s.consumers| && s.consumers[h].Inside? then s.consumers[h].got else []
  }

  /** 1 while the consumer inside has claimed a message of this type and not received it. */
  ghost function Claimed(s: State, h: nat, kind: nat): nat {
    if h < |s.consumers| && s.consumers[h].Inside? && |s.consumers[h].got| <= kind then 1 else 0
  }

  /** Messages of this type received so far. */
  ghost function Received(s: State, h: nat, kind: nat): nat {
    |s.joined| + if |InHand(s, h)| > kind then 1 else 0
  }

  ghost predicate KindInv(s: State, h: nat, kind: nat)
    requires Shaped(s) && kind < KINDS
  {
    // every queued message is posted, about to be posted, or claimed
    && |OfKind(s.queue, kind)| == s.sems[kind] + Total(s.sources, Posting(kind)) + Claimed(s, h, kind)
    // and the queue holds exactly what was sent and not yet received
    && Received(s, h, kind) <= |s.sent[kind]|
    && OfKind(s.queue, kind) == s.sent[kind][Received(s, h, kind)..]
    && (forall m :: 0 <= m < |s.joined| ==> |s.joined[m]| == KINDS && s.joined[m][kind] == s.sent[kind][m])
    && (|InHand(s, h)| > kind ==> InHand(s, h)[kind] == s.sent[kind][|s.joined|])
  }

  ghost predicate Inv(s: State, h: nat) {
    && Shaped(s) && HeldBy(s, h)
    && |InHand(s, h)| < KINDS
    && KindInv(s, h, 0) && KindInv(s, h, 1) && KindInv(s, h, 2)
  }

  lemma {:induction false} NobodyPosting(sources: seq<Source>, kind: nat)
    requires forall k :: 0 <= k < |sources| ==> !sources[k].posting
    ensures Total(sources, Posting(kind)) == 0
  {
    if sources != [] {
      NobodyPosting(sources[1..], kind);
    }
  }

  lemma InitialKindInv(s: State, kind: nat)
    requires IsInitial(s) && kind < KINDS
    ensures KindInv(s, |s.consumers|, kind)
  {
    NobodyPosting(s.sources, kind);
    hide Total;
    assert OfKind(s.queue, kind) == [];
    assert s.sems[kind] == 0 && s.sent[kind] == [];
  }

  lemma InitialInv(s: State)
    requires IsInitial(s)
    ensures Inv(s, |s.consumers|)
  {
    InitialKindInv(s, 0);
    InitialKindInv(s, 1);
    InitialKindInv(s, 2);
    hide KindInv;
  }

  /** A message sent is one about to be posted. */
  lemma SendMovesCount(s: State, a: Action, kind: nat)
    requires Shaped(s) && a.Send? && Enabled(s, a) && kind < KINDS
    ensures Shaped(Next(s, a)) && Next(s, a).sems == s.sems
    ensures Total(Next(s, a).sources, Posting(kind)) ==
      Total(s.sources, Posting(kind)) + if s.sources[a.k].id == kind then 1 else 0
  {
    hide Total;
    TotalOfUpdate(s.sources, a.k, Next(s, a).sources[a.k], Posting(kind));
  }

  lemma SendKeepsKind(s: State, h: nat, a: Action, kind: nat)
    requires Inv(s, h) && a.Send? && Enabled(s, a) && kind < KINDS
    ensures Shaped(Next(s, a)) && KindInv(Next(s, a), h, kind)
  {
    hide OfKind, Total, Posting;
    assert KindInv(s, h, kind);
    SendMovesCount(s, a, kind);
    OfKindOfAppend(s.queue, Message(s.sources[a.k].id, a.data), kind);
    var n, sent := Received(s, h, kind), s.sent[kind];
    assert (sent + [a.data])[n..] == sent[n..] + [a.data];
  }

  /** A message about to be posted becomes a posted one. */
  lemma PostMovesCount(s: State, a: Action, kind: nat)
    requires Shaped(s) && a.Post? && Enabled(s, a) && kind < KINDS
    ensures var t := Next(s, a);
            && Shaped(t)
            && t.sems[kind] + Total(t.sources, Posting(kind)) == s.sems[kind] + Total(s.sources, Posting(kind))
  {
    hide Total;
    TotalOfUpdate(s.sources, a.k, Next(s, a).sources[a.k], Posting(kind));
  }

  lemma PostKeepsKind(s: State, h: nat, a: Action, kind: nat)
    requires Inv(s, h) && a.Post? && Enabled(s, a) && kind < KINDS
    ensures Shaped(Next(s, a)) && KindInv(Next(s, a), h, kind)
  {
    hide OfKind, Total, Posting;
    assert KindInv(s, h, kind);
    PostMovesCount(s, a, kind);
  }

  /** What a receive changes, and what it leaves. */
  lemma ReceiveMoves(s: State, h: nat, a: Action)
    requires Inv(s, h) && a.Receive? && Enabled(s, a)
    ensures h == a.c && Shaped(Next(s, a)) && InHand(s, h) == s.consumers[h].got
    ensures var t, got := Next(s, a), s.consumers[h].got;
            var now := got + [OfKind(s.queue, |got|)[0]];
            && t.sems == s.sems && t.sources == s.sources && t.sent == s.sent
            && t.queue == WithoutAt(s.queue, FirstOf(s.queue, |got|))
            && (forall kind: nat :: kind < KINDS ==> Claimed(t, h, kind) == if |got| < kind then 1 else 0)
            && (forall kind: nat :: kind < KINDS ==> Claimed(s, h, kind) == if |got| <= kind then 1 else 0)
            && if |now| < KINDS then t.joined == s.joined && InHand(t, h) == now
               else t.joined == s.joined + [now] && InHand(t, h) == []
  {
    hide KindInv, OfKind, Total, Posting;
    OfKindOfReceive(s.queue, |s.consumers[a.c].got|, 0);
  }

  lemma ReceiveKeepsOwnKind(s: State, h: nat, a: Action, kind: nat)
    requires Inv(s, h) && a.Receive? && Enabled(s, a) && kind == |s.consumers[a.c].got|
    ensures h == a.c && Shaped(Next(s, a)) && KindInv(Next(s, a), h, kind)
  {
    hide OfKind, Total, FirstOf, WithoutAt, Posting, Next, Claimed, InHand;
    assert KindInv(s, h, kind);
    ReceiveMoves(s, h, a);
    OfKindOfReceive(s.queue, kind, kind);
    var n, sent := |s.joined|, s.sent[kind];
    assert sent[n..][0] == sent[n] && sent[n..][1..] == sent[n + 1..];
  }

  lemma ReceiveKeepsOtherKind(s: State, h: nat, a: Action, kind: nat)
    requires Inv(s, h) && a.Receive? && Enabled(s, a) && kind < KINDS && kind != |s.consumers[a.c].got|
    ensures h == a.c && Shaped(Next(s, a)) && KindInv(Next(s, a), h, kind)
  {
    hide OfKind, Total, FirstOf, WithoutAt, Posting, Next, Claimed, InHand;
    assert KindInv(s, h, kind);
    ReceiveMoves(s, h, a);
    OfKindOfReceive(s.queue, |s.consumers[h].got|, kind);
  }

  lemma ReceiveKeepsKind(s: State, h: nat, a: Action, kind: nat)
    requires Inv(s, h) && a.Receive? && Enabled(s, a) && kind < KINDS
    ensures h == a.c && Shaped(Next(s, a)) && KindInv(Next(s, a), h, kind)
  {
    if kind == |s.consumers[a.c].got| {
      ReceiveKeepsOwnKind(s, h, a, kind);
    } else {
      ReceiveKeepsOtherKind(s, h, a, kind);
    }
  }

  lemma LockKeepsKind(s: State, h: nat, a: Action, kind: nat)
    requires Inv(s, h) && a.LockEvents? && Enabled(s, a) && kind < KINDS
    ensures h == |s.consumers| && Shaped(Next(s, a)) && KindInv(Next(s, a), a.c, kind)
  {
    assert s.sems[GATE] >= 1;
    assert KindInv(s, h, kind);
  }

  lemma UnlockKeepsKind(s: State, h: nat, a: Action, kind: nat)
    requires Inv(s, h) && a.UnlockEvents? && Enabled(s, a) && kind < KINDS
    ensures Shaped(Next(s, a)) && KindInv(Next(s, a), |s.consumers|, kind)
  {
    assert KindInv(s, h, kind);
    hide OfKind, Total;
  }

  /** Every action of every source and consumer keeps the accounting. */
  lemma ActionKeepsInv(s: State, h: nat, a: Action) returns (h': nat)
    requires Inv(s, h) && Enabled(s, a)
    ensures Inv(Next(s, a), h')
  {
    hide KindInv, OfKind, Total, FirstOf, WithoutAt;
    h' := h;
    match a
    case Send(_, _) =>
      SendKeepsKind(s, h, a, 0);
      SendKeepsKind(s, h, a, 1);
      SendKeepsKind(s, h, a, 2);
    case Post(_) =>
      PostKeepsKind(s, h, a, 0);
      PostKeepsKind(s, h, a, 1);
      PostKeepsKind(s, h, a, 2);
    case LockEvents(c) =>
      LockKeepsKind(s, h, a, 0);
      LockKeepsKind(s, h, a, 1);
      LockKeepsKind(s, h, a, 2);
      h' := c;
    case Receive(_) =>
      ReceiveKeepsKind(s, h, a, 0);
      ReceiveKeepsKind(s, h, a, 1);
      ReceiveKeepsKind(s, h, a, 2);
    case UnlockEvents(_) =>
      UnlockKeepsKind(s, h, a, 0);
      UnlockKeepsKind(s, h, a, 1);
      UnlockKeepsKind(s, h, a, 2);
      h' := |s.consumers|;
  }

  // ---------- Whole runs ----------

  ghost predicate Leads(s: State, run: seq<Action>, end: State)
    decreases |run|
  {
    if run == [] then s == end
    else Shaped(s) && Enabled(s, run[0]) && Leads(Next(s, run[0]), run[1..], end)
  }

  lemma {:induction false} RunKeepsInv(s: State, h: nat, run: seq<Action>, end: State) returns (h': nat)
    requires Inv(s, h) && Leads(s, run, end)
    ensures Inv(end, h')
    decreases |run|
  {
    h' := h;
    if run != [] {
      h' := ActionKeepsInv(s, h, run[0]);
      h' := RunKeepsInv(Next(s, run[0]), h', run[1..], end);
    }
  }

  lemma PostingIsNonNegative(sources: seq<Source>, kind: nat)
    ensures Total(sources, Posting(kind)) >= 0
  {
    TotalIsNonNegative(sources, Posting(kind));
  }

  lemma InsideCanReceive(s: State, h: nat, c: nat)
    requires Inv(s, h) && c < |s.consumers| && s.consumers[c].Inside?
    ensures Enabled(s, Receive(c))
  {
    var stage := |s.consumers[c].got|;
    assert InHand(s, h) == s.consumers[c].got;
    assert KindInv(s, h, stage);
    PostingIsNonNegative(s.sources, stage);
  }

  /** A consumer that holds the locks finds the message it asks for: `msgrcv` never blocks it. */
  lemma ConsumerNeverBlocks(start: State, run: seq<Action>, s: State, c: nat)
    requires IsInitial(start) && Leads(start, run, s) && c < |s.consumers|
    ensures Shaped(s)
    ensures s.consumers[c].Inside? ==> Enabled(s, Receive(c))
  {
    InitialInv(start);
    var h := RunKeepsInv(start, |start.consumers|, run, s);
    if s.consumers[c].Inside? {
      InsideCanReceive(s, h, c);
    }
  }

  ghost predicate JoinedInOrder(s: State) {
    && |s.sent| == KINDS
    && forall m, kind :: 0 <= m < |s.joined| && 0 <= kind < KINDS ==>
         |s.joined[m]| == KINDS && m < |s.sent[kind]| && s.joined[m][kind] == s.sent[kind][m]
  }

  ghost predicate AtMostOneInside(s: State) {
    forall c, d :: 0 <= c < |s.consumers| && 0 <= d < |s.consumers| ==>
      !s.consumers[c].Outside? && !s.consumers[d].Outside? ==> c == d
  }

  lemma InvOrdersTriples(s: State, h: nat)
    requires Inv(s, h)
    ensures JoinedInOrder(s) && AtMostOneInside(s)
  {
    hide OfKind, Total, Posting;
    forall m, kind | 0 <= m < |s.joined| && 0 <= kind < KINDS
      ensures |s.joined[m]| == KINDS && m < |s.sent[kind]| && s.joined[m][kind] == s.sent[kind][m]
    {
      assert KindInv(s, h, kind);
    }
  }

  /** The m-th triple joined is made of the m-th message sent of each type, and only one consumer joins at a time. */
  lemma TriplesAreInOrder(start: State, run: seq<Action>, s: State)
    requires IsInitial(start) && Leads(start, run, s)
    ensures JoinedInOrder(s) && AtMostOneInside(s)
  {
    hide Inv, JoinedInOrder, AtMostOneInside, Leads, IsInitial;
    InitialInv(start);
    var h := RunKeepsInv(start, |start.consumers|, run, s);
    InvOrdersTriples(s, h);
  }

  /** The payloads a run sends of one type, in order; the sources keep their types. */
  ghost function SentIn(sources: seq<Source>, run: seq<Action>, kind: nat): seq<Payload> {
    if run == [] then []
    else
      (if run[0].Send? && run[0].k < |sources| && sources[run[0].k].id == kind then [run[0].data] else [])
      + SentIn(sources, run[1..], kind)
  }

  ghost predicate SameTypes(a: seq<Source>, b: seq<Source>) {
    |a| == |b| && forall k :: 0 <= k < |a| ==> a[k].id == b[k].id
  }

  lemma {:induction false} SentInSameTypes(a: seq<Source>, b: seq<Source>, run: seq<Action>, kind: nat)
    requires SameTypes(a, b)
    ensures SentIn(a, run, kind) == SentIn(b, run, kind)
    decreases |run|
  {
    if run != [] {
      SentInSameTypes(a, b, run[1..], kind);
    }
  }

  lemma ActionSends(s: State, a: Action, kind: nat)
    requires Shaped(s) && Enabled(s, a) && kind < KINDS
    ensures Shaped(Next(s, a)) && SameTypes(s.sources, Next(s, a).sources)
    ensures Next(s, a).sent[kind] ==
      s.sent[kind] + if a.Send? && s.sources[a.k].id == kind then [a.data] else []
  {
    hide FirstOf, WithoutAt, OfKind;
  }

  lemma {:induction false} SentIsHistory(s: State, run: seq<Action>, end: State, kind: nat)
    requires Shaped(s) && Leads(s, run, end) && kind < KINDS
    ensures Shaped(end) && end.sent[kind] == s.sent[kind] + SentIn(s.sources, run, kind)
    decreases |run|
  {
    if run == [] {
      assert s.sent[kind] + [] == s.sent[kind];
    } else {
      var t := Next(s, run[0]);
      ActionSends(s, run[0], kind);
      SentInSameTypes(s.sources, t.sources, run[1..], kind);
      SentIsHistory(t, run[1..], end, kind);
      hide Enabled, Next;
      assert end.sent[kind] == s.sent[kind] + SentIn(s.sources, run, kind);
    }
  }

  lemma InvAccounts(s: State, h: nat, kind: nat) returns (hand: seq<Payload>)
    requires Inv(s, h) && kind < KINDS
    ensures var sent := s.sent[kind];
            && |hand| <= 1 && |s.joined| + |hand| <= |sent|
            && (forall m :: 0 <= m < |s.joined| ==> |s.joined[m]| == KINDS && s.joined[m][kind] == sent[m])
            && (hand != [] ==> hand[0] == sent[|s.joined|])
            && (hand != [] ==> exists c :: 0 <= c < |s.consumers| && s.consumers[c].Inside?
                                 && kind < |s.consumers[c].got| && s.consumers[c].got[kind] == hand[0])
            && OfKind(s.queue, kind) == sent[|s.joined| + |hand|..]
  {
    hide OfKind, Total, Posting;
    hand := if |InHand(s, h)| > kind then [InHand(s, h)[kind]] else [];
    assert KindInv(s, h, kind);
  }

  /**
   * Of what the sources sent of each type in a run, in order, the first are in
   * the triples joined, one in the hands of a consumer perhaps, and the rest in the queue.
   */
  lemma MessagesAreAccounted(start: State, run: seq<Action>, s: State, kind: nat) returns (hand: seq<Payload>)
    requires IsInitial(start) && Leads(start, run, s) && kind < KINDS
    ensures var sent := SentIn(start.sources, run, kind);
            && |hand| <= 1 && |s.joined| + |hand| <= |sent|
            && (forall m :: 0 <= m < |s.joined| ==> |s.joined[m]| == KINDS && s.joined[m][kind] == sent[m])
            && (hand != [] ==> hand[0] == sent[|s.joined|])
            && (hand != [] ==> exists c :: 0 <= c < |s.consumers| && s.consumers[c].Inside?
                                 && kind < |s.consumers[c].got| && s.consumers[c].got[kind] == hand[0])
            && OfKind(s.queue, kind) == sent[|s.joined| + |hand|..]
  {
    InitialInv(start);
    var h := RunKeepsInv(start, |start.consumers|, run, s);
    SentIsHistory(start, run, s, kind);
    assert start.sent[kind] + SentIn(start.sources, run, kind) == SentIn(start.sources, run, kind);
    hide *;
    hand := InvAccounts(s, h, kind);
  }

  /** With no process between its calls, each semaphore counts the queued messages of its type. */
  lemma SemaphoresCountMessages(start: State, run: seq<Action>, s: State, kind: nat)
    requires IsInitial(start) && Leads(start, run, s) && kind < KINDS
    requires forall k :: 0 <= k < |s.sources| ==> !s.sources[k].posting
    requires forall c :: 0 <= c < |s.consumers| ==> s.consumers[c].Outside?
    ensures Shaped(s) && s.sems[kind] == |OfKind(s.queue, kind)| && s.sems[kind] == |s.sent[kind]| - |s.joined|
  {
    InitialInv(start);
    var h := RunKeepsInv(start, |start.consumers|, run, s);
    assert KindInv(s, h, kind);
    NobodyPosting(s.sources, kind);
  }

  // ---------- Runs that come to rest ----------

  ghost function MayPost(x: Source): int {
    if x.posting then 1 else 0
  }

  /** Steps a consumer inside still makes. */
  ghost function StepsLeft(c: Consumer): int {
    match c
    case Outside => 0
    case Inside(got) => KINDS + 1 - |got|
    case Unlocking => 1
  }

  /** Drops with every action but a `Send`. */
  ghost function Remaining(s: State): int
    requires Shaped(s)
  {
    6 * Total(s.sources, MayPost) + 5 * s.sems[0] + Total(s.consumers, StepsLeft)
  }

  /** No source is posting, all consumers are outside and none can enter. */
  ghost predicate IsAtRest(s: State)
    requires Shaped(s)
  {
    && (forall k :: 0 <= k < |s.sources| ==> !s.sources[k].posting)
    && (forall c :: 0 <= c < |s.consumers| ==> s.consumers[c].Outside? && !Enabled(s, LockEvents(c)))
  }

  ghost predicate SendsNothing(run: seq<Action>) {
    forall k :: 0 <= k < |run| ==> !run[k].Send?
  }

  lemma RemainingIsNonNegative(s: State, h: nat)
    requires Inv(s, h)
    ensures Remaining(s) >= 0
  {
    forall c | 0 <= c < |s.consumers|
      ensures StepsLeft(s.consumers[c]) >= 0
    {
      assert s.consumers[c].Inside? ==> InHand(s, h) == s.consumers[c].got;
    }
    TotalIsNonNegative(s.sources, MayPost);
    TotalIsNonNegative(s.consumers, StepsLeft);
  }

  lemma ActionUsesUp(s: State, h: nat, a: Action)
    requires Inv(s, h) && Enabled(s, a) && !a.Send?
    ensures Shaped(Next(s, a)) && Remaining(Next(s, a)) < Remaining(s)
    ensures Next(s, a).sent == s.sent && |Next(s, a).consumers| == |s.consumers|
  {
    hide KindInv, Total, OfKind;
    var t := Next(s, a);
    match a
    case Post(k) => TotalOfUpdate(s.sources, k, t.sources[k], MayPost);
    case LockEvents(c) => TotalOfUpdate(s.consumers, c, t.consumers[c], StepsLeft);
    case Receive(c) => TotalOfUpdate(s.consumers, c, t.consumers[c], StepsLeft);
    case UnlockEvents(c) => TotalOfUpdate(s.consumers, c, t.consumers[c], StepsLeft);
  }

  lemma SomeoneCanMove(s: State, h: nat) returns (a: Action)
    requires Inv(s, h) && !IsAtRest(s)
    ensures Enabled(s, a) && !a.Send?
  {
    hide KindInv, HeldBy, OfKind;
    if k :| 0 <= k < |s.sources| && s.sources[k].posting {
      a := Post(k);
    } else {
      var c :| 0 <= c < |s.consumers| && (!s.consumers[c].Outside? || Enabled(s, LockEvents(c)));
      match s.consumers[c]
      case Inside(_) =>
        InsideCanReceive(s, h, c);
        a := Receive(c);
      case Unlocking => a := UnlockEvents(c);
      case Outside => a := LockEvents(c);
    }
  }

  lemma {:induction false} ComesToRest(s: State, h: nat) returns (run: seq<Action>, end: State, h': nat)
    requires Inv(s, h)
    ensures Leads(s, run, end) && SendsNothing(run) && Inv(end, h') && IsAtRest(end)
    ensures end.sent == s.sent && |end.consumers| == |s.consumers|
    decreases Remaining(s)
  {
    hide KindInv, HeldBy, Remaining, IsAtRest;
    RemainingIsNonNegative(s, h);
    run, end, h' := [], s, h;
    if !IsAtRest(s) {
      var a := SomeoneCanMove(s, h);
      ActionUsesUp(s, h, a);
      var h1 := ActionKeepsInv(s, h, a);
      RemainingIsNonNegative(Next(s, a), h1);
      var rest;
      rest, end, h' := ComesToRest(Next(s, a), h1);
      run := [a] + rest;
      assert run[1..] == rest;
    }
  }

  /** No run goes on for ever without a `Send`. */
  lemma {:induction false} QuietRunsAreBounded(s: State, h: nat, run: seq<Action>, end: State)
    requires Inv(s, h) && Leads(s, run, end) && SendsNothing(run)
    ensures |run| <= Remaining(s)
    decreases |run|
  {
    hide KindInv, HeldBy, Remaining;
    RemainingIsNonNegative(s, h);
    if run != [] {
      ActionUsesUp(s, h, run[0]);
      var h' := ActionKeepsInv(s, h, run[0]);
      QuietRunsAreBounded(Next(s, run[0]), h', run[1..], end);
    }
  }

  /** At rest, with a consumer to wait, every triple that can be joined is. */
  lemma RestJoinsAll(s: State, h: nat)
    requires Inv(s, h) && IsAtRest(s) && s.consumers != []
    ensures |s.joined| <= |s.sent[0]| && |s.joined| <= |s.sent[1]| && |s.joined| <= |s.sent[2]|
    ensures |s.joined| == |s.sent[0]| || |s.joined| == |s.sent[1]| || |s.joined| == |s.sent[2]|
  {
    hide Total, OfKind, Posting;
    NobodyPosting(s.sources, 0);
    NobodyPosting(s.sources, 1);
    NobodyPosting(s.sources, 2);
    assert s.consumers[0].Outside? && !Enabled(s, LockEvents(0));
    assert h == |s.consumers|;
  }

  /**
   * From every reachable state, if nothing more is sent, the run can go on
   * until nobody has anything left to do; by then as many triples are joined as
   * there are messages of the type sent least.
   */
  lemma EveryRunComesToRest(start: State, run: seq<Action>, s: State) returns (more: seq<Action>, end: State)
    requires IsInitial(start) && Leads(start, run, s)
    ensures Shaped(s) && Leads(s, more, end) && SendsNothing(more) && end.sent == s.sent
    ensures Shaped(end) && IsAtRest(end)
    ensures s.consumers != [] ==>
      && |end.joined| <= |s.sent[0]| && |end.joined| <= |s.sent[1]| && |end.joined| <= |s.sent[2]|
      && (|end.joined| == |s.sent[0]| || |end.joined| == |s.sent[1]| || |end.joined| == |s.sent[2]|)
  {
    InitialInv(start);
    var h := RunKeepsInv(start, |start.consumers|, run, s);
    var h';
    more, end, h' := ComesToRest(s, h);
    if s.consumers != [] {
      RestJoinsAll(end, h');
    }
  }
}
