/** The output buffer of a connection over whole runs of reads and writes. */
module OutputBuffer {
  import opened Connection
  import opened Protocol

  /** Every answer owed for these calls, in order. */
  function Owed(respond: Responder, calls: seq<Call>): string {
    if calls == [] then "" else Owed(respond, calls[..|calls| - 1]) + (respond(calls) + "\r\n")
  }

  /** One `DoRead`, with what the socket had, or one `DoWrite`, with what `send` returned. */
  datatype Event = Received(chunks: seq<string>, end: ReadEnd) | Wrote(sendResult: int)

  /** `send` takes a prefix of the buffer, nothing, or fails. */
  predicate IsPossible(c: Conn, e: Event) {
    e.Wrote? ==> -1 <= e.sendResult <= |c.results|
  }

  function After(respond: Responder, c: Conn, e: Event): (r: Conn)
    requires Ready(c) && IsPossible(c, e)
    ensures Ready(r)
  {
    match e
    case Received(chunks, end) => AfterReads(respond, c, chunks, end)
    case Wrote(n) => Written(c, n)
  }

  /** Bytes the socket took, then bytes still held, are exactly the answers owed. */
  predicate IsConserved(respond: Responder, c: Conn) {
    c.sent + c.results == Owed(respond, c.calls)
  }

  /** Answer bytes that are neither sent nor held. */
  function Missing(respond: Responder, c: Conn): int {
    |Owed(respond, c.calls)| - |c.sent| - |c.results|
  }

  /** A byte adds the same answer, if any, to what is held and to what is owed. */
  lemma ByteAnswers(respond: Responder, c: Conn, b: char) returns (answer: string)
    requires Ready(c)
    ensures var d := TakeByte(respond, c, b);
            && d.results == c.results + answer && d.sent == c.sent
            && Owed(respond, d.calls) == Owed(respond, c.calls) + answer
            && d.wantsOut == (c.wantsOut || answer != "")
  {
    var d := TakeByte(respond, c, b);
    if d.calls == c.calls {
      answer := "";
    } else {
      answer := respond(d.calls) + "\r\n";
      assert d.calls[..|d.calls| - 1] == c.calls;
    }
  }

  lemma {:induction false} BytesAnswer(respond: Responder, c: Conn, s: string) returns (answer: string)
    requires Ready(c)
    ensures var d := TakeBytes(respond, c, s);
            && d.results == c.results + answer && d.sent == c.sent
            && Owed(respond, d.calls) == Owed(respond, c.calls) + answer
            && d.wantsOut == (c.wantsOut || answer != "")
    decreases |s|
  {
    hide Owed, TakeByte;
    answer := "";
    if s != "" {
      var first := ByteAnswers(respond, c, s[0]);
      var rest := BytesAnswer(respond, TakeByte(respond, c, s[0]), s[1..]);
      answer := first + rest;
    }
  }

  /** A read takes its bytes, and closes the connection if it fails. */
  lemma ReadsAreBytes(respond: Responder, c: Conn, chunks: seq<string>, end: ReadEnd)
    requires Ready(c)
    ensures var d := TakeBytes(respond, c, Joined(chunks));
            AfterReads(respond, c, chunks, end) == d.(alive := d.alive && end != ReadFailed)
  {
    ChunksAreBytes(respond, c, chunks);
    hide TakeChunks, TakeBytes;
  }

  /** A write throws answers away exactly when `send` failed with something to send. */
  predicate IsLossy(c: Conn, e: Event) {
    e.Wrote? && e.sendResult == -1 && c.results != ""
  }

  lemma EventKeepsAnswers(respond: Responder, c: Conn, e: Event)
    requires Ready(c) && IsPossible(c, e)
    ensures var d := After(respond, c, e);
            && Missing(respond, d) == Missing(respond, c) + (if IsLossy(c, e) then |c.results| else 0)
            && (IsConserved(respond, c) && !IsLossy(c, e) ==> IsConserved(respond, d))
            && ((c.wantsOut <==> c.results != "") ==> (d.wantsOut <==> d.results != ""))
  {
    match e
    case Received(chunks, end) =>
      ReadsAreBytes(respond, c, chunks, end);
      var answer := BytesAnswer(respond, c, Joined(chunks));
      hide TakeBytes, AfterReads;
      assert c.sent + c.results + answer == c.sent + (c.results + answer);
    case Wrote(n) =>
      if 0 <= n <= |c.results| {
        assert c.results == c.results[..n] + c.results[n..];
        assert c.sent + c.results[..n] + c.results[n..] == c.sent + c.results;
      }
  }

  /** A run from here to there, and whether some write in it was lossy. */
  ghost predicate Leads(respond: Responder, c: Conn, run: seq<Event>, d: Conn, lossy: bool)
    requires Ready(c)
    decreases |run|
  {
    if run == [] then c == d && !lossy
    else
      && IsPossible(c, run[0])
      && if IsLossy(c, run[0]) then lossy && exists l :: Leads(respond, After(respond, c, run[0]), run[1..], d, l)
         else Leads(respond, After(respond, c, run[0]), run[1..], d, lossy)
  }

  lemma {:induction false} RunKeepsAnswers(respond: Responder, c: Conn, run: seq<Event>, d: Conn, lossy: bool)
    requires Ready(c) && Leads(respond, c, run, d, lossy)
    requires c.wantsOut <==> c.results != ""
    ensures Missing(respond, d) >= Missing(respond, c)
    ensures lossy ==> Missing(respond, d) > Missing(respond, c)
    ensures IsConserved(respond, c) && !lossy ==> IsConserved(respond, d)
    ensures d.wantsOut <==> d.results != ""
    decreases |run|
  {
    if run != [] {
      EventKeepsAnswers(respond, c, run[0]);
      var next := After(respond, c, run[0]);
      if IsLossy(c, run[0]) {
        var l :| Leads(respond, next, run[1..], d, l);
        RunKeepsAnswers(respond, next, run[1..], d, l);
      } else {
        RunKeepsAnswers(respond, next, run[1..], d, lossy);
      }
    }
  }

  ghost predicate IsFresh(c: Conn) {
    Ready(c) && c.calls == [] && c.results == "" && c.sent == "" && !c.wantsOut
  }

  /**
   * Over any run the bytes sent and the bytes held are the answers owed, exactly
   * when no failed `send` had something to send; and writes are asked for
   * exactly while something is held.
   */
  lemma AnswersAreConservedIff(respond: Responder, c: Conn, run: seq<Event>, d: Conn, lossy: bool)
    requires IsFresh(c) && Leads(respond, c, run, d, lossy)
    ensures IsConserved(respond, d) <==> !lossy
    ensures d.wantsOut <==> d.results != ""
  {
    RunKeepsAnswers(respond, c, run, d, lossy);
  }

  // ---------- The two sides of a connection ----------

  /** All but the output buffer, and what was sent of it. */
  predicate SameInput(c: Conn, d: Conn) {
    && d.parser == c.parser && d.pending == c.pending && d.argRemains == c.argRemains
    && d.argument == c.argument && d.calls == c.calls && d.alive == c.alive
  }

  /**
   * A write moves bytes from the front of the buffer to the socket, as many as
   * `send` took; a failed one empties the buffer. It leaves the reading of
   * requests alone, and closes the connection exactly if `send` returned 0.
   */
  lemma WriteTakesFront(c: Conn, n: int)
    requires -1 <= n <= |c.results|
    ensures var d := Written(c, n);
            && SameInput(c.(alive := c.alive && n != 0), d)
            && d.sent == c.sent + c.results[..if n == -1 then 0 else n]
            && d.results == c.results[if n == -1 then |c.results| else n..]
            && d.wantsOut == if n == 0 then c.wantsOut else 0 < n < |c.results|
  {
    assert c.results[..|c.results|] == c.results && c.results[|c.results|..] == "";
  }

  /** `send` took nothing, or a read failed. */
  predicate EndsIt(e: Event) {
    e == Wrote(0) || (e.Received? && e.end.ReadFailed?)
  }

  /** Everything received in a run. */
  function BytesOf(run: seq<Event>): string {
    if run == [] then "" else (if run[0].Received? then Joined(run[0].chunks) else "") + BytesOf(run[1..])
  }

  lemma SameInputLine(respond: Responder, c: Conn, d: Conn)
    requires IsSound(c.parser) && SameInput(c, d)
    ensures SameInput(LineDone(respond, c), LineDone(respond, d))
  {
    hide CommandOf, Cleared, IsSound;
  }

  lemma SameInputByte(respond: Responder, c: Conn, d: Conn, b: char)
    requires Ready(c) && SameInput(c, d)
    ensures Ready(d) && SameInput(TakeByte(respond, c, b), TakeByte(respond, d, b))
  {
    hide Feed, CommandOf, Cleared, LineDone;
    if c.pending.None? && Feed(c.parser, b).Fed? {
      var f := Feed(c.parser, b).fields;
      FeedKeepsSoundUnless(c, b);
      if IsSound(f) {
        SameInputLine(respond, c.(parser := f), d.(parser := f));
      }
    }
  }

  lemma FeedKeepsSoundUnless(c: Conn, b: char)
    requires Ready(c) && c.pending.None? && Feed(c.parser, b).Fed?
    ensures c.alive ==> IsSound(Feed(c.parser, b).fields)
  {
    hide Feed, IsSound;
    if c.alive {
      FeedKeepsSound(c.parser, b);
    }
  }

  lemma {:induction false} SameInputBytes(respond: Responder, c: Conn, d: Conn, s: string)
    requires Ready(c) && SameInput(c, d)
    ensures Ready(d) && SameInput(TakeBytes(respond, c, s), TakeBytes(respond, d, s))
    decreases |s|
  {
    if s != "" {
      SameInputByte(respond, c, d, s[0]);
      SameInputBytes(respond, TakeByte(respond, c, s[0]), TakeByte(respond, d, s[0]), s[1..]);
    } else {
      SameInputByte(respond, c, d, ' ');
    }
  }

  lemma DeadStaysDead(respond: Responder, c: Conn, e: Event)
    requires Ready(c) && IsPossible(c, e) && (!c.alive || EndsIt(e))
    ensures !After(respond, c, e).alive
  {
    if e.Received? {
      ReadsAreBytes(respond, c, e.chunks, e.end);
      if !c.alive {
        DeadTakesNothing(respond, c, Joined(e.chunks));
      }
    } else {
      WriteTakesFront(c, e.sendResult);
    }
  }

  /** An event that does not end the connection does what its bytes do. */
  lemma EventTakesBytes(respond: Responder, c: Conn, e: Event)
    requires Ready(c) && IsPossible(c, e) && !EndsIt(e)
    ensures SameInput(TakeBytes(respond, c, BytesOf([e])), After(respond, c, e))
  {
    assert [e][1..] == [] && BytesOf([]) == "";
    assert BytesOf([e]) == if e.Received? then Joined(e.chunks) else "";
    if e.Received? {
      ReadsAreBytes(respond, c, e.chunks, e.end);
    } else {
      WriteTakesFront(c, e.sendResult);
    }
  }

  lemma OneStep(respond: Responder, c: Conn, run: seq<Event>, d: Conn, lossy: bool) returns (rest: bool)
    requires Ready(c) && Leads(respond, c, run, d, lossy) && run != []
    ensures IsPossible(c, run[0]) && Leads(respond, After(respond, c, run[0]), run[1..], d, rest)
  {
    rest := lossy;
    if IsLossy(c, run[0]) {
      rest :| Leads(respond, After(respond, c, run[0]), run[1..], d, rest);
    }
  }

  lemma {:induction false} DeadRun(respond: Responder, c: Conn, run: seq<Event>, d: Conn, lossy: bool)
    requires Ready(c) && Leads(respond, c, run, d, lossy)
    requires !c.alive || exists k :: 0 <= k < |run| && EndsIt(run[k])
    ensures !d.alive
    decreases |run|
  {
    hide Ready, After, IsPossible, EndsIt;
    if run != [] {
      var rest := OneStep(respond, c, run, d, lossy);
      if !c.alive || EndsIt(run[0]) {
        DeadStaysDead(respond, c, run[0]);
      } else {
        var k :| 0 <= k < |run| && EndsIt(run[k]);
        assert run[1..][k - 1] == run[k];
      }
      DeadRun(respond, After(respond, c, run[0]), run[1..], d, rest);
    }
  }

  /** While nothing ends it, a connection that is read and written in any order takes what it would take unwritten. */
  lemma {:induction false} RunTakesBytes(respond: Responder, c: Conn, run: seq<Event>, d: Conn, lossy: bool)
    requires Ready(c) && Leads(respond, c, run, d, lossy)
    requires forall k :: 0 <= k < |run| ==> !EndsIt(run[k])
    ensures SameInput(TakeBytes(respond, c, BytesOf(run)), d)
    decreases |run|
  {
    hide Ready, After, IsPossible, EndsIt, TakeBytes, SameInput;
    if run == [] {
      TakeNoBytes(respond, c);
      SameInputIsEquivalence(c, c, c);
    } else {
      var rest := OneStep(respond, c, run, d, lossy);
      var e, first, next := run[0], BytesOf([run[0]]), After(respond, c, run[0]);
      FirstBytes(run);
      EventTakesBytes(respond, c, e);
      TakeBytesOfAppend(respond, c, first, BytesOf(run[1..]));
      SameInputBytes(respond, TakeBytes(respond, c, first), next, BytesOf(run[1..]));
      RunTakesBytes(respond, next, run[1..], d, rest);
      SameInputIsEquivalence(TakeBytes(respond, c, BytesOf(run)), TakeBytes(respond, next, BytesOf(run[1..])), d);
    }
  }

  lemma FirstBytes(run: seq<Event>)
    requires run != []
    ensures BytesOf(run) == BytesOf([run[0]]) + BytesOf(run[1..])
  {
    assert [run[0]][1..] == [] && BytesOf([]) == "";
    assert BytesOf([run[0]]) == if run[0].Received? then Joined(run[0].chunks) else "";
  }

  lemma SameInputIsEquivalence(a: Conn, b: Conn, c: Conn)
    ensures SameInput(a, a) && (SameInput(a, b) && SameInput(b, c) ==> SameInput(a, c))
  {
  }

  /**
   * After any run of reads and writes the connection is open exactly if no
   * `send` returned 0, no read failed, and the bytes received would have left a
   * connection open that never writes.
   */
  lemma StaysOpenIff(respond: Responder, c: Conn, run: seq<Event>, d: Conn, lossy: bool)
    requires Ready(c) && Leads(respond, c, run, d, lossy)
    ensures d.alive <==> TakeBytes(respond, c, BytesOf(run)).alive && forall k :: 0 <= k < |run| ==> !EndsIt(run[k])
    ensures d.alive ==> SameInput(TakeBytes(respond, c, BytesOf(run)), d)
  {
    hide Leads, TakeBytes, EndsIt, Ready;
    if exists k :: 0 <= k < |run| && EndsIt(run[k]) {
      DeadRun(respond, c, run, d, lossy);
    } else {
      RunTakesBytes(respond, c, run, d, lossy);
    }
  }

  /**
   * Pipelined requests, however they are cut into reads and whatever is written
   * in between: unless a write or a read ends it, the connection stays open
   * exactly if none announces an empty body, and then all are called, in order.
   */
  lemma PipelineOverRun(respond: Responder, c: Conn, rs: seq<Request>, run: seq<Event>, d: Conn, lossy: bool)
    requires IsIdle(c) && AreProper(rs) && Ready(c) && Leads(respond, c, run, d, lossy) && BytesOf(run) == WireAll(rs)
    requires forall k :: 0 <= k < |run| ==> !EndsIt(run[k])
    ensures d.alive <==> NoEmptyBody(rs)
    ensures d.alive ==> d.calls == c.calls + CallsFor(rs)
  {
    hide Leads, TakeBytes, EndsIt, Ready, IsIdle, AreProper, NoEmptyBody;
    RunTakesBytes(respond, c, run, d, lossy);
    PipelineIsServedIff(respond, c, rs);
  }
}
