/** One client connection of the non-blocking server: request framing and the output buffer. */
module Connection {
  import opened Protocol
  import opened RequestText

  datatype Option<T> = None | Some(value: T)

  /** A command run with the argument bytes that followed its line. */
  datatype Call = Call(command: Command, argument: string)

  /** The storage's answer to the last call of a history; it may depend on all calls before. */
  type Responder = seq<Call> -> string

  /** The connection's fields, with the calls it made and the bytes the socket took. */
  datatype Conn = Conn(parser: Fields, pending: Option<Command>, argRemains: int, argument: string,
                       results: string, wantsOut: bool, alive: bool, calls: seq<Call>, sent: string)

  /** Between two bytes: a command waits for its argument, or a line is being read. */
  predicate Ready(c: Conn) {
    && IsSound(c.parser)
    && (c.alive ==> if c.pending.Some? then c.argRemains > 0 else !c.parser.complete && c.argument == "")
  }

  /** Runs the pending command and gets ready for the next line. */
  function Executed(respond: Responder, c: Conn): Conn
    requires c.pending.Some?
  {
    var calls := c.calls + [Call(c.pending.value, c.argument)];
    c.(calls := calls, results := c.results + (respond(calls) + "\r\n"), wantsOut := true,
       pending := None, argument := "", parser := Cleared(c.parser.negative))
  }

  /** A line is complete: build its command. Two bytes end a non-empty argument. */
  function LineBuilt(c: Conn): Conn
    requires IsSound(c.parser)
  {
    match CommandOf(c.parser)
    case Command(command, size) => c.(pending := Some(command), argRemains := if size > 0 then size + 2 else size)
    case NoCommand => c
    case Unsupported => c.(argRemains := c.parser.bytes, alive := false)
  }

  /** A command that waits for no more bytes runs. */
  function Resumed(respond: Responder, c: Conn): Conn {
    if c.alive && c.pending.Some? && c.argRemains == 0 then Executed(respond, c) else c
  }

  function LineDone(respond: Responder, c: Conn): Conn
    requires IsSound(c.parser)
  {
    Resumed(respond, LineBuilt(c))
  }

  /** What one received byte does; a closed connection receives nothing. */
  function TakeByte(respond: Responder, c: Conn, b: char): (r: Conn)
    requires Ready(c)
    ensures Ready(r)
  {
    if !c.alive then c
    else if c.pending.None? then
      match Feed(c.parser, b)
      case Thrown => c.(alive := false)
      case Fed(f) =>
        FeedKeepsSound(c.parser, b);
        if f.complete then LineDone(respond, c.(parser := f)) else c.(parser := f)
    else
      var d := c.(argument := c.argument + [b], argRemains := c.argRemains - 1);
      if d.argRemains > 0 then d else Executed(respond, d)
  }

  function TakeBytes(respond: Responder, c: Conn, s: string): (r: Conn)
    requires Ready(c)
    ensures Ready(r)
    decreases |s|
  {
    if s == "" then c else TakeBytes(respond, TakeByte(respond, c, s[0]), s[1..])
  }

  lemma {:induction false} TakeBytesOfAppend(respond: Responder, c: Conn, a: string, b: string)
    requires Ready(c)
    ensures TakeBytes(respond, c, a + b) == TakeBytes(respond, TakeBytes(respond, c, a), b)
    decreases |a|
  {
    if a == "" {
      assert a + b == b;
    } else {
      assert (a + b)[0] == a[0] && (a + b)[1..] == a[1..] + b;
      TakeBytesOfAppend(respond, TakeByte(respond, c, a[0]), a[1..], b);
    }
  }

  // ---------- Reading in chunks ----------

  const BUFFER_SIZE: nat := 4096
  const U64: int := 0x1_0000_0000_0000_0000

  /** Several reads, whatever the socket had each time. */
  function TakeChunks(respond: Responder, c: Conn, chunks: seq<string>): (r: Conn)
    requires Ready(c)
    ensures Ready(r)
  {
    if chunks == [] then c
    else TakeBytes(respond, TakeChunks(respond, c, chunks[..|chunks| - 1]), chunks[|chunks| - 1])
  }

  function Joined(chunks: seq<string>): string {
    if chunks == [] then "" else Joined(chunks[..|chunks| - 1]) + chunks[|chunks| - 1]
  }

  lemma {:induction false} ChunksAreBytes(respond: Responder, c: Conn, chunks: seq<string>)
    requires Ready(c)
    ensures TakeChunks(respond, c, chunks) == TakeBytes(respond, c, Joined(chunks))
  {
    if chunks != [] {
      var last := |chunks| - 1;
      ChunksAreBytes(respond, c, chunks[..last]);
      TakeBytesOfAppend(respond, c, Joined(chunks[..last]), chunks[last]);
    }
  }

  lemma OneMoreChunk(respond: Responder, c: Conn, chunks: seq<string>, k: nat)
    requires Ready(c) && k < |chunks|
    ensures TakeChunks(respond, c, chunks[..k + 1]) ==
      TakeBytes(respond, TakeChunks(respond, c, chunks[..k]), chunks[k])
  {
    assert chunks[..k + 1][..k] == chunks[..k];
  }

  lemma NoChunks(respond: Responder, c: Conn)
    requires Ready(c)
    ensures TakeChunks(respond, c, []) == c
  {
  }

  /** The same stream cut differently runs the same commands with the same arguments and answers. */
  lemma CuttingDoesNotMatter(respond: Responder, c: Conn, chunks: seq<string>, others: seq<string>)
    requires Ready(c) && Joined(chunks) == Joined(others)
    ensures TakeChunks(respond, c, chunks) == TakeChunks(respond, c, others)
  {
    ChunksAreBytes(respond, c, chunks);
    ChunksAreBytes(respond, c, others);
  }

  lemma {:induction false} DeadTakesNothing(respond: Responder, c: Conn, s: string)
    requires Ready(c) && !c.alive
    ensures TakeBytes(respond, c, s) == c
    decreases |s|
  {
    if s != "" {
      DeadTakesNothing(respond, c, s[1..]);
    }
  }

  lemma ThrownTakesNothing(respond: Responder, c: Conn, s: string)
    requires !c.alive && Ready(Resumed(respond, c))
    ensures TakeBytes(respond, Resumed(respond, c), s) == c
  {
    DeadTakesNothing(respond, c, s);
  }

  /** After one call of `Parse` on a block and, if a line is complete, of `Build`. */
  function LineRead(c: Conn, input: string): Conn
    requires IsSound(c.parser)
  {
    ScanKeepsSound(c.parser, input);
    var stop := Scan(c.parser, input);
    var line := c.(parser := stop.fields);
    if stop.threw then line.(alive := false) else if stop.fields.complete then LineBuilt(line) else line
  }

  /** One call of `Parse` inside the framing loop stands for the bytes it consumes, and consumes some. */
  lemma {:induction false} ParseIsTakingBytes(respond: Responder, c: Conn, input: string)
    requires Ready(c) && c.alive && c.pending.None?
    ensures var d := LineRead(c, input);
            var k := Scan(c.parser, input).consumed;
            && Ready(Resumed(respond, d)) && (d.pending.Some? ==> d.argRemains >= 0)
            && (input != "" && d.alive ==> k > 0)
            && TakeBytes(respond, c, input) == TakeBytes(respond, Resumed(respond, d), input[k..])
    decreases |input|
  {
    if input != "" {
      var f := Feed(c.parser, input[0]);
      if f == Thrown {
        DeadTakesNothing(respond, c.(alive := false), input[1..]);
        DeadTakesNothing(respond, c.(alive := false), input);
      } else {
        FeedKeepsSound(c.parser, input[0]);
        if !f.fields.complete {
          StepOfLine(respond, c, input);
          ParseIsTakingBytes(respond, c.(parser := f.fields), input[1..]);
          hide Feed, IsSound, LineRead, Resumed, Scan;
          assert input[1..][Scan(f.fields, input[1..]).consumed..] == input[Scan(f.fields, input[1..]).consumed + 1..];
        }
      }
    }
  }

  lemma StepOfLine(respond: Responder, c: Conn, input: string)
    requires Ready(c) && c.alive && c.pending.None? && input != ""
    requires Feed(c.parser, input[0]).Fed? && !Feed(c.parser, input[0]).fields.complete
    ensures var d := c.(parser := Feed(c.parser, input[0]).fields);
            && Ready(d) && TakeByte(respond, c, input[0]) == d
            && LineRead(c, input) == LineRead(d, input[1..])
            && Scan(c.parser, input).consumed == Scan(d.parser, input[1..]).consumed + 1
  {
    FeedKeepsSound(c.parser, input[0]);
    hide Feed, LineBuilt;
  }

  /** After `n` bytes of its argument. */
  function Filled(c: Conn, part: string): Conn {
    c.(argument := c.argument + part, argRemains := c.argRemains - |part|)
  }

  function FilledOrRun(respond: Responder, c: Conn, part: string): Conn
    requires c.pending.Some?
  {
    if Filled(c, part).argRemains > 0 then Filled(c, part) else Executed(respond, Filled(c, part))
  }

  /** Moving a block of bytes to the argument stands for taking them one by one. */
  lemma {:induction false} FillingIsTakingBytes(respond: Responder, c: Conn, input: string, n: nat)
    requires Ready(c) && c.alive && c.pending.Some? && n <= |input| && n <= c.argRemains
    ensures Ready(FilledOrRun(respond, c, input[..n]))
    ensures TakeBytes(respond, c, input) == TakeBytes(respond, FilledOrRun(respond, c, input[..n]), input[n..])
    decreases n
  {
    hide LineDone, IsSound, Executed;
    if n == 0 {
      assert Filled(c, input[..0]) == c && input[0..] == input;
    } else {
      var d := Filled(c, [input[0]]);
      assert input[..n] == [input[0]] + input[1..][..n - 1] && input[n..] == input[1..][n - 1..];
      assert TakeByte(respond, c, input[0]) == FilledOrRun(respond, c, [input[0]]);
      hide TakeByte;
      if d.argRemains > 0 {
        FillingIsTakingBytes(respond, d, input[1..], n - 1);
        assert Filled(d, input[1..][..n - 1]) == Filled(c, input[..n]);
      } else {
        assert input[..n] == [input[0]];
      }
    }
  }

  /** A command that waits for bytes is not resumed. */
  lemma WaitingIsReady(respond: Responder, c: Conn)
    requires c.alive && c.argRemains > 0
    ensures Resumed(respond, c) == c
  {
  }

  lemma FilledIsResumed(respond: Responder, c: Conn, part: string)
    requires c.alive && c.pending.Some? && |part| <= c.argRemains
    ensures FilledOrRun(respond, c, part) == Resumed(respond, Filled(c, part)) && Filled(c, part).argRemains >= 0
  {
    hide Executed;
  }

  lemma AliveStays(respond: Responder, c: Conn)
    ensures Resumed(respond, c).alive == c.alive
  {
  }

  /** How the last `read` of `DoRead` ended the loop. */
  datatype ReadEnd = NoMoreData | ReadFailed

  function AfterReads(respond: Responder, c: Conn, chunks: seq<string>, end: ReadEnd): Conn
    requires Ready(c)
  {
    var d := TakeChunks(respond, c, chunks);
    if d.alive && end.ReadFailed? then d.(alive := false) else d
  }

  /** `n` is what `send` returned; it is compared as unsigned, so -1 counts as more than the whole buffer. */
  function Written(c: Conn, n: int): Conn
    requires -1 <= n <= |c.results|
  {
    if n == 0 then c.(alive := false)
    else if n == -1 || n == |c.results| then
      c.(results := "", wantsOut := false, sent := c.sent + if n == -1 then "" else c.results)
    else c.(results := c.results[n..], wantsOut := true, sent := c.sent + c.results[..n])
  }

  lemma {:induction false} DeadTakesNoChunks(respond: Responder, c: Conn, chunks: seq<string>, k: nat)
    requires Ready(c) && k <= |chunks| && !TakeChunks(respond, c, chunks[..k]).alive
    ensures TakeChunks(respond, c, chunks) == TakeChunks(respond, c, chunks[..k])
  {
    if k < |chunks| {
      var last := |chunks| - 1;
      assert chunks[..last][..k] == chunks[..k];
      DeadTakesNoChunks(respond, c, chunks[..last], k);
      DeadTakesNothing(respond, TakeChunks(respond, c, chunks[..last]), chunks[last]);
    } else {
      assert chunks[..k] == chunks;
    }
  }

  // ---------- The connection, updated in place ----------

  /** `memmove` of `n` bytes from `from` to the start of the buffer. */
  method MoveDown(buffer: array<char>, from: nat, n: nat)
    requires from + n <= buffer.Length
    modifies buffer
    ensures buffer[..n] == old(buffer[from..from + n])
  {
    for k := 0 to n
      invariant forall m :: 0 <= m < k ==> buffer[m] == old(buffer[from + m])
      invariant forall m :: k <= m < buffer.Length ==> buffer[m] == old(buffer[m])
    {
      buffer[k] := buffer[from + k];
    }
  }

  class Client {
    const parser: Parser
    const respond: Responder
    var pending: Option<Command>
    var argRemains: int
    var argument: string
    var results: string
    var wantsOut: bool
    var alive: bool
    var calls: seq<Call>
    ghost var sent: string

    ghost function View(): Conn
      reads this, parser
    {
      Conn(parser.View(), pending, argRemains, argument, results, wantsOut, alive, calls, sent)
    }

    constructor (respond: Responder)
      ensures fresh(parser) && this.respond == respond
      ensures Ready(View()) && IsIdle(View()) && results == "" && calls == [] && sent == "" && !wantsOut
    {
      this.respond := respond;
      parser := new Parser();
      pending, argument, results, wantsOut, alive, calls, sent := None, "", "", false, true, [], "";
    }

    /** Runs the pending command and answers. */
    method RunCommand()
      requires pending.Some?
      modifies this`calls, this`results, this`wantsOut, this`pending, this`argument, parser
      ensures View() == Executed(respond, old(View()))
    {
      calls := calls + [Call(pending.value, argument)];
      var result := respond(calls);
      results := results + (result + "\r\n");
      wantsOut := true;
      pending := None;
      argument := "";
      parser.Reset();
    }

    /** No command yet: parse on. Returns how many bytes were consumed, and whether something threw. */
    method ParseLine(buffer: array<char>, size: nat) returns (parsed: nat, threw: bool)
      requires Ready(View()) && alive && pending.None? && size <= buffer.Length
      modifies this, parser
      ensures alive && parsed == Scan(old(View()).parser, buffer[..size]).consumed <= size
      ensures View().(alive := !threw) == LineRead(old(View()), buffer[..size])
    {
      parsed, threw := parser.Parse(buffer[..size]);
      if !threw && parser.complete {
        var built := parser.Build();
        argRemains := parser.bytes;
        if built.Unsupported? {
          threw := true;
        } else {
          pending := Some(built.command);
          if argRemains > 0 {
            argRemains := argRemains + 2;
          }
        }
      }
    }

    /** Moves what the buffer has of the argument, and closes the gap in the buffer. */
    method FillArgument(buffer: array<char>, size: nat) returns (left: nat)
      requires size <= buffer.Length && argRemains > 0
      modifies this`argument, this`argRemains, buffer
      ensures left == if old(argRemains) < size then size - old(argRemains) else 0
      ensures View() == Filled(old(View()), old(buffer[..size - left]))
      ensures buffer[..left] == old(buffer[size - left..size])
    {
      var toRead := if argRemains < size then argRemains else size;
      argument := argument + buffer[..toRead];
      MoveDown(buffer, toRead, size - toRead);
      argRemains := argRemains - toRead;
      left := size - toRead;
    }

    /** Fills the argument of the pending command, if it waits for one. */
    method FillPending(buffer: array<char>, size: nat) returns (left: nat)
      requires size <= buffer.Length && alive && Ready(Resumed(respond, View()))
      requires pending.Some? ==> argRemains >= 0
      modifies this`argument, this`argRemains, buffer
      ensures left <= size && Ready(Resumed(respond, View()))
      ensures pending.Some? ==> argRemains >= 0
      ensures old(pending.Some? && argRemains > 0 && size > 0) ==> left < size
      ensures TakeBytes(respond, Resumed(respond, View()), buffer[..left]) ==
        TakeBytes(respond, Resumed(respond, old(View())), old(buffer[..size]))
    {
      hide TakeBytes, Resumed, Ready, FilledOrRun, Filled, IsSound, LineBuilt;
      left := size;
      if pending.Some? && argRemains > 0 {
        ghost var c, input := View(), buffer[..size];
        left := FillArgument(buffer, size);
        ghost var part := input[..size - left];
        assert part == old(buffer[..size - left]) && input[size - left..] == old(buffer[size - left..size]);
        WaitingIsReady(respond, c);
        FillingIsTakingBytes(respond, c, input, size - left);
        FilledIsResumed(respond, c, part);
      }
    }

    /** Runs the pending command if it waits for no more bytes. */
    method RunIfWhole()
      requires alive
      modifies this`calls, this`results, this`wantsOut, this`pending, this`argument, parser
      ensures View() == Resumed(respond, old(View()))
    {
      if pending.Some? && argRemains == 0 {
        RunCommand();
      }
    }

    /** Fills the argument of the pending command, and runs it once the argument is whole. */
    method FillAndRun(buffer: array<char>, size: nat) returns (left: nat)
      requires size <= buffer.Length && alive && Ready(Resumed(respond, View()))
      requires pending.Some? ==> argRemains >= 0
      modifies this, parser, buffer
      ensures left <= size && alive && Ready(View())
      ensures old(pending.Some? && argRemains > 0 && size > 0) ==> left < size
      ensures TakeBytes(respond, View(), buffer[..left]) ==
        TakeBytes(respond, Resumed(respond, old(View())), old(buffer[..size]))
    {
      hide TakeBytes, Resumed, Ready;
      left := FillPending(buffer, size);
      AliveStays(respond, View());
      RunIfWhole();
    }

    /** Parses on, and drops the bytes consumed from the buffer. At least one byte is: `none` stays false. */
    method ParseAndDrop(buffer: array<char>, size: nat) returns (left: nat, none: bool, threw: bool)
      requires Ready(View()) && alive && pending.None? && 0 < size <= buffer.Length
      modifies this, parser, buffer
      ensures alive && !none && left <= size && (!threw ==> left < size)
      ensures threw ==> View().(alive := false) == TakeBytes(respond, old(View()), old(buffer[..size]))
      ensures !threw ==> Ready(Resumed(respond, View())) && (pending.Some? ==> argRemains >= 0)
      ensures !threw ==> TakeBytes(respond, Resumed(respond, View()), buffer[..left]) ==
                           TakeBytes(respond, old(View()), old(buffer[..size]))
    {
      ghost var c, input := View(), buffer[..size];
      assert IsSound(c.parser);
      hide TakeBytes, Resumed, Scan, Ready, LineRead;
      ParseIsTakingBytes(respond, c, input);
      var parsed;
      parsed, threw := ParseLine(buffer, size);
      left, none := size, false;
      if threw {
        ThrownTakesNothing(respond, LineRead(c, input), input[parsed..]);
        return;
      }
      none := parsed == 0;
      left := size - parsed;
      MoveDown(buffer, parsed, left);
      assert input[parsed..] == old(buffer[parsed..parsed + (size - parsed)]);
    }

    /** The loop over one block of received bytes. */
    method TakeBlock(buffer: array<char>, size: nat) returns (threw: bool)
      requires size <= buffer.Length && alive && Ready(View())
      modifies this, parser, buffer
      ensures alive && (!threw ==> Ready(View()))
      ensures View().(alive := !threw) == TakeBytes(respond, old(View()), old(buffer[..size]))
    {
      var left: nat := size;
      threw := false;
      while left > 0
        invariant left <= buffer.Length && alive && Ready(View())
        invariant TakeBytes(respond, View(), buffer[..left]) == TakeBytes(respond, old(View()), old(buffer[..size]))
        decreases left
      {
        hide TakeBytes, Resumed, IsSound;
        if pending.None? {
          var none;
          left, none, threw := ParseAndDrop(buffer, left);
          if threw {
            return;
          }
          if none {
            break;
          }
        }
        left := FillAndRun(buffer, left);
      }
    }

    /** `read` into the front of the buffer. */
    method Receive(buffer: array<char>, chunk: string)
      requires |chunk| <= buffer.Length
      modifies buffer
      ensures buffer[..|chunk|] == chunk
    {
      for m := 0 to |chunk|
        invariant buffer[..m] == chunk[..m]
      {
        buffer[m] := chunk[m];
      }
    }

    /** Reads until the socket has no more; anything thrown closes the connection. */
    method DoRead(chunks: seq<string>, end: ReadEnd)
      requires forall k :: 0 <= k < |chunks| ==> 0 < |chunks[k]| <= BUFFER_SIZE
      requires alive && Ready(View())
      modifies this, parser
      ensures View() == AfterReads(respond, old(View()), chunks, end)
    {
      hide TakeChunks, TakeBytes, IsSound;
      var buffer := new char[BUFFER_SIZE];
      NoChunks(respond, View());
      for k := 0 to |chunks|
        invariant alive && Ready(View())
        invariant View() == TakeChunks(respond, old(View()), chunks[..k])
      {
        Receive(buffer, chunks[k]);
        OneMoreChunk(respond, old(View()), chunks, k);
        var threw := TakeBlock(buffer, |chunks[k]|);
        if threw {
          alive := false;
          DeadTakesNoChunks(respond, old(View()), chunks, k + 1);
          return;
        }
      }
      assert chunks[..|chunks|] == chunks;
      if end.ReadFailed? {
        alive := false;
      }
    }

    /** Sends from the output buffer; `sendResult` is what `send` returned. */
    method DoWrite(sendResult: int)
      requires -1 <= sendResult <= |results| < U64
      modifies this
      ensures View() == Written(old(View()), sendResult)
    {
      // the -1 of a failed call, as an unsigned number
      var n := if sendResult == -1 then U64 - 1 else sendResult;
      if n <= 0 {
        alive := false;
      } else if n >= |results| {
        sent := sent + if sendResult == -1 then "" else results;
        results := "";
        wantsOut := false;
      } else {
        sent := sent + results[..n];
        results := results[n..];
        wantsOut := true;
      }
    }
  }

  // ---------- Whole requests ----------

  datatype Request =
    | Put(name: string, key: string, flags: nat, expire: int, body: string)
    | Retrieve(keys: seq<string>)
    | AskStats

  ghost predicate IsProper(r: Request) {
    match r
    case Put(name, key, flags, expire, body) =>
      && (name == "set" || name == "add" || name == "append")
      && Free(key, ' ') && flags < U32 && IsI32(TimeRead(expire)) && |body| < U32
    case Retrieve(keys) => AreGetKeys(keys)
    case AskStats => true
  }

  /** The line of a request up to its line feed. */
  function Head(r: Request): string
    requires r.Retrieve? ==> r.keys != []
  {
    match r
    case Put(name, key, flags, expire, body) => PutHead(name, key, flags, expire, |body|)
    case Retrieve(keys) => GetHead("get", keys)
    case AskStats => "stats" + "\r"
  }

  function Trailer(r: Request): string {
    if r.Put? then r.body + "\r\n" else ""
  }

  /** What a client sends: a storage request is followed by its body and a line end. */
  function Wire(r: Request): string
    requires r.Retrieve? ==> r.keys != []
  {
    Head(r) + "\n" + Trailer(r)
  }

  function CommandFor(r: Request): Command {
    match r
    case Put(name, key, flags, expire, _) =>
      if name == "set" then Set(key, flags, TimeRead(expire))
      else if name == "add" then Add(key, flags, TimeRead(expire))
      else Append(key, flags, TimeRead(expire))
    case Retrieve(keys) => Get(keys)
    case AskStats => Stats
  }

  /** The call a request is to lead to; the argument keeps the line end of the body. */
  function CallFor(r: Request): Call {
    Call(CommandFor(r), Trailer(r))
  }

  ghost predicate IsIdle(c: Conn) {
    c.alive && c.pending.None? && c.argument == "" && c.parser == Cleared(c.parser.negative)
  }

  /** Up to the parser and the counter of the last argument, the connection after a call was answered. */
  ghost predicate Answers(respond: Responder, c: Conn, call: Call, d: Conn) {
    && IsIdle(d) && d.calls == c.calls + [call]
    && d.results == c.results + (respond(d.calls) + "\r\n") && d.wantsOut && d.sent == c.sent
  }

  lemma StatsHeadIsRead(negative: bool, name: string)
    requires name == "stats"
    ensures FeedAll(Cleared(negative), name + "\r") == Fed(Cleared(negative).(name := "stats", stage := LF))
  {
    hide FeedAll;
    NameIsRead(Cleared(negative), name);
    assert Cleared(negative).name + name == name;
    FedOne(Cleared(negative).(name := name), '\r');
    FeedAllOfAppend(Cleared(negative), name, "\r");
  }

  lemma HeadIsRead(negative: bool, r: Request)
    requires IsProper(r)
    ensures var fed := FeedAll(Cleared(negative), Head(r));
            && fed.Fed? && fed.fields.stage == LF && !fed.fields.complete && IsSound(fed.fields)
            && CommandOf(fed.fields) == Command(CommandFor(r), if r.Put? then |r.body| else 0)
  {
    hide FeedAll, Feed, Scan, Wraps, TimeRead, PutHead, GetHead, Free;
    match r
    case Put(name, key, flags, expire, body) =>
      PutHeadIsRead(negative, name, key, flags, expire, |body|);
      WrapsOnlyFromLimit(flags);
      WrapsOnlyFromLimit(|body|);
    case Retrieve(keys) => GetHeadIsRead(negative, "get", keys);
    case AskStats => StatsHeadIsRead(negative, "stats");
  }

  /** A line that feeds is read, and its line feed builds the command. */
  lemma LineIsTaken(respond: Responder, c: Conn, head: string, rest: string)
    requires IsIdle(c) && FeedAll(c.parser, head).Fed?
    requires FeedAll(c.parser, head).fields.stage == LF && !FeedAll(c.parser, head).fields.complete
    requires IsSound(FeedAll(c.parser, head).fields)
    ensures Ready(c)
    ensures var done := LineDone(respond, c.(parser := FeedAll(c.parser, head).fields.(complete := true)));
            Ready(done) && TakeBytes(respond, c, head + "\n" + rest) == TakeBytes(respond, done, rest)
  {
    LineEnds(c.parser, head, rest);
    ParseIsTakingBytes(respond, c, head + "\n" + rest);
    assert (head + "\n" + rest)[|head| + 1..] == rest;
  }

  /** The line was read; the command waits for its body. */
  ghost predicate Awaits(c: Conn, r: Request, d: Conn) {
    && Ready(d) && d.alive && d.argument == "" && d.pending == Some(CommandFor(r))
    && r.Put? && d.argRemains == |r.body| + 2
    && d.calls == c.calls && d.results == c.results && d.sent == c.sent
  }

  /** The connection once the line of a proper request is read; without a body to wait for it has answered. */
  lemma RequestLineIsTaken(respond: Responder, c: Conn, r: Request) returns (d: Conn)
    requires IsIdle(c) && IsProper(r)
    ensures Ready(c) && Ready(d) && TakeBytes(respond, c, Wire(r)) == TakeBytes(respond, d, Trailer(r))
    ensures if r.Put? && r.body != "" then Awaits(c, r, d) else Answers(respond, c, Call(CommandFor(r), ""), d)
  {
    HeadIsRead(c.parser.negative, r);
    assert r.Retrieve? ==> r.keys != [];
    hide FeedAll, Head, TakeBytes, CommandOf, Feed, Scan, CommandFor, IsProper, LineDone, Executed, IsSound, Trailer;
    hide CallFor;
    LineIsTaken(respond, c, Head(r), Trailer(r));
    var line := c.(parser := FeedAll(c.parser, Head(r)).fields.(complete := true));
    LineFeedIsQuiet(line.parser);
    d := LineDone(respond, line);
    LineOutcome(respond, c, r, line);
    hide Awaits, Answers, IsIdle, Ready;
  }

  lemma LineOutcome(respond: Responder, c: Conn, r: Request, line: Conn)
    requires IsIdle(c) && line == c.(parser := line.parser) && IsSound(line.parser)
    requires CommandOf(line.parser) == Command(CommandFor(r), if r.Put? then |r.body| else 0)
    requires Ready(LineDone(respond, line))
    ensures if r.Put? && r.body != "" then Awaits(c, r, LineDone(respond, line))
            else Answers(respond, c, Call(CommandFor(r), ""), LineDone(respond, line))
  {
    hide CommandOf, CommandFor, LineDone, Executed, IsSound, Ready;
    BuiltOrRun(respond, line, CommandFor(r), if r.Put? then |r.body| else 0);
    if !(r.Put? && r.body != "") {
      RunAtOnce(respond, line.(pending := Some(CommandFor(r)), argRemains := 0));
    }
  }

  lemma BuiltOrRun(respond: Responder, line: Conn, command: Command, size: nat)
    requires IsSound(line.parser) && line.alive && CommandOf(line.parser) == Command(command, size)
    ensures LineDone(respond, line) ==
      var built := line.(pending := Some(command), argRemains := if size > 0 then size + 2 else 0);
      if size > 0 then built else Executed(respond, built)
  {
  }

  lemma RunAtOnce(respond: Responder, c: Conn)
    requires c.alive && c.pending.Some?
    ensures Answers(respond, c, Call(c.pending.value, c.argument), Executed(respond, c))
  {
  }

  lemma LineFeedIsQuiet(f: Fields)
    requires f.complete && f.stage == LF && IsSound(f)
    ensures IsSound(f.(complete := false)) && CommandOf(f.(complete := false)) == CommandOf(f)
  {
  }

  /** A request whose body, if it is to have one, is not empty is called and answered once. */
  lemma RequestIsServed(respond: Responder, c: Conn, r: Request)
    requires IsIdle(c) && IsProper(r) && (r.Put? ==> r.body != "")
    ensures Ready(c) && Answers(respond, c, CallFor(r), TakeBytes(respond, c, Wire(r)))
  {
    var d := RequestLineIsTaken(respond, c, r);
    hide IsProper, Wire, CommandFor;
    if r.Put? {
      BodyIsTaken(respond, c, r, d);
    } else {
      assert TakeBytes(respond, d, "") == d;
    }
  }

  lemma BodyIsTaken(respond: Responder, c: Conn, r: Request, d: Conn)
    requires Awaits(c, r, d)
    ensures Answers(respond, c, CallFor(r), TakeBytes(respond, d, Trailer(r)))
  {
    var n := |r.body| + 2;
    FillingIsTakingBytes(respond, d, Trailer(r), n);
    assert Trailer(r)[..n] == Trailer(r) && Trailer(r)[n..] == "";
    hide CommandFor;
    assert d.argument + Trailer(r) == Trailer(r);
    var e := Executed(respond, Filled(d, Trailer(r)));
    assert TakeBytes(respond, e, "") == e;
    hide TakeBytes;
  }

  /**
   * An announced body of no bytes: the command runs at once, and the line end
   * sent for the body closes the connection.
   */
  lemma EmptyBodyCloses(respond: Responder, c: Conn, r: Request)
    requires IsIdle(c) && IsProper(r) && r.Put? && r.body == ""
    ensures Ready(c)
    ensures var d := TakeBytes(respond, c, Wire(r));
            && !d.alive && d.calls == c.calls + [Call(CommandFor(r), "")]
            && d.results == c.results + (respond(d.calls) + "\r\n")
  {
    var d := RequestLineIsTaken(respond, c, r);
    hide IsProper, Wire, Head, CommandFor;
    assert Trailer(r) == "\r\n";
    assert TakeByte(respond, d, '\r') == d.(alive := false);
    DeadTakesNothing(respond, d.(alive := false), Trailer(r)[1..]);
  }

  // ---------- Pipelines ----------

  ghost predicate AreProper(rs: seq<Request>) {
    forall k :: 0 <= k < |rs| ==> IsProper(rs[k])
  }

  ghost predicate NoEmptyBody(rs: seq<Request>) {
    forall k :: 0 <= k < |rs| ==> rs[k].Put? ==> rs[k].body != ""
  }

  ghost function WireAll(rs: seq<Request>): string
    requires AreProper(rs)
  {
    if rs == [] then "" else Wire(rs[0]) + WireAll(rs[1..])
  }

  function CallsFor(rs: seq<Request>): seq<Call> {
    if rs == [] then [] else [CallFor(rs[0])] + CallsFor(rs[1..])
  }

  /** The answers to further calls after a history, in order. */
  function AnswersTo(respond: Responder, history: seq<Call>, calls: seq<Call>): string
    decreases |calls|
  {
    if calls == [] then ""
    else respond(history + [calls[0]]) + "\r\n" + AnswersTo(respond, history + [calls[0]], calls[1..])
  }

  /**
   * Pipelined requests lead to their calls and answers, in order, exactly when
   * none of them announces an empty body.
   */
  lemma {:induction false} PipelineIsServedIff(respond: Responder, c: Conn, rs: seq<Request>)
    requires IsIdle(c) && AreProper(rs)
    ensures Ready(c)
    ensures var d := TakeBytes(respond, c, WireAll(rs));
            && (d.alive <==> NoEmptyBody(rs))
            && (d.alive ==> IsIdle(d) && d.calls == c.calls + CallsFor(rs))
            && (d.alive ==> d.results == c.results + AnswersTo(respond, c.calls, CallsFor(rs)) && d.sent == c.sent)
    decreases |rs|
  {
    hide Trailer, CommandFor, CallFor, TakeBytes, Wire, IsProper, Ready, IsIdle, Answers, NoEmptyBody, AreProper;
    IdleIsReady(c);
    if rs == [] {
      TakeNoBytes(respond, c);
      NothingInPipeline(c, rs);
      assert c.calls + CallsFor(rs) == c.calls && c.results + AnswersTo(respond, c.calls, CallsFor(rs)) == c.results;
    } else {
      var r := rs[0];
      FirstOfPipeline(rs);
      TakeBytesOfAppend(respond, c, Wire(r), WireAll(rs[1..]));
      var d := TakeBytes(respond, c, Wire(r));
      if r.Put? && r.body == "" {
        EmptyBodyCloses(respond, c, r);
        DeadTakesNothing(respond, d, WireAll(rs[1..]));
      } else {
        RequestIsServed(respond, c, r);
        AnsweredIs(respond, c, CallFor(r), d);
        PipelineIsServedIff(respond, d, rs[1..]);
        FirstAnswer(respond, c, CallFor(r), CallsFor(rs[1..]), d);
      }
    }
  }

  lemma NothingInPipeline(c: Conn, rs: seq<Request>)
    requires rs == []
    ensures NoEmptyBody(rs) && (IsIdle(c) ==> c.alive)
  {
  }

  lemma AnsweredIs(respond: Responder, c: Conn, call: Call, d: Conn)
    requires Answers(respond, c, call, d)
    ensures IsIdle(d) && d.calls == c.calls + [call] && d.sent == c.sent
    ensures d.results == c.results + (respond(c.calls + [call]) + "\r\n")
  {
  }

  /** One answer, then those to the rest. */
  lemma FirstAnswer(respond: Responder, c: Conn, call: Call, rest: seq<Call>, d: Conn)
    requires d.calls == c.calls + [call] && d.results == c.results + (respond(c.calls + [call]) + "\r\n")
    ensures d.calls + rest == c.calls + ([call] + rest)
    ensures d.results + AnswersTo(respond, d.calls, rest) == c.results + AnswersTo(respond, c.calls, [call] + rest)
  {
    var calls := [call] + rest;
    assert calls[0] == call && calls[1..] == rest;
    var first, others := respond(d.calls) + "\r\n", AnswersTo(respond, d.calls, rest);
    assert AnswersTo(respond, c.calls, calls) == first + others;
    assert c.results + first + others == c.results + (first + others);
  }

  lemma TakeNoBytes(respond: Responder, c: Conn)
    requires Ready(c)
    ensures TakeBytes(respond, c, "") == c
  {
  }

  lemma FirstOfPipeline(rs: seq<Request>)
    requires rs != [] && AreProper(rs)
    ensures IsProper(rs[0]) && AreProper(rs[1..]) && (rs[0].Retrieve? ==> rs[0].keys != [])
    ensures NoEmptyBody(rs) <==> (rs[0].Put? ==> rs[0].body != "") && NoEmptyBody(rs[1..])
  {
    assert forall k :: 0 < k < |rs| ==> rs[1..][k - 1] == rs[k];
  }

  lemma IdleIsReady(c: Conn)
    requires IsIdle(c)
    ensures Ready(c)
  {
  }
}
