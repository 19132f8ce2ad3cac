/** What closes a connection: lines the parser refuses, and commands it reads but the server does not know. */
module Refusals {
  import opened Connection
  import opened Protocol
  import opened RequestText

  /** Closed, with nothing run and nothing answered. */
  ghost predicate ClosedUnheard(c: Conn, d: Conn) {
    !d.alive && d.calls == c.calls && d.results == c.results && d.sent == c.sent && d.wantsOut == c.wantsOut
  }

  /** Between two requests, or in the middle of a line. */
  ghost predicate IsReading(c: Conn) {
    Ready(c) && c.alive && c.pending.None?
  }

  lemma {:induction false} LineGoesOn(respond: Responder, c: Conn, s: string)
    requires IsReading(c) && FeedAll(c.parser, s).Fed? && !FeedAll(c.parser, s).fields.complete
    ensures TakeBytes(respond, c, s) == c.(parser := FeedAll(c.parser, s).fields)
    ensures IsReading(TakeBytes(respond, c, s))
    decreases |s|
  {
    if s != "" {
      var f := Feed(c.parser, s[0]).fields;
      FeedKeepsSound(c.parser, s[0]);
      CompleteStays(f, s[1..]);
      LineGoesOn(respond, c.(parser := f), s[1..]);
      hide IsSound;
    }
  }

  /** The byte at which a line is refused closes the connection; what follows is not looked at. */
  lemma RefusedByteCloses(respond: Responder, c: Conn, s: string, b: char, rest: string)
    requires IsReading(c) && FeedAll(c.parser, s).Fed? && !FeedAll(c.parser, s).fields.complete
    requires FeedAll(c.parser, s + [b]) == Thrown
    ensures ClosedUnheard(c, TakeBytes(respond, c, s + [b] + rest))
  {
    hide FeedAll, TakeBytes, IsSound, Feed, LineDone;
    var d := c.(parser := FeedAll(c.parser, s).fields);
    LineGoesOn(respond, c, s);
    FeedAllOfAppend(c.parser, s, [b]);
    FedOne(d.parser, b);
    TakeBytesOfAppend(respond, c, s, [b] + rest);
    assert s + [b] + rest == s + ([b] + rest);
    RefusedNow(respond, d, b, rest);
  }

  lemma RefusedNow(respond: Responder, c: Conn, b: char, rest: string)
    requires IsReading(c) && Feed(c.parser, b) == Thrown
    ensures TakeBytes(respond, c, [b] + rest) == c.(alive := false)
  {
    hide IsSound, Feed, LineDone, Executed;
    assert ([b] + rest)[0] == b && ([b] + rest)[1..] == rest;
    DeadTakesNothing(respond, c.(alive := false), rest);
  }

  /** A line, free of line feeds, that is refused anywhere closes the connection. */
  lemma {:induction false} RefusedLineCloses(respond: Responder, c: Conn, line: string, rest: string)
    requires IsReading(c) && Free(line, '\n') && FeedAll(c.parser, line) == Thrown
    ensures ClosedUnheard(c, TakeBytes(respond, c, line + rest))
    decreases |line|
  {
    assert line != "";
    var f := Feed(c.parser, line[0]);
    assert (line + rest)[0] == line[0] && (line + rest)[1..] == line[1..] + rest;
    if f == Thrown {
      DeadTakesNothing(respond, c.(alive := false), line[1..] + rest);
    } else {
      FeedKeepsSound(c.parser, line[0]);
      RefusedLineCloses(respond, c.(parser := f.fields), line[1..], rest);
    }
  }

  /** A command name the server does not know closes the connection. */
  lemma UnknownCommandCloses(respond: Responder, c: Conn, word: string, end: char, rest: string)
    requires IsIdle(c) && Free(word, ' ') && Free(word, '\r') && (end == ' ' || end == '\r')
    requires word !in {"set", "add", "append", "prepend", "get", "gets", "stats"}
    ensures Ready(c) && ClosedUnheard(c, TakeBytes(respond, c, word + [end] + rest))
  {
    NameIsRead(c.parser, word);
    NameDecides(c.parser.negative, word, end);
    hide FeedAll;
    RefusedByteCloses(respond, c, word, end, rest);
  }

  lemma FreeOfAppend(a: string, b: string, c: char)
    ensures Free(a + b, c) <==> Free(a, c) && Free(b, c)
  {
    if Free(a + b, c) {
      assert forall k :: 0 <= k < |a| ==> (a + b)[k] == a[k];
      assert forall k :: 0 <= k < |b| ==> (a + b)[|a| + k] == b[k];
    }
  }

  lemma PutHeadIsOneLine(name: string, key: string, flags: nat, e: int, bytes: nat)
    requires (name == "set" || name == "add" || name == "append" || name == "prepend") && Free(key, '\n')
    ensures Free(PutHead(name, key, flags, e, bytes), '\n')
  {
    hide Decimal;
    var n: nat := if e < 0 then -e else e;
    DecimalIsFree(flags, '\n');
    DecimalIsFree(n, '\n');
    DecimalIsFree(bytes, '\n');
    var t0 := Decimal(bytes) + "\r";
    var t1 := Signed(e) + (" " + t0);
    var t2 := Decimal(flags) + (" " + t1);
    assert Free(name, '\n') && Free(" ", '\n') && Free("\r", '\n') && Free("-", '\n');
    hide Free;
    FreeOfAppend("-", Decimal(n), '\n');
    FreeOfAppend(Decimal(bytes), "\r", '\n');
    FreeOfAppend(" ", t0, '\n');
    FreeOfAppend(Signed(e), " " + t0, '\n');
    FreeOfAppend(" ", t1, '\n');
    FreeOfAppend(Decimal(flags), " " + t1, '\n');
    FreeOfAppend(" ", t2, '\n');
    FreeOfAppend(key, " " + t2, '\n');
    FreeOfAppend(" ", key + (" " + t2), '\n');
    FreeOfAppend(name, " " + (key + (" " + t2)), '\n');
  }

  /** So does a storage line whose numbers are refused. */
  lemma RefusedNumbersClose(respond: Responder, c: Conn, name: string, key: string, flags: nat, e: int, bytes: nat,
                            rest: string)
    requires IsIdle(c) && (name == "set" || name == "add" || name == "append" || name == "prepend")
    requires Free(key, ' ') && Free(key, '\n')
    requires Wraps(flags) || !IsI32(TimeRead(e)) || Wraps(bytes)
    ensures Ready(c) && ClosedUnheard(c, TakeBytes(respond, c, PutHead(name, key, flags, e, bytes) + rest))
  {
    hide FeedAll, Wraps, TimeRead, Decimal, PutHead, Free;
    PutHeadIsRead(c.parser.negative, name, key, flags, e, bytes);
    PutHeadIsOneLine(name, key, flags, e, bytes);
    RefusedLineCloses(respond, c, PutHead(name, key, flags, e, bytes), rest);
  }

  /** A whole line of a command that is read but not known. */
  lemma UnsupportedCloses(respond: Responder, c: Conn, head: string, rest: string)
    requires IsIdle(c) && FeedAll(c.parser, head).Fed?
    requires FeedAll(c.parser, head).fields.stage == LF && !FeedAll(c.parser, head).fields.complete
    requires IsSound(FeedAll(c.parser, head).fields) && CommandOf(FeedAll(c.parser, head).fields) == Unsupported
    ensures Ready(c) && ClosedUnheard(c, TakeBytes(respond, c, head + "\n" + rest))
  {
    hide FeedAll;
    LineIsTaken(respond, c, head, rest);
    var line := c.(parser := FeedAll(c.parser, head).fields.(complete := true));
    var done := LineDone(respond, line);
    assert ClosedUnheard(c, done);
    DeadTakesNothing(respond, done, rest);
  }

  /** `prepend`, in any spelling of its numbers, closes the connection at its line feed. */
  lemma PrependCloses(respond: Responder, c: Conn, key: string, flags: string, skipped: string, minus: bool,
                      time: string, bytes: string, rest: string)
    requires IsIdle(c) && Free(key, ' ') && Free(flags, ' ') && IsSkipped(skipped) && Free(time, ' ')
    requires (minus || (time != "" && IsDigit(time[0]))) && Free(bytes, '\r')
    requires !WrapsIn(flags) && IsI32(TimeSum(minus, time)) && !WrapsIn(bytes)
    ensures var head := TextHead("prepend", key, flags, skipped, minus, time, bytes);
            Ready(c) && ClosedUnheard(c, TakeBytes(respond, c, head + "\n" + rest))
  {
    hide FeedAll, TextHead, WrapsIn, NumberOf, SumOf, TimeSum;
    TextHeadIsRead(c.parser.negative, "prepend", key, flags, skipped, minus, time, bytes);
    UnsupportedCloses(respond, c, TextHead("prepend", key, flags, skipped, minus, time, bytes), rest);
  }

  /** And so does `gets`, whatever its keys. */
  lemma GetsCloses(respond: Responder, c: Conn, keys: seq<string>, rest: string)
    requires IsIdle(c) && AreGetKeys(keys)
    ensures Ready(c) && ClosedUnheard(c, TakeBytes(respond, c, GetHead("gets", keys) + "\n" + rest))
  {
    hide FeedAll, GetHead;
    GetHeadIsRead(c.parser.negative, "gets", keys);
    UnsupportedCloses(respond, c, GetHead("gets", keys), rest);
  }
}
