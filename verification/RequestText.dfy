/** Requests in the text of the memcached protocol, and what the parser makes of them. */
module RequestText {
  import opened Protocol

  // ---------- Feeding several bytes ----------

  function FeedAll(f: Fields, s: string): Fed
    decreases |s|
  {
    if s == "" then Fed(f)
    else
      match Feed(f, s[0])
      case Thrown => Thrown
      case Fed(g) => FeedAll(g, s[1..])
  }

  lemma {:induction false} FeedAllOfAppend(f: Fields, a: string, b: string)
    ensures FeedAll(f, a + b) == if FeedAll(f, a).Fed? then FeedAll(FeedAll(f, a).fields, b) else Thrown
    decreases |a|
  {
    if a == "" {
      assert a + b == b;
    } else {
      assert (a + b)[0] == a[0] && (a + b)[1..] == a[1..] + b;
      if Feed(f, a[0]).Fed? {
        FeedAllOfAppend(Feed(f, a[0]).fields, a[1..], b);
      }
    }
  }

  /** How a call of `Parse` goes over bytes that all feed and complete nothing before the last. */
  lemma {:induction false} ScanOfFed(f: Fields, s: string, rest: string)
    requires s != "" && !f.complete && FeedAll(f, s[..|s| - 1]).Fed? && !FeedAll(f, s[..|s| - 1]).fields.complete
    requires FeedAll(f, s).Fed?
    ensures Scan(f, s + rest) == After(Scan(FeedAll(f, s).fields, rest), |s|)
    decreases |s|
  {
    var g := Feed(f, s[0]).fields;
    assert (s + rest)[0] == s[0] && (s + rest)[1..] == s[1..] + rest;
    if |s| == 1 {
      assert s[1..] + rest == rest;
    } else {
      assert s[..|s| - 1][0] == s[0] && s[..|s| - 1][1..] == s[1..][..|s| - 2];
      CompleteStays(g, s[1..][..|s| - 2]);
      ScanOfFed(g, s[1..], rest);
    }
  }

  lemma {:induction false} CompleteStays(f: Fields, s: string)
    requires FeedAll(f, s).Fed? && !FeedAll(f, s).fields.complete
    ensures !f.complete
    decreases |s|
  {
    if s != "" {
      CompleteStays(Feed(f, s[0]).fields, s[1..]);
    }
  }

  // ---------- Words and numbers ----------

  ghost predicate Free(s: string, c: char) {
    forall k :: 0 <= k < |s| ==> s[k] != c
  }

  lemma {:induction false} NameIsRead(f: Fields, s: string)
    requires f.stage == Name && Free(s, ' ') && Free(s, '\r')
    ensures FeedAll(f, s) == Fed(f.(name := f.name + s))
    decreases |s|
  {
    if s == "" {
      assert f.name + s == f.name;
    } else {
      NameIsRead(f.(name := f.name + [s[0]]), s[1..]);
      assert f.name + [s[0]] + s[1..] == f.name + s;
    }
  }

  lemma {:induction false} PutKeyIsRead(f: Fields, s: string)
    requires f.stage == PutKey && Free(s, ' ')
    ensures FeedAll(f, s) == Fed(f.(curKey := f.curKey + s))
    decreases |s|
  {
    if s == "" {
      assert f.curKey + s == f.curKey;
    } else {
      PutKeyIsRead(f.(curKey := f.curKey + [s[0]]), s[1..]);
      assert f.curKey + [s[0]] + s[1..] == f.curKey + s;
    }
  }

  lemma {:induction false} GetKeyIsRead(f: Fields, s: string)
    requires f.stage == GetKey && Free(s, ' ') && Free(s, '\r')
    ensures FeedAll(f, s) == Fed(f.(curKey := f.curKey + s))
    decreases |s|
  {
    if s == "" {
      assert f.curKey + s == f.curKey;
    } else {
      GetKeyIsRead(f.(curKey := f.curKey + [s[0]]), s[1..]);
      assert f.curKey + [s[0]] + s[1..] == f.curKey + s;
    }
  }

  /**
   * The word before the first space or carriage return decides what follows:
   * four lead to a key to store under, two to keys to look up, one to the line
   * feed, and any other is refused.
   */
  lemma NameDecides(negative: bool, word: string, end: char)
    requires Free(word, ' ') && Free(word, '\r') && (end == ' ' || end == '\r')
    ensures FeedAll(Cleared(negative), word + [end]) ==
      if word in {"set", "add", "append", "prepend"} then Fed(Cleared(negative).(name := word, stage := PutKey))
      else if word in {"get", "gets"} then Fed(Cleared(negative).(name := word, stage := GetKey))
      else if word == "stats" then Fed(Cleared(negative).(name := word, stage := LF))
      else Thrown
  {
    NameIsRead(Cleared(negative), word);
    assert Cleared(negative).name + word == word;
    FeedAllOfAppend(Cleared(negative), word, [end]);
    FedOne(Cleared(negative).(name := word), end);
  }

  function DigitChar(d: nat): (c: char)
    requires d < 10
    ensures IsDigit(c) && DigitOf(c) == d
  {
    ('0' as int + d) as char
  }

  /** A number in decimal. */
  function Decimal(n: nat): (s: string)
    ensures |s| > 0 && forall k :: 0 <= k < |s| ==> IsDigit(s[k])
  {
    if n < 10 then [DigitChar(n)] else Decimal(n / 10) + [DigitChar(n % 10)]
  }

  function DigitSum(n: nat): nat {
    if n < 10 then n else DigitSum(n / 10) + n % 10
  }

  lemma {:induction false} DigitSumIsSmall(n: nat)
    ensures DigitSum(n) <= n && (DigitSum(n) == n <==> n < 10)
  {
    if n >= 10 {
      DigitSumIsSmall(n / 10);
    }
  }

  lemma FedOne(f: Fields, c: char)
    ensures FeedAll(f, [c]) == Feed(f, c)
  {
    assert [c][1..] == "";
    if Feed(f, c).Fed? {
      assert FeedAll(Feed(f, c).fields, "") == Feed(f, c);
    }
  }

  /** Another digit on a number read so far modulo 2^32; a number in range is not refused. */
  lemma PushedModulo(m: nat, d: nat)
    ensures Pushed(m % U32, d) == (m * 10 + d) % U32
    ensures m * 10 + d < U32 ==> m % U32 <= Pushed(m % U32, d)
  {
    assert m == U32 * (m / U32) + m % U32;
    assert m * 10 + d == (m % U32 * 10 + d) + U32 * (m / U32 * 10);
    ModuloOfSum(m % U32 * 10 + d, m / U32 * 10);
  }

  lemma ModuloOfSum(a: nat, k: nat)
    ensures (a + U32 * k) % U32 == a % U32
  {
  }

  /** Some digit of the number takes the 32-bit field below what it was before. */
  ghost predicate Wraps(n: nat) {
    n >= 10 && (Wraps(n / 10) || n % U32 < n / 10 % U32)
  }

  /** Only numbers from 2^32 on wrap. */
  lemma {:induction false} WrapsOnlyFromLimit(n: nat)
    ensures n < U32 ==> !Wraps(n)
  {
    if n >= 10 {
      WrapsOnlyFromLimit(n / 10);
    }
  }

  // ---------- Numeric fields, whatever bytes they hold ----------

  /** The number that the digits of a text spell; other bytes are skipped. */
  function NumberOf(s: string): nat {
    if s == "" then 0
    else
      var n, c := NumberOf(s[..|s| - 1]), s[|s| - 1];
      if IsDigit(c) then n * 10 + DigitOf(c) else n
  }

  /** The sum of the digits of a text. */
  function SumOf(s: string): nat {
    if s == "" then 0
    else SumOf(s[..|s| - 1]) + if IsDigit(s[|s| - 1]) then DigitOf(s[|s| - 1]) else 0
  }

  /** Some digit of the text takes the 32-bit field below what it was before. */
  ghost predicate WrapsIn(s: string) {
    s != "" && (WrapsIn(s[..|s| - 1]) || NumberOf(s) % U32 < NumberOf(s[..|s| - 1]) % U32)
  }

  lemma NothingSpells()
    ensures NumberOf("") == 0 == SumOf("") && !WrapsIn("")
  {
  }

  lemma OneByteMore(s: string, c: char)
    ensures NumberOf(s + [c]) == if IsDigit(c) then NumberOf(s) * 10 + DigitOf(c) else NumberOf(s)
    ensures SumOf(s + [c]) == SumOf(s) + if IsDigit(c) then DigitOf(c) else 0
    ensures WrapsIn(s + [c]) <==> WrapsIn(s) || NumberOf(s + [c]) % U32 < NumberOf(s) % U32
  {
    assert (s + [c])[..|s|] == s;
  }

  lemma FlagsByte(f: Fields, s: string, c: char)
    requires f.stage == Flags && c != ' '
    ensures FeedAll(f.(flags := NumberOf(s) % U32), [c]) ==
      if NumberOf(s + [c]) % U32 < NumberOf(s) % U32 then Thrown else Fed(f.(flags := NumberOf(s + [c]) % U32))
  {
    hide Pushed, FeedAll, NumberOf;
    OneByteMore(s, c);
    FedOne(f.(flags := NumberOf(s) % U32), c);
    if IsDigit(c) {
      PushedModulo(NumberOf(s), DigitOf(c));
    }
  }

  /** The flags end at a space; they are refused exactly if they wrap, and else read modulo 2^32. */
  lemma {:induction false} FlagsTextIsRead(f: Fields, s: string)
    requires f.stage == Flags && f.flags == 0 && Free(s, ' ')
    ensures FeedAll(f, s) == if WrapsIn(s) then Thrown else Fed(f.(flags := NumberOf(s) % U32))
    decreases |s|
  {
    hide NumberOf, Feed, IsDigit;
    if s == "" {
      NothingSpells();
    } else {
      var init, c := s[..|s| - 1], s[|s| - 1];
      assert s == init + [c];
      FlagsTextIsRead(f, init);
      FeedAllOfAppend(f, init, [c]);
      OneByteMore(init, c);
      FlagsByte(f, init, c);
      hide FeedAll;
    }
  }

  lemma BytesByte(f: Fields, s: string, c: char)
    requires f.stage == Bytes && c != '\r'
    ensures FeedAll(f.(bytes := NumberOf(s) % U32), [c]) ==
      if NumberOf(s + [c]) % U32 < NumberOf(s) % U32 then Thrown else Fed(f.(bytes := NumberOf(s + [c]) % U32))
  {
    hide Pushed, FeedAll, NumberOf;
    OneByteMore(s, c);
    FedOne(f.(bytes := NumberOf(s) % U32), c);
    if IsDigit(c) {
      PushedModulo(NumberOf(s), DigitOf(c));
    }
  }

  /** The size ends at a carriage return; anything else after it, such as a word, is skipped. */
  lemma {:induction false} BytesTextIsRead(f: Fields, s: string)
    requires f.stage == Bytes && f.bytes == 0 && Free(s, '\r')
    ensures FeedAll(f, s) == if WrapsIn(s) then Thrown else Fed(f.(bytes := NumberOf(s) % U32))
    decreases |s|
  {
    hide NumberOf, Feed, IsDigit;
    if s == "" {
      NothingSpells();
    } else {
      var init, c := s[..|s| - 1], s[|s| - 1];
      assert s == init + [c];
      BytesTextIsRead(f, init);
      FeedAllOfAppend(f, init, [c]);
      OneByteMore(init, c);
      BytesByte(f, init, c);
      hide FeedAll;
    }
  }

  // The expiry is refused exactly if the sum of its digits, with its sign, leaves 32 bits.

  function SignedSum(f: Fields, s: string): int {
    if f.negative then f.exprtime - SumOf(s) else f.exprtime + SumOf(s)
  }

  lemma TimeByte(f: Fields, c: char)
    requires f.stage == ExprTime && c != ' ' && IsI32(f.exprtime)
    ensures FeedAll(f, [c]) ==
      if IsI32(SignedSum(f, [c])) then Fed(f.(exprtime := SignedSum(f, [c]))) else Thrown
  {
    hide FeedAll;
    OneByteMore("", c);
    assert "" + [c] == [c];
    FedOne(f, c);
  }

  lemma {:induction false} TimeTextIsRead(f: Fields, s: string)
    requires f.stage == ExprTime && Free(s, ' ') && IsI32(f.exprtime)
    ensures FeedAll(f, s) == if IsI32(SignedSum(f, s)) then Fed(f.(exprtime := SignedSum(f, s))) else Thrown
    decreases |s|
  {
    hide Feed, IsDigit, SumOf;
    if s == "" {
      NothingSpells();
    } else {
      var init, c := s[..|s| - 1], s[|s| - 1];
      assert s == init + [c];
      TimeTextIsRead(f, init);
      FeedAllOfAppend(f, init, [c]);
      OneByteMore(init, c);
      OneByteMore("", c);
      NothingSpells();
      assert "" + [c] == [c];
      hide FeedAll;
      if IsI32(SignedSum(f, init)) {
        TimeByte(f.(exprtime := SignedSum(f, init)), c);
      }
    }
  }

  /** Before its sign or first digit the expiry skips any byte, spaces included. */
  ghost predicate IsSkipped(s: string) {
    forall k :: 0 <= k < |s| ==> s[k] != '-' && !IsDigit(s[k])
  }

  lemma {:induction false} SkippedIsSkipped(f: Fields, s: string)
    requires f.stage == ExprTimeStart && IsSkipped(s)
    ensures FeedAll(f, s) == Fed(f)
    decreases |s|
  {
    if s != "" {
      SkippedIsSkipped(f, s[1..]);
    }
  }

  lemma {:induction false} SumOfHead(s: string)
    requires s != ""
    ensures SumOf(s) == (if IsDigit(s[0]) then DigitOf(s[0]) else 0) + SumOf(s[1..])
    decreases |s|
  {
    if |s| > 1 {
      SumOfHead(s[..|s| - 1]);
      assert s[..|s| - 1][1..] == s[1..][..|s| - 2];
    }
  }

  function Sign(minus: bool): string {
    if minus then "-" else ""
  }

  /** The sum a signed expiry is read as. */
  function TimeSum(minus: bool, time: string): int {
    if minus then 0 - SumOf(time) else SumOf(time)
  }

  lemma SignedTimeIsRead(f: Fields, minus: bool, time: string)
    requires f.stage == ExprTimeStart && f.exprtime == 0 && !f.negative && Free(time, ' ')
    requires minus || (time != "" && IsDigit(time[0]))
    ensures FeedAll(f, Sign(minus) + time) ==
      if IsI32(TimeSum(minus, time))
      then Fed(f.(stage := ExprTime, exprtime := TimeSum(minus, time), negative := minus))
      else Thrown
  {
    hide FeedAll, SumOf;
    if minus {
      var g := f.(stage := ExprTime, negative := true);
      FeedAllOfAppend(f, "-", time);
      FedOne(f, '-');
      TimeTextIsRead(g, time);
    } else {
      var g := f.(stage := ExprTime, exprtime := DigitOf(time[0]));
      assert Sign(minus) + time == [time[0]] + time[1..];
      FeedAllOfAppend(f, [time[0]], time[1..]);
      FedOne(f, time[0]);
      TimeTextIsRead(g, time[1..]);
      SumOfHead(time);
    }
  }

  // ---------- Printed numbers ----------

  /** What a printed number spells. */
  lemma {:induction false} DecimalSpells(n: nat)
    ensures NumberOf(Decimal(n)) == n && SumOf(Decimal(n)) == DigitSum(n) && (WrapsIn(Decimal(n)) <==> Wraps(n))
  {
    hide NumberOf, SumOf, WrapsIn;
    var d := [DigitChar(n % 10)];
    if n < 10 {
      OneByteMore("", DigitChar(n));
      assert "" + [DigitChar(n)] == Decimal(n);
      NothingSpells();
    } else {
      DecimalSpells(n / 10);
      OneByteMore(Decimal(n / 10), DigitChar(n % 10));
    }
  }

  lemma DecimalIsFree(n: nat, c: char)
    requires !IsDigit(c)
    ensures Free(Decimal(n), c)
  {
  }

  lemma FlagsAreRead(f: Fields, n: nat)
    requires f.stage == Flags && f.flags == 0
    ensures FeedAll(f, Decimal(n)) == if Wraps(n) then Thrown else Fed(f.(flags := n % U32))
  {
    DecimalIsFree(n, ' ');
    DecimalSpells(n);
    FlagsTextIsRead(f, Decimal(n));
    hide FeedAll, Decimal, NumberOf, WrapsIn, Wraps;
  }

  lemma BytesAreRead(f: Fields, n: nat)
    requires f.stage == Bytes && f.bytes == 0
    ensures FeedAll(f, Decimal(n)) == if Wraps(n) then Thrown else Fed(f.(bytes := n % U32))
  {
    DecimalIsFree(n, '\r');
    DecimalSpells(n);
    BytesTextIsRead(f, Decimal(n));
    hide FeedAll, Decimal, NumberOf, WrapsIn, Wraps;
  }

  predicate IsI32(e: int) {
    -I32_MAX - 1 <= e <= I32_MAX
  }

  function Signed(e: int): string {
    if e < 0 then "-" + Decimal(-e) else Decimal(e)
  }

  /** What the parser makes of a printed expiry time: its digits added up. */
  function TimeRead(e: int): int {
    if e < 0 then 0 - DigitSum(-e) else DigitSum(e)
  }

  // ---------- Lines ----------

  /** A storage line up to its line feed. */
  function PutHead(name: string, key: string, flags: nat, e: int, bytes: nat): string {
    name + (" " + (key + (" " + (Decimal(flags) + (" " + (Signed(e) + (" " + (Decimal(bytes) + "\r"))))))))
  }

  function PutLine(name: string, key: string, flags: nat, e: int, bytes: nat): string {
    PutHead(name, key, flags, e, bytes) + "\n"
  }

  /** The parser's fields after a storage line with these values. */
  function PutFields(name: string, key: string, flags: int, e: int, bytes: int,
                     negative: bool, complete: bool): Fields
  {
    Fields(LF, name, [key], flags, e, bytes, negative, key, complete)
  }

  /** Feeds a segment and the byte that ends it. */
  lemma FeedSegment(f: Fields, segment: string, end: string, rest: string)
    requires |end| == 1
    ensures FeedAll(f, segment + (end + rest)) ==
      if FeedAll(f, segment).Thrown? || Feed(FeedAll(f, segment).fields, end[0]).Thrown? then Thrown
      else FeedAll(Feed(FeedAll(f, segment).fields, end[0]).fields, rest)
  {
    FeedAllOfAppend(f, segment, end + rest);
    if FeedAll(f, segment).Fed? {
      FeedAllOfAppend(FeedAll(f, segment).fields, end, rest);
      assert end == [end[0]];
      FedOne(FeedAll(f, segment).fields, end[0]);
    }
  }

  lemma PutNameIsRead(negative: bool, name: string, rest: string)
    requires IsPut(name)
    ensures FeedAll(Cleared(negative), name + (" " + rest)) ==
      FeedAll(Cleared(negative).(name := name, stage := PutKey), rest)
  {
    hide FeedAll;
    FeedSegment(Cleared(negative), name, " ", rest);
    NameIsRead(Cleared(negative), name);
    assert Cleared(negative).name + name == name;
  }

  /** A storage line with any text for its three numbers. */
  function TextHead(name: string, key: string, flags: string, skipped: string, minus: bool, time: string,
                    bytes: string): string
  {
    name + (" " + (key + (" " + (flags + TextTail(skipped, minus, time, bytes)))))
  }

  function TextTail(skipped: string, minus: bool, time: string, bytes: string): string {
    " " + (skipped + (Sign(minus) + time + (" " + (bytes + "\r"))))
  }

  lemma TextTailIsRead(f: Fields, skipped: string, minus: bool, time: string, bytes: string)
    requires f.stage == Flags && f.exprtime == 0 && f.bytes == 0
    requires IsSkipped(skipped) && Free(time, ' ') && (minus || (time != "" && IsDigit(time[0]))) && Free(bytes, '\r')
    ensures FeedAll(f, TextTail(skipped, minus, time, bytes)) ==
      if !IsI32(TimeSum(minus, time)) || WrapsIn(bytes) then Thrown
      else Fed(f.(stage := LF, exprtime := TimeSum(minus, time), bytes := NumberOf(bytes) % U32, negative := minus))
  {
    hide FeedAll, NumberOf, WrapsIn, SumOf, TimeSum;
    var f1 := f.(negative := false, stage := ExprTimeStart);
    var f3 := f1.(stage := Bytes, exprtime := TimeSum(minus, time), negative := minus);
    FeedAllOfAppend(f, " ", skipped + (Sign(minus) + time + (" " + (bytes + "\r"))));
    FedOne(f, ' ');
    FeedAllOfAppend(f1, skipped, Sign(minus) + time + (" " + (bytes + "\r")));
    SkippedIsSkipped(f1, skipped);
    FeedSegment(f1, Sign(minus) + time, " ", bytes + "\r");
    SignedTimeIsRead(f1, minus, time);
    FeedSegment(f3, bytes, "\r", "");
    BytesTextIsRead(f3, bytes);
    assert "\r" + "" == "\r";
    NothingIsFed(f3.(bytes := NumberOf(bytes) % U32, stage := LF));
  }

  lemma NothingIsFed(f: Fields)
    ensures FeedAll(f, "") == Fed(f)
  {
  }

  /**
   * Any storage line, up to its line feed: bytes that are no digits are skipped
   * in the numbers, and it is refused exactly if flags or size wrap or the
   * digits of the expiry add up too high.
   */
  lemma TextHeadIsRead(negative: bool, name: string, key: string, flags: string, skipped: string, minus: bool,
                       time: string, bytes: string)
    requires IsPut(name) && Free(key, ' ') && Free(flags, ' ') && IsSkipped(skipped) && Free(time, ' ')
    requires (minus || (time != "" && IsDigit(time[0]))) && Free(bytes, '\r')
    ensures FeedAll(Cleared(negative), TextHead(name, key, flags, skipped, minus, time, bytes)) ==
      if WrapsIn(flags) || !IsI32(TimeSum(minus, time)) || WrapsIn(bytes) then Thrown
      else Fed(PutFields(name, key, NumberOf(flags) % U32, TimeSum(minus, time), NumberOf(bytes) % U32, minus, false))
  {
    hide FeedAll, TextTail, NumberOf, WrapsIn, SumOf, TimeSum;
    var tail := TextTail(skipped, minus, time, bytes);
    var f1 := Cleared(negative).(name := name, stage := PutKey);
    var f2 := f1.(curKey := key, stage := Flags, keys := [key]);
    PutNameIsRead(negative, name, key + (" " + (flags + tail)));
    FeedSegment(f1, key, " ", flags + tail);
    PutKeyIsRead(f1, key);
    assert f1.curKey + key == key && f1.keys + [key] == [key];
    FeedAllOfAppend(f2, flags, tail);
    FlagsTextIsRead(f2, flags);
    TextTailIsRead(f2.(flags := NumberOf(flags) % U32), skipped, minus, time, bytes);
  }

  lemma PrintedIsText(name: string, key: string, flags: nat, e: int, bytes: nat)
    ensures PutHead(name, key, flags, e, bytes) ==
      TextHead(name, key, Decimal(flags), "", e < 0, Decimal(if e < 0 then -e else e), Decimal(bytes))
  {
    var time, tail := Decimal(if e < 0 then -e else e), " " + (Decimal(bytes) + "\r");
    assert "" + (Sign(e < 0) + time + tail) == Signed(e) + tail;
  }

  /** A storage line is refused exactly if its flags or its size wrap or the digits of its expiry add up too high. */
  lemma PutHeadIsRead(negative: bool, name: string, key: string, flags: nat, e: int, bytes: nat)
    requires IsPut(name) && Free(key, ' ')
    ensures var r := FeedAll(Cleared(negative), PutHead(name, key, flags, e, bytes));
            r == if Wraps(flags) || !IsI32(TimeRead(e)) || Wraps(bytes) then Thrown
                 else Fed(PutFields(name, key, flags % U32, TimeRead(e), bytes % U32, e < 0, false))
  {
    hide FeedAll, TextHead, PutHead, Decimal, NumberOf, WrapsIn, SumOf, DigitSum, Wraps;
    var n: nat := if e < 0 then -e else e;
    PrintedIsText(name, key, flags, e, bytes);
    DecimalIsFree(flags, ' ');
    DecimalIsFree(n, ' ');
    DecimalIsFree(bytes, '\r');
    DecimalSpells(flags);
    DecimalSpells(n);
    DecimalSpells(bytes);
    TextHeadIsRead(negative, name, key, Decimal(flags), "", e < 0, Decimal(n), Decimal(bytes));
  }

  /** After its carriage return a line takes a line feed, which ends it, and no other byte. */
  lemma OnlyLineFeedEnds(f: Fields, head: string, c: char)
    requires FeedAll(f, head).Fed? && FeedAll(f, head).fields.stage == LF
    ensures FeedAll(f, head + [c]) ==
      if c == '\n' then Fed(FeedAll(f, head).fields.(complete := true)) else Thrown
  {
    FeedAllOfAppend(f, head, [c]);
    FedOne(FeedAll(f, head).fields, c);
  }

  /** From a line read up to its line feed to one call of `Parse` on the line and whatever follows it. */
  lemma LineEnds(f: Fields, head: string, rest: string)
    requires !f.complete && FeedAll(f, head).Fed? && FeedAll(f, head).fields.stage == LF
        && !FeedAll(f, head).fields.complete
    ensures FeedAll(f, head + "\n") == Fed(FeedAll(f, head).fields.(complete := true))
    ensures Scan(f, head + "\n" + rest) == Stop(FeedAll(f, head).fields.(complete := true), |head| + 1, false)
  {
    var line := head + "\n";
    FeedAllOfAppend(f, head, "\n");
    FedOne(FeedAll(f, head).fields, '\n');
    assert line[..|line| - 1] == head;
    ScanOfFed(f, line, rest);
  }

  /** A printed storage line is consumed exactly and builds its command, with the expiry's digits added up. */
  lemma PutLineRoundTrip(negative: bool, name: string, key: string, flags: nat, e: int, bytes: nat, rest: string)
    requires IsPut(name) && Free(key, ' ') && IsI32(TimeRead(e)) && flags < U32 && bytes < U32
    ensures var line := PutLine(name, key, flags, e, bytes);
            var stop := Scan(Cleared(negative), line + rest);
            && stop.consumed == |line| && !stop.threw && IsSound(stop.fields) && stop.fields.complete
            && CommandOf(stop.fields) ==
                 if name == "set" then Command(Set(key, flags, TimeRead(e)), bytes)
                 else if name == "add" then Command(Add(key, flags, TimeRead(e)), bytes)
                 else if name == "append" then Command(Append(key, flags, TimeRead(e)), bytes)
                 else Unsupported
  {
    hide FeedAll, Feed, Scan, PutHead, Wraps, TimeRead;
    PutHeadIsRead(negative, name, key, flags, e, bytes);
    WrapsOnlyFromLimit(flags);
    WrapsOnlyFromLimit(bytes);
    LineEnds(Cleared(negative), PutHead(name, key, flags, e, bytes), rest);
  }

  /**
   * A storage line of any flags, expiry and size is refused if and only if the
   * first or the last wraps or the digits of the expiry add up to more than 32
   * bits hold, and is otherwise read with the two modulo 2^32.
   */
  lemma PutLineIsRefusedIff(negative: bool, name: string, key: string, flags: nat, e: int, bytes: nat)
    requires IsPut(name) && Free(key, ' ')
    ensures FeedAll(Cleared(negative), PutLine(name, key, flags, e, bytes)) ==
      if Wraps(flags) || !IsI32(TimeRead(e)) || Wraps(bytes) then Thrown
      else Fed(PutFields(name, key, flags % U32, TimeRead(e), bytes % U32, e < 0, true))
  {
    hide FeedAll, PutHead, Wraps;
    var head := PutHead(name, key, flags, e, bytes);
    PutHeadIsRead(negative, name, key, flags, e, bytes);
    if FeedAll(Cleared(negative), head).Fed? {
      LineEnds(Cleared(negative), head, "");
    } else {
      FeedAllOfAppend(Cleared(negative), head, "\n");
    }
  }

  lemma TimeReadIsSmall(e: int)
    ensures IsI32(e) ==> IsI32(TimeRead(e))
    ensures TimeRead(e) == e <==> -10 < e < 10
  {
    DigitSumIsSmall(if e < 0 then -e else e);
  }

  /** The fields come back as printed exactly when the two counts fit 32 bits and the expiry has one digit. */
  lemma PutLineIsExactIff(negative: bool, name: string, key: string, flags: nat, e: int, bytes: nat)
    requires IsPut(name) && Free(key, ' ')
    ensures FeedAll(Cleared(negative), PutLine(name, key, flags, e, bytes)) ==
        Fed(PutFields(name, key, flags, e, bytes, e < 0, true))
      <==> flags < U32 && bytes < U32 && -10 < e < 10
  {
    hide FeedAll, PutLine, Wraps;
    PutLineIsRefusedIff(negative, name, key, flags, e, bytes);
    WrapsOnlyFromLimit(flags);
    WrapsOnlyFromLimit(bytes);
    TimeReadIsSmall(e);
  }

  /** One more digit on a number in range. */
  lemma WrapsWithOneDigitMore(m: nat, d: nat)
    requires 0 < m < U32 && d < 10
    ensures Wraps(m * 10 + d) <==> (m * 10 + d) % U32 < m
  {
    WrapsOnlyFromLimit(m);
    assert (m * 10 + d) / 10 == m;
  }

  /** Of the numbers from 2^32 on the wrap test stops some and misses others, which are stored modulo 2^32. */
  lemma WrapTestIsPartial(f: Fields)
    requires f.stage == Flags && f.flags == 0
    ensures FeedAll(f, Decimal(5_000_000_000)) == Fed(f.(flags := 705_032_704))
    ensures FeedAll(f, Decimal(4_294_967_296)) == Thrown
  {
    hide Decimal, FeedAll, Feed, Wraps;
    WrapsWithOneDigitMore(500_000_000, 0);
    FlagsAreRead(f, 5_000_000_000);
    WrapsWithOneDigitMore(429_496_729, 6);
    FlagsAreRead(f, 4_294_967_296);
  }

  function Keys(keys: seq<string>): string
    requires keys != []
  {
    if |keys| == 1 then keys[0] + "\r" else keys[0] + (" " + Keys(keys[1..]))
  }

  function GetHead(name: string, keys: seq<string>): string
    requires keys != []
  {
    name + (" " + Keys(keys))
  }

  function GetLine(name: string, keys: seq<string>): string
    requires keys != []
  {
    GetHead(name, keys) + "\n"
  }

  ghost predicate AreGetKeys(keys: seq<string>) {
    keys != [] && forall k :: 0 <= k < |keys| ==> Free(keys[k], ' ') && Free(keys[k], '\r')
  }

  lemma {:induction false} KeysAreRead(f: Fields, keys: seq<string>)
    requires f.stage == GetKey && f.curKey == "" && AreGetKeys(keys)
    ensures FeedAll(f, Keys(keys)) == Fed(f.(stage := LF, keys := f.keys + keys))
    decreases |keys|
  {
    GetKeyIsRead(f, keys[0]);
    assert f.curKey + keys[0] == keys[0];
    if |keys| == 1 {
      FeedSegment(f, keys[0], "\r", "");
      assert "\r" + "" == "\r" && [keys[0]] == keys;
    } else {
      FeedSegment(f, keys[0], " ", Keys(keys[1..]));
      KeysAreRead(f.(keys := f.keys + [keys[0]]), keys[1..]);
      assert f.keys + [keys[0]] + keys[1..] == f.keys + keys;
    }
  }

  lemma GetNameIsRead(negative: bool, name: string, rest: string)
    requires name == "get" || name == "gets"
    ensures FeedAll(Cleared(negative), name + (" " + rest)) ==
      FeedAll(Cleared(negative).(name := name, stage := GetKey), rest)
  {
    hide FeedAll;
    FeedSegment(Cleared(negative), name, " ", rest);
    NameIsRead(Cleared(negative), name);
    assert Cleared(negative).name + name == name;
  }

  lemma GetHeadIsRead(negative: bool, name: string, keys: seq<string>)
    requires (name == "get" || name == "gets") && AreGetKeys(keys)
    ensures FeedAll(Cleared(negative), GetHead(name, keys)) ==
        Fed(Cleared(negative).(stage := LF, name := name, keys := keys))
  {
    hide FeedAll, Feed, Keys;
    var f1 := Cleared(negative).(name := name, stage := GetKey);
    GetNameIsRead(negative, name, Keys(keys));
    KeysAreRead(f1, keys);
    assert f1.keys + keys == keys;
  }

  /** A printed retrieval line is consumed exactly and asks for exactly its keys. */
  lemma GetLineRoundTrip(negative: bool, name: string, keys: seq<string>, rest: string)
    requires (name == "get" || name == "gets") && AreGetKeys(keys)
    ensures var line := GetLine(name, keys);
            var stop := Scan(Cleared(negative), line + rest);
            && stop.consumed == |line| && !stop.threw && IsSound(stop.fields) && stop.fields.complete
            && CommandOf(stop.fields) == if name == "get" then Command(Get(keys), 0) else Unsupported
  {
    hide FeedAll, Feed, Scan, GetHead;
    GetHeadIsRead(negative, name, keys);
    LineEnds(Cleared(negative), GetHead(name, keys), rest);
  }

  /** Cutting the input anywhere does not change where `Parse` ends up. */
  lemma {:induction false} ScanOfCut(f: Fields, a: string, b: string)
    ensures var first := Scan(f, a);
            Scan(f, a + b) ==
              if first.threw || first.fields.complete then first else After(Scan(first.fields, b), |a|)
    decreases |a|
  {
    if a == "" {
      assert a + b == b;
      assert f.complete ==> Scan(f, b) == Stop(f, 0, false);
    } else {
      assert (a + b)[0] == a[0] && (a + b)[1..] == a[1..] + b;
      if !f.complete && Feed(f, a[0]).Fed? {
        ScanOfCut(Feed(f, a[0]).fields, a[1..], b);
      }
    }
  }
}
