/** The incremental parser of memcached requests: a state machine fed one byte at a time. */
module Protocol {

  const U32: int := 0x1_0000_0000
  const I32_MAX: int := 0x7FFF_FFFF

  datatype Stage = Name | PutKey | Flags | ExprTimeStart | ExprTime | Bytes | GetKey | LF

  /** The parser's fields. */
  datatype Fields = Fields(stage: Stage, name: string, keys: seq<string>, flags: int, exprtime: int, bytes: int,
                           negative: bool, curKey: string, complete: bool)

  /** Fields as `Reset` leaves them; `negative` keeps its value. */
  function Cleared(negative: bool): Fields {
    Fields(Name, "", [], 0, 0, 0, negative, "", false)
  }

  datatype Fed = Fed(fields: Fields) | Thrown

  predicate IsDigit(c: char) {
    '0' <= c <= '9'
  }

  function DigitOf(c: char): (d: nat)
    requires IsDigit(c)
    ensures d < 10
  {
    c as int - '0' as int
  }

  /** `field * 10 + digit` in 32 bits, and whether the wrap test accepts it. */
  function Pushed(field: int, d: nat): int {
    (field * 10 + d) % U32
  }

  /** `exprtime` takes each further digit with its sign, without shifting the earlier ones. */
  function ExprTimeAfter(f: Fields, d: nat): int {
    if f.negative then f.exprtime - d else f.exprtime + d
  }

  predicate IsPut(name: string) {
    name == "set" || name == "add" || name == "append" || name == "prepend"
  }

  function AfterName(f: Fields): Fed {
    if IsPut(f.name) then Fed(f.(stage := PutKey))
    else if f.name == "get" || f.name == "gets" then Fed(f.(stage := GetKey))
    else if f.name == "stats" then Fed(f.(stage := LF))
    else Thrown
  }

  /** One iteration of the parser's loop. */
  function Feed(f: Fields, c: char): Fed {
    match f.stage
    case Name => if c == ' ' || c == '\r' then AfterName(f) else Fed(f.(name := f.name + [c]))
    case PutKey =>
      if c == ' ' then Fed(f.(stage := Flags, keys := f.keys + [f.curKey])) else Fed(f.(curKey := f.curKey + [c]))
    case GetKey =>
      if c == '\r' then Fed(f.(stage := LF, keys := f.keys + [f.curKey], curKey := ""))
      else if c == ' ' then Fed(f.(keys := f.keys + [f.curKey], curKey := ""))
      else Fed(f.(curKey := f.curKey + [c]))
    case Flags =>
      if c == ' ' then Fed(f.(negative := false, stage := ExprTimeStart))
      else if !IsDigit(c) then Fed(f)
      else if Pushed(f.flags, DigitOf(c)) < f.flags then Thrown
      else Fed(f.(flags := Pushed(f.flags, DigitOf(c))))
    case ExprTimeStart =>
      if c == '-' then Fed(f.(negative := true, stage := ExprTime))
      else if IsDigit(c) then Fed(f.(exprtime := DigitOf(c), stage := ExprTime))
      else Fed(f)
    case ExprTime =>
      if c == ' ' then Fed(f.(stage := Bytes))
      else if !IsDigit(c) then Fed(f)
      else if !(-I32_MAX - 1 <= ExprTimeAfter(f, DigitOf(c)) <= I32_MAX) then Thrown
      else Fed(f.(exprtime := ExprTimeAfter(f, DigitOf(c))))
    case Bytes =>
      if c == '\r' then Fed(f.(stage := LF))
      else if !IsDigit(c) then Fed(f)
      else if Pushed(f.bytes, DigitOf(c)) < f.bytes then Thrown
      else Fed(f.(bytes := Pushed(f.bytes, DigitOf(c))))
    case LF => if c == '\n' then Fed(f.(complete := true)) else Thrown
  }

  /** Where one call of `Parse` stops: the fields then, the bytes consumed before, and whether it threw. */
  datatype Stop = Stop(fields: Fields, consumed: nat, threw: bool)

  function Scan(f: Fields, input: string): (r: Stop)
    ensures r.consumed <= |input|
    decreases |input|
  {
    if input == "" || f.complete then Stop(f, 0, false)
    else
      match Feed(f, input[0])
      case Thrown => Stop(f, 0, true)
      case Fed(g) => After(Scan(g, input[1..]), 1)
  }

  /** The same stop counted from `k` bytes earlier. */
  function After(r: Stop, k: nat): Stop {
    r.(consumed := r.consumed + k)
  }

  // ---------- Commands ----------

  datatype Command =
    | Set(key: string, flags: int, expire: int)
    | Add(key: string, flags: int, expire: int)
    | Append(key: string, flags: int, expire: int)
    | Get(keys: seq<string>)
    | Stats

  /** What `Build` finds; it throws on the two names that `Parse` accepts and it does not know. */
  datatype Built = Command(command: Command, bodySize: int) | NoCommand | Unsupported

  /** What every call of `Parse` keeps: past its key, a put line has a key to build from. */
  predicate IsSound(f: Fields) {
    && 0 <= f.flags < U32 && 0 <= f.bytes < U32 && -I32_MAX - 1 <= f.exprtime <= I32_MAX
    && (f.complete ==> f.stage == LF)
    && match f.stage
       case Name => true
       case PutKey => IsPut(f.name)
       case GetKey => f.name == "get" || f.name == "gets"
       case LF => (IsPut(f.name) && f.keys != []) || f.name == "get" || f.name == "gets" || f.name == "stats"
       case _ => IsPut(f.name) && f.keys != []
  }

  function CommandOf(f: Fields): Built
    requires IsSound(f)
  {
    if f.stage != LF then NoCommand
    else if f.name == "set" then Command(Set(f.keys[0], f.flags, f.exprtime), f.bytes)
    else if f.name == "add" then Command(Add(f.keys[0], f.flags, f.exprtime), f.bytes)
    else if f.name == "append" then Command(Append(f.keys[0], f.flags, f.exprtime), f.bytes)
    else if f.name == "get" then Command(Get(f.keys), f.bytes)
    else if f.name == "stats" then Command(Stats, f.bytes)
    else Unsupported
  }

  lemma FeedKeepsSound(f: Fields, c: char)
    requires IsSound(f) && !f.complete && Feed(f, c).Fed?
    ensures IsSound(Feed(f, c).fields)
  {
  }

  lemma {:induction false} ScanKeepsSound(f: Fields, input: string)
    requires IsSound(f)
    ensures IsSound(Scan(f, input).fields)
    decreases |input|
  {
    if input != "" && !f.complete && Feed(f, input[0]).Fed? {
      FeedKeepsSound(f, input[0]);
      ScanKeepsSound(Feed(f, input[0]).fields, input[1..]);
    }
  }

  // ---------- The parser, updated in place ----------

  class Parser {
    var stage: Stage
    var name: string
    var keys: seq<string>
    var flags: int
    var exprtime: int
    var bytes: int
    var negative: bool
    var curKey: string
    var complete: bool

    ghost function View(): Fields
      reads this
    {
      Fields(stage, name, keys, flags, exprtime, bytes, negative, curKey, complete)
    }

    constructor ()
      ensures View() == Cleared(negative)
    {
      stage, name, keys, curKey, complete, flags, bytes, exprtime := Name, "", [], "", false, 0, 0, 0;
    }

    method Reset()
      modifies this
      ensures View() == Cleared(old(negative))
    {
      stage := Name;
      name, keys, curKey := "", [], "";
      complete := false;
      flags, bytes, exprtime := 0, 0, 0;
    }

    /** Reads bytes until a command is complete, the input ends or a byte is refused. */
    method Parse(input: string) returns (parsed: nat, threw: bool)
      requires IsSound(View())
      modifies this
      ensures IsSound(View())
      ensures Stop(View(), parsed, threw) == Scan(old(View()), input)
    {
      parsed, threw := 0, false;
      ScanKeepsSound(View(), input);
      while parsed < |input| && !complete && !threw
        invariant parsed <= |input|
        invariant Scan(old(View()), input) ==
                    if threw then Stop(View(), parsed, true) else After(Scan(View(), input[parsed..]), parsed)
        decreases !threw, |input| - parsed
      {
        threw := ParseByte(input[parsed]);
        if !threw {
          parsed := parsed + 1;
        }
      }
    }

    /** The body of the loop: the switch over the state. */
    method ParseByte(c: char) returns (threw: bool)
      modifies this
      ensures threw ==> Feed(old(View()), c) == Thrown && View() == old(View())
      ensures !threw ==> Feed(old(View()), c) == Fed(View())
    {
      threw := false;
      match stage
      case Name =>
        if c == ' ' || c == '\r' {
          if name == "set" || name == "add" || name == "append" || name == "prepend" {
            stage := PutKey;
          } else if name == "get" || name == "gets" {
            stage := GetKey;
          } else if name == "stats" {
            stage := LF;
          } else {
            threw := true;
          }
        } else {
          name := name + [c];
        }
      case PutKey =>
        if c == ' ' {
          stage := Flags;
          keys := keys + [curKey];
        } else {
          curKey := curKey + [c];
        }
      case GetKey =>
        if c == '\r' {
          keys := keys + [curKey];
          if |keys| == 0 {
            threw := true;
          } else {
            curKey := "";
            stage := LF;
          }
        } else if c == ' ' {
          keys := keys + [curKey];
          curKey := "";
        } else {
          curKey := curKey + [c];
        }
      case Flags =>
        if c == ' ' {
          negative := false;
          stage := ExprTimeStart;
        } else if IsDigit(c) {
          var f := Pushed(flags, DigitOf(c));
          if f < flags {
            threw := true;
          } else {
            flags := f;
          }
        }
      case ExprTimeStart =>
        if c == '-' {
          negative := true;
          stage := ExprTime;
        } else if IsDigit(c) {
          exprtime := DigitOf(c);
          stage := ExprTime;
        }
      case ExprTime =>
        if c == ' ' {
          stage := Bytes;
        } else if IsDigit(c) {
          var et := if negative then exprtime - DigitOf(c) else exprtime + DigitOf(c);
          if et < -I32_MAX - 1 || et > I32_MAX {
            threw := true;
          } else {
            exprtime := et;
          }
        }
      case Bytes =>
        if c == '\r' {
          stage := LF;
        } else if IsDigit(c) {
          var b := Pushed(bytes, DigitOf(c));
          if b < bytes {
            threw := true;
          } else {
            bytes := b;
          }
        }
      case LF =>
        if c == '\n' {
          complete := true;
        } else {
          threw := true;
        }
    }

    method Build() returns (built: Built)
      requires IsSound(View())
      ensures built == CommandOf(View())
    {
      if stage != LF {
        return NoCommand;
      }
      if name == "set" {
        built := Command(Set(keys[0], flags, exprtime), bytes);
      } else if name == "add" {
        built := Command(Add(keys[0], flags, exprtime), bytes);
      } else if name == "append" {
        built := Command(Append(keys[0], flags, exprtime), bytes);
      } else if name == "get" {
        built := Command(Get(keys), bytes);
      } else if name == "stats" {
        built := Command(Stats, bytes);
      } else {
        built := Unsupported;
      }
    }
  }
}
