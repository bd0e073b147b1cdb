/** The control-pipe reader: an incremental frame decoder over bytes that arrive in arbitrary pieces. */
module IpcReader {
  import opened IpcFrame

  const BUFFER_SIZE := HEADER_SIZE + CONTROL_MAX

  // ---------- The whole stream at once ----------

  /** The commands of a stream, the bytes left over, and whether they start with a bad header. */
  datatype Parse = Parse(commands: seq<Command>, rest: seq<Byte>, bad: bool)

  predicate BadFront(s: seq<Byte>) {
    |s| >= HEADER_SIZE && !GoodHeader(s)
  }

  predicate CommandFront(s: seq<Byte>) {
    |s| >= HEADER_SIZE && GoodHeader(s) && |s| >= HEADER_SIZE + GetDWord(s, 20)
  }

  function First(s: seq<Byte>): Command
    requires CommandFront(s)
  {
    FrontCommand(s)
  }

  function After(s: seq<Byte>): (rest: seq<Byte>)
    requires CommandFront(s)
    ensures |rest| < |s|
  {
    s[HEADER_SIZE + GetDWord(s, 20)..]
  }

  function ParseStream(s: seq<Byte>): Parse
    decreases |s|
  {
    if BadFront(s) then Parse([], s, true)
    else if CommandFront(s) then Prepend([First(s)], ParseStream(After(s)))
    else Parse([], s, false)
  }

  /** The front of a stream does not depend on later bytes, and a full buffer always decides it. */
  lemma FrontStays(s: seq<Byte>, more: seq<Byte>)
    ensures BadFront(s) ==> BadFront(s + more)
    ensures CommandFront(s) ==>
            CommandFront(s + more) && !BadFront(s + more) && First(s + more) == First(s) &&
                After(s + more) == After(s) + more
    ensures |s| >= BUFFER_SIZE ==> BadFront(s) || CommandFront(s)
    ensures BadFront(s) ==> !CommandFront(s)
  {
    if |s| >= HEADER_SIZE {
      assert (s + more)[..4] == s[..4];
      var total := HEADER_SIZE + GetDWord(s, 20);
      if |s| >= total {
        assert (s + more)[HEADER_SIZE..total] == s[HEADER_SIZE..total];
        assert (s + more)[total..] == s[total..] + more;
      }
    }
  }

  function Prepend(commands: seq<Command>, p: Parse): Parse {
    p.(commands := commands + p.commands)
  }

  lemma PrependTwice(first: seq<Command>, second: seq<Command>, p: Parse)
    ensures Prepend(first, Prepend(second, p)) == Prepend(first + second, p)
  {
    assert first + (second + p.commands) == first + second + p.commands;
  }

  /** A command that fits the control pipe. */
  type Control = c: Command | |c.payload| <= CONTROL_MAX witness Command(0, 0, 0, 0, [])

  function Stream(commands: seq<Control>): seq<Byte> {
    if commands == [] then [] else Frame(commands[0]) + Stream(commands[1..])
  }

  lemma FrameFront(c: Control, rest: seq<Byte>)
    ensures var s := Frame(c) + rest; CommandFront(s) && !BadFront(s) && First(s) == c && After(s) == rest
  {
    hide GoodHeader, GetDWord, FrontCommand, Frame;
    FrameBack(c, rest);
    assert (Frame(c) + rest)[HEADER_SIZE + |c.payload|..] == rest;
  }

  /** Parsing inverts writing whole frames, whatever follows them. */
  lemma {:induction false} ParseInvertsStream(commands: seq<Control>, tail: seq<Byte>)
    ensures ParseStream(Stream(commands) + tail) == Prepend(commands, ParseStream(tail))
    decreases |commands|
  {
    hide BadFront, CommandFront, First, After, Frame;
    if commands == [] {
      assert Stream(commands) + tail == tail;
      assert [] + ParseStream(tail).commands == ParseStream(tail).commands;
    } else {
      var c, later := commands[0], Stream(commands[1..]) + tail;
      var s := Stream(commands) + tail;
      assert s == Frame(c) + later;
      FrameFront(c, later);
      ParseInvertsStream(commands[1..], tail);
      PrependTwice([c], commands[1..], ParseStream(tail));
      assert [c] + commands[1..] == commands;
    }
  }

  // ---------- One call ----------

  datatype Failure = BadHeader | BrokenMidFrame | BufferFull | SystemFault

  /** Which system call of a read fails although the pipe is not at its end. */
  datatype Fault = NoFault | PeekFails | ReadFails

  /** The four return values of a read. */
  datatype Outcome = Nothing | Got(command: Command) | EndOfInput | Failed(why: Failure)

  /** The bytes buffered, the bytes waiting in the pipe, and whether its writing end is closed. */
  datatype Pipe = Pipe(buffer: seq<Byte>, incoming: seq<Byte>, closed: bool)

  predicate Fits(p: Pipe) {
    |p.buffer| <= BUFFER_SIZE
  }

  function Min(a: int, b: int): int { if a < b then a else b }

  /** One call; the system hands over at most `grant` of the waiting bytes, or one of its calls fails. */
  function Read(p: Pipe, grant: nat, fault: Fault): (Outcome, Pipe)
    requires Fits(p) && grant >= 1
  {
    if BadFront(p.buffer) then (Failed(BadHeader), p)
    else if CommandFront(p.buffer) then (Got(First(p.buffer)), p.(buffer := After(p.buffer)))
    else if fault.PeekFails? then (Failed(SystemFault), p)
    else if p.incoming == [] then
      (if !p.closed then Nothing else if p.buffer == [] then EndOfInput else Failed(BrokenMidFrame), p)
    else
      var available := Min(|p.incoming|, BUFFER_SIZE - |p.buffer|);
      if available == 0 then (Failed(BufferFull), p)
      else if fault.ReadFails? then (Failed(SystemFault), p)
      else
        var received := Min(grant, available);
        (Nothing, p.(buffer := p.buffer + p.incoming[..received], incoming := p.incoming[received..]))
  }

  function Pending(p: Pipe): seq<Byte> { p.buffer + p.incoming }

  /** What a call returns says about the bytes pending before and after it. */
  ghost predicate Answers(p: Pipe, r: Outcome, q: Pipe) {
    var whole, rest := ParseStream(Pending(p)), ParseStream(Pending(q));
    && Fits(q) && q.closed == p.closed
    && (r.Got? ==> whole == Prepend([r.command], rest) && q.incoming == p.incoming && |q.buffer| < |p.buffer|)
    && (!r.Got? ==> Pending(q) == Pending(p))
    && match r {
      case Got(_) => true
      case Nothing =>
        if p.incoming == [] then !p.closed && whole == Parse([], p.buffer, false) else |q.incoming| < |p.incoming|
      case EndOfInput => p.closed && whole == Parse([], [], false)
      case Failed(BadHeader) => whole == Parse([], Pending(p), true)
      case Failed(BrokenMidFrame) => p.closed && p.buffer != [] && whole == Parse([], p.buffer, false)
      case Failed(BufferFull) => false
      case Failed(SystemFault) => q == p
    }
  }

  /** A read keeps its bounds, never meets a full buffer, and takes from the pending bytes exactly the
      command it returns. */
  lemma ReadStep(p: Pipe, grant: nat, fault: Fault)
    requires Fits(p) && grant >= 1
    ensures var (r, q) := Read(p, grant, fault); Answers(p, r, q) && (fault.NoFault? ==> r != Failed(SystemFault))
  {
    hide BadFront, CommandFront, First, After;
    FrontStays(p.buffer, p.incoming);
    if p.incoming == [] {
      assert Pending(p) == p.buffer;
    } else if !BadFront(p.buffer) && !CommandFront(p.buffer) {
      var received := Min(grant, Min(|p.incoming|, BUFFER_SIZE - |p.buffer|));
      assert p.buffer + p.incoming[..received] + p.incoming[received..] == Pending(p);
    }
  }

  // ---------- Whole runs ----------

  datatype Event = Arrive(bytes: seq<Byte>) | Close | Call(grant: nat, fault: Fault)

  /** The pipe, everything that arrived, and the outcomes of the calls so far. */
  datatype Run = Run(pipe: Pipe, arrived: seq<Byte>, outcomes: seq<Outcome>)

  const START := Run(Pipe([], [], false), [], [])

  /** Nothing arrives after the close, and a call is granted at least one byte. */
  predicate Possible(r: Run, e: Event) {
    match e
    case Arrive(_) => !r.pipe.closed
    case Close => true
    case Call(grant, _) => grant >= 1
  }

  function Step(r: Run, e: Event): Run
    requires Fits(r.pipe) && Possible(r, e)
  {
    match e
    case Arrive(bytes) => r.(pipe := r.pipe.(incoming := r.pipe.incoming + bytes), arrived := r.arrived + bytes)
    case Close => r.(pipe := r.pipe.(closed := true))
    case Call(grant, fault) => var (o, p) := Read(r.pipe, grant, fault); r.(pipe := p, outcomes := r.outcomes + [o])
  }

  function Commands(outcomes: seq<Outcome>): seq<Command> {
    if outcomes == [] then []
    else Commands(outcomes[..|outcomes| - 1])
         + if outcomes[|outcomes| - 1].Got? then [outcomes[|outcomes| - 1].command] else []
  }

  /** The commands returned, followed by those still pending, are those of the whole stream. */
  ghost predicate Faithful(r: Run) {
    Fits(r.pipe) && ParseStream(r.arrived) == Prepend(Commands(r.outcomes), ParseStream(Pending(r.pipe)))
  }

  ghost predicate Reaches(r: Run, events: seq<Event>, last: Run)
    requires Fits(r.pipe)
    decreases |events|
  {
    if events == [] then last == r
    else Possible(r, events[0]) && Fits(Step(r, events[0]).pipe) && Reaches(Step(r, events[0]), events[1..], last)
  }

  lemma {:induction false} ParseGrows(s: seq<Byte>, more: seq<Byte>)
    ensures var p := ParseStream(s);
            ParseStream(s + more) ==
            if p.bad then p.(rest := p.rest + more) else Prepend(p.commands, ParseStream(p.rest + more))
    decreases |s|
  {
    hide BadFront, CommandFront, First, After;
    FrontStays(s, more);
    if CommandFront(s) {
      ParseGrows(After(s), more);
      var q := ParseStream(After(s));
      var later := ParseStream(q.rest + more);
      assert [First(s)] + (q.commands + later.commands) == ([First(s)] + q.commands) + later.commands;
    } else {
      assert [] + ParseStream(s + more).commands == ParseStream(s + more).commands;
    }
  }

  lemma ArriveKeeps(r: Run, bytes: seq<Byte>)
    requires Faithful(r) && !r.pipe.closed
    ensures Faithful(Step(r, Arrive(bytes)))
  {
    hide ParseStream, Commands;
    var whole, pending := ParseStream(r.arrived), ParseStream(Pending(r.pipe));
    ParseGrows(r.arrived, bytes);
    ParseGrows(Pending(r.pipe), bytes);
    assert Pending(r.pipe) + bytes == Pending(r.pipe.(incoming := r.pipe.incoming + bytes));
    var later := ParseStream(pending.rest + bytes);
    assert Commands(r.outcomes) + (pending.commands + later.commands) ==
           (Commands(r.outcomes) + pending.commands) + later.commands;
  }

  lemma CallKeeps(r: Run, grant: nat, fault: Fault)
    requires Faithful(r) && grant >= 1
    ensures Faithful(Step(r, Call(grant, fault)))
  {
    hide ParseStream, Read;
    ReadStep(r.pipe, grant, fault);
    var (o, p) := Read(r.pipe, grant, fault);
    var next := Step(r, Call(grant, fault));
    assert next.outcomes[..|next.outcomes| - 1] == r.outcomes;
    var done, pending := Commands(r.outcomes), ParseStream(Pending(p)).commands;
    if o.Got? {
      assert done + ([o.command] + pending) == (done + [o.command]) + pending;
    } else {
      assert done + [] == done;
    }
  }

  lemma {:induction false} RunFaithful(r: Run, events: seq<Event>, last: Run)
    requires Faithful(r) && Reaches(r, events, last)
    ensures Faithful(last)
    decreases |events|
  {
    if events != [] {
      match events[0] {
        case Arrive(bytes) => ArriveKeeps(r, bytes);
        case Close =>
        case Call(grant, fault) => CallKeeps(r, grant, fault);
      }
      RunFaithful(Step(r, events[0]), events[1..], last);
    }
  }

  /** However the bytes were split, whenever the calls were made and whichever of them failed, the commands
      returned are the first commands of the stream, and all of them once a call finds nothing to do. A call
      reports a bad header only when the stream has one there, and the end of a closed stream exactly when it
      holds whole frames. */
  lemma ChunksDoNotMatter(events: seq<Event>, last: Run, grant: nat, fault: Fault)
    requires Reaches(START, events, last) && grant >= 1
    ensures Fits(last.pipe)
    ensures var whole, got := ParseStream(last.arrived), Commands(last.outcomes);
            var (o, _) := Read(last.pipe, grant, fault);
            && got <= whole.commands
            && o != Failed(BufferFull)
            && (o == Failed(BadHeader) ==> got == whole.commands && whole.bad)
            && (o.Nothing? && last.pipe.incoming == [] ==> got == whole.commands && !whole.bad)
            && (o.EndOfInput? ==> last.pipe.closed && got == whole.commands && !whole.bad && whole.rest == [])
            && (o == Failed(BrokenMidFrame) ==>
                last.pipe.closed && got == whole.commands && !whole.bad && whole.rest != [])
  {
    assert Faithful(START) by {
      assert [] + ParseStream([]).commands == ParseStream([]).commands;
    }
    RunFaithful(START, events, last);
    ReadStep(last.pipe, grant, fault);
    var pending := ParseStream(Pending(last.pipe));
    assert pending.commands == [] ==> Commands(last.outcomes) + pending.commands == Commands(last.outcomes);
  }

  // ---------- The reader with its buffer ----------

  class Ipc {
    const inputBytes: array<Byte>
    var inputLength: nat
    var incoming: seq<Byte>
    var closed: bool

    ghost predicate Valid()
      reads this
    {
      inputBytes.Length == BUFFER_SIZE && inputLength <= BUFFER_SIZE
    }

    ghost function State(): Pipe
      requires Valid()
      reads this, inputBytes
    {
      Pipe(inputBytes[..inputLength], incoming, closed)
    }

    constructor ()
      ensures Valid() && State() == START.pipe && fresh(inputBytes)
    {
      inputBytes := new Byte[BUFFER_SIZE](_ => 0);
      inputLength, incoming, closed := 0, [], false;
    }

    /** Moves the bytes behind the first `total` to the front. */
    method Discard(total: nat)
      requires Valid() && total <= inputLength
      modifies this`inputLength, inputBytes
      ensures Valid() && inputBytes[..inputLength] == old(inputBytes[..inputLength])[total..]
    {
      forall k | 0 <= k < inputLength - total {
        inputBytes[k] := inputBytes[total + k];
      }
      inputLength := inputLength - total;
    }

    method Append(chunk: seq<Byte>)
      requires Valid() && inputLength + |chunk| <= BUFFER_SIZE
      modifies this`inputLength, inputBytes
      ensures Valid() && inputBytes[..inputLength] == old(inputBytes[..inputLength]) + chunk
    {
      forall k | 0 <= k < |chunk| {
        inputBytes[inputLength + k] := chunk[k];
      }
      inputLength := inputLength + |chunk|;
    }

    method ReadCommand(grant: nat, fault: Fault) returns (r: Outcome)
      requires Valid() && grant >= 1
      modifies this, inputBytes
      ensures Valid() && (r, State()) == Read(old(State()), grant, fault)
    {
      hide ParseStream, GetWord, GetDWord;
      if inputLength >= HEADER_SIZE {
        var header := inputBytes[..inputLength];
        if header[..4] != MAGIC() || GetWord(header, 4) != PROTOCOL {
          return Failed(BadHeader);
        }
        var length := GetDWord(header, 20);
        if length > CONTROL_MAX {
          return Failed(BadHeader);
        }
        var total := HEADER_SIZE + length;
        if inputLength >= total {
          r := Got(Command(GetWord(header, 6), GetDWord(header, 8), GetDWord(header, 12), GetDWord(header, 16),
                           header[HEADER_SIZE..total]));
          Discard(total);
          return;
        }
      }
      if fault == PeekFails {
        return Failed(SystemFault);
      }
      if incoming == [] {
        return if !closed then Nothing else if inputLength == 0 then EndOfInput else Failed(BrokenMidFrame);
      }
      var available := Min(|incoming|, BUFFER_SIZE - inputLength);
      if available == 0 {
        return Failed(BufferFull);
      }
      if fault == ReadFails {
        return Failed(SystemFault);
      }
      var received := Min(grant, available);
      Append(incoming[..received]);
      incoming := incoming[received..];
      return Nothing;
    }

    /** Calls until nothing more can be returned; the commands are those of everything pending. */
    method Drain() returns (commands: seq<Command>, last: Outcome)
      requires Valid()
      modifies this, inputBytes
      ensures Valid() && closed == old(closed)
      ensures var whole := ParseStream(old(Pending(State())));
              && commands == whole.commands
              && last == if whole.bad then Failed(BadHeader)
                         else if !closed then Nothing
                         else if whole.rest == [] then EndOfInput
                         else Failed(BrokenMidFrame)
    {
      hide ParseStream, Read;
      commands := [];
      last := Nothing;
      var more := true;
      assert Prepend([], ParseStream(Pending(State()))) == ParseStream(Pending(State())) by {
        assert [] + ParseStream(Pending(State())).commands == ParseStream(Pending(State())).commands;
      }
      while more
        invariant Valid() && closed == old(closed)
        invariant old(ParseStream(Pending(State()))) == Prepend(commands, ParseStream(Pending(State())))
        invariant !more ==> ParseStream(Pending(State())).commands == []
        invariant !more ==> last == var rest := ParseStream(Pending(State()));
                    if rest.bad then Failed(BadHeader) else if !closed then Nothing
                    else if rest.rest == [] then EndOfInput else Failed(BrokenMidFrame)
        decreases more, |incoming|, inputLength
      {
        ghost var before := State();
        var idle := incoming == [];
        var grant: nat :| grant >= 1;
        ReadStep(before, grant, NoFault);
        last := ReadCommand(grant, NoFault);
        if last.Got? {
          assert commands + ([last.command] + ParseStream(Pending(State())).commands)
              == (commands + [last.command]) + ParseStream(Pending(State())).commands;
          commands := commands + [last.command];
        } else if !last.Nothing? || idle {
          more := false;
        }
      }
      assert commands + [] == commands;
    }
  }
}
